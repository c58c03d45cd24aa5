/** The functions of tcp.c that change connections in place: backlog counting, purge, removal,
    close, half-close, abandon, and the eviction of connections when the PCB pool is empty.

    Each method is shown to take exactly the step of `TcpPcbs` that it stands for. Error
    callbacks are taken not to touch the stack; they are the subject of `TcpTimer`. */
module TcpStack {
  import opened Basics
  import opened IdList
  import opened TcpPcbs
  import opened TcpSteps

  const PRIO_MAX: int := 127

  function Idle(ticks: int, c: Pcb): int { U32(ticks - c.tmr) }

  // ----- eviction candidates

  /** Position `k` of the list holds a PCB in state `s` that has been idle at least as long as any
      other in that state, and longer than those behind it. */
  ghost predicate OldestAt(n: Net, list: seq<Id>, s: State, ticks: int, k: nat) {
    && k < |list| && list[k] in n.pcbs && n.pcbs[list[k]].state == s
    && forall i | 0 <= i < |list| :: NoOlder(n, list, s, ticks, k, i)
  }

  predicate NoOlder(n: Net, list: seq<Id>, s: State, ticks: int, k: nat, i: nat)
    requires k < |list| && i < |list| && list[k] in n.pcbs
  {
    list[i] in n.pcbs && n.pcbs[list[i]].state == s ==>
      var a, b := Idle(ticks, n.pcbs[list[i]]), Idle(ticks, n.pcbs[list[k]]);
      a <= b && (k < i ==> a < b)
  }

  ghost predicate Oldest(n: Net, list: seq<Id>, s: State, ticks: int, v: Id) {
    exists k: nat :: OldestAt(n, list, s, ticks, k) && list[k] == v
  }

  /** Position `k` holds a PCB of the lowest priority of all, below `prio`, and among those of that
      priority the one idle for longest. */
  ghost predicate LowestAt(n: Net, prio: nat, ticks: int, k: nat) {
    && k < |n.active| && n.active[k] in n.pcbs && n.pcbs[n.active[k]].prio < Ceiling(prio)
    && forall i | 0 <= i < |n.active| :: NoLower(n, ticks, k, i)
  }

  predicate NoLower(n: Net, ticks: int, k: nat, i: nat)
    requires k < |n.active| && i < |n.active| && n.active[k] in n.pcbs
  {
    n.active[i] in n.pcbs ==>
      var c, d := n.pcbs[n.active[i]], n.pcbs[n.active[k]];
      && d.prio <= c.prio
      && (c.prio == d.prio ==> Idle(ticks, c) <= Idle(ticks, d) && (k < i ==> Idle(ticks, c) < Idle(ticks, d)))
  }

  ghost predicate Lowest(n: Net, prio: nat, ticks: int, v: Id) {
    exists k: nat :: LowestAt(n, prio, ticks, k) && n.active[k] == v
  }

  function Ceiling(prio: nat): int { if prio < PRIO_MAX then prio else PRIO_MAX }

  predicate InState(n: Net, s: State, i: nat)
    requires i < |n.active|
  {
    n.active[i] in n.pcbs && n.pcbs[n.active[i]].state == s
  }

  ghost predicate NoneIn(n: Net, s: State) { forall i | 0 <= i < |n.active| :: !InState(n, s, i) }

  predicate Below(n: Net, prio: nat, i: nat)
    requires i < |n.active|
  {
    n.active[i] in n.pcbs && n.pcbs[n.active[i]].prio < Ceiling(prio)
  }

  ghost predicate NoneBelow(n: Net, prio: nat) { forall i | 0 <= i < |n.active| :: !Below(n, prio, i) }

  /** The connection tcp_alloc sacrifices: from TIME_WAIT, else from LAST_ACK, else from CLOSING,
      else one of lower priority; none only if there is none in any of the four classes. */
  ghost predicate Victim(n: Net, prio: nat, ticks: int, v: Option<Id>) {
    if n.timeWait != [] then
      v.Some? && Oldest(n, n.timeWait, TIME_WAIT, ticks, v.value)
    else if !NoneIn(n, LAST_ACK) then
      v.Some? && Oldest(n, n.active, LAST_ACK, ticks, v.value)
    else if !NoneIn(n, CLOSING) then
      v.Some? && Oldest(n, n.active, CLOSING, ticks, v.value)
    else if !NoneBelow(n, prio) then
      v.Some? && Lowest(n, prio, ticks, v.value)
    else v.None?
  }

  lemma OldestUnique(n: Net, list: seq<Id>, s: State, ticks: int, v: Id, w: Id)
    requires Oldest(n, list, s, ticks, v) && Oldest(n, list, s, ticks, w)
    ensures v == w
  {
    var j: nat :| OldestAt(n, list, s, ticks, j) && list[j] == v;
    var k: nat :| OldestAt(n, list, s, ticks, k) && list[k] == w;
    assert NoOlder(n, list, s, ticks, j, k) && NoOlder(n, list, s, ticks, k, j);
  }

  lemma LowestUnique(n: Net, prio: nat, ticks: int, v: Id, w: Id)
    requires Lowest(n, prio, ticks, v) && Lowest(n, prio, ticks, w)
    ensures v == w
  {
    var j: nat :| LowestAt(n, prio, ticks, j) && n.active[j] == v;
    var k: nat :| LowestAt(n, prio, ticks, k) && n.active[k] == w;
    assert NoLower(n, ticks, j, k) && NoLower(n, ticks, k, j);
  }

  /** The order of the classes and the choice within each leave no freedom. */
  lemma VictimUnique(n: Net, prio: nat, ticks: int, v: Option<Id>, w: Option<Id>)
    requires Victim(n, prio, ticks, v) && Victim(n, prio, ticks, w)
    ensures v == w
  {
    if n.timeWait != [] {
      OldestUnique(n, n.timeWait, TIME_WAIT, ticks, v.value, w.value);
    } else if !NoneIn(n, LAST_ACK) {
      OldestUnique(n, n.active, LAST_ACK, ticks, v.value, w.value);
    } else if !NoneIn(n, CLOSING) {
      OldestUnique(n, n.active, CLOSING, ticks, v.value, w.value);
    } else if !NoneBelow(n, prio) {
      LowestUnique(n, prio, ticks, v.value, w.value);
    }
  }

  /** No PCB is in one of the classes that go before any living connection. */
  ghost predicate NoneLeaving(n: Net) { n.timeWait == [] && NoneIn(n, LAST_ACK) && NoneIn(n, CLOSING) }

  /** In every run: where the victim is a living connection, it was last given a lower priority than the
      one that is asked for, and no active connection was given a lower one; of those with the same
      priority none has been silent for longer. */
  lemma EvictedIsLower(pool: seq<Id>, es: seq<Event>, prio: nat, ticks: int, v: Id, x: Id)
    requires Distinct(pool) && Consistent(Fresh(pool))
    requires var n := Run(Fresh(pool), es); NoneLeaving(n) && Victim(n, prio, ticks, Some(v)) && x in n.active
    ensures var a, b := LastGiven(Fresh(pool), es, v, Given(0, 0)), LastGiven(Fresh(pool), es, x, Given(0, 0));
            && a.prio < prio && a.prio <= b.prio
            && (a.prio == b.prio ==> U32(ticks - b.tmr) <= U32(ticks - a.tmr))
  {
    var n := Run(Fresh(pool), es);
    HasWhatWasGiven(pool, es, v);
    HasWhatWasGiven(pool, es, x);
    LowestOf(n, prio, ticks, v, x);
  }

  lemma LowestOf(n: Net, prio: nat, ticks: int, v: Id, x: Id)
    requires Consistent(n) && Lowest(n, prio, ticks, v) && x in n.active
    ensures v in n.pcbs && x in n.pcbs
    ensures var c, d := n.pcbs[x], n.pcbs[v];
            d.prio < prio && d.prio <= c.prio && (d.prio == c.prio ==> U32(ticks - c.tmr) <= U32(ticks - d.tmr))
  {
    var k: nat :| LowestAt(n, prio, ticks, k) && n.active[k] == v;
    var i :| 0 <= i < |n.active| && n.active[i] == x;
    assert NoLower(n, ticks, k, i) && x in n.pcbs;
  }

  // ----- pending closes

  lemma TailThere(n: Net, ids: seq<Id>)
    requires AllThere(n, ids) && ids != []
    ensures AllThere(n, ids[1..])
  {
  }

  ghost predicate AllThere(n: Net, ids: seq<Id>) { forall i | 0 <= i < |ids| :: ids[i] in n.pcbs }

  lemma ListsThere(n: Net)
    requires Consistent(n)
    ensures AllThere(n, n.active) && AllThere(n, n.timeWait)
  {
    forall i | 0 <= i < |n.active| ensures n.active[i] in n.pcbs { assert n.active[i] in n.active; }
    forall i | 0 <= i < |n.timeWait| ensures n.timeWait[i] in n.pcbs { assert n.timeWait[i] in n.timeWait; }
  }

  /** tcp_handle_closepend: a retry for every PCB of the list. */
  ghost function AllRetried(n: Net, ids: seq<Id>, room: Id -> bool): (m: Net)
    requires Consistent(n) && AllThere(n, ids)
    ensures Consistent(m) && m.pcbs.Keys == n.pcbs.Keys && m.active == n.active
    ensures m.timeWait == n.timeWait && m.free == n.free
    decreases |ids|
  {
    if ids == [] then n
    else
      assert ids[0] in n.pcbs && PcbOk(n, ids[0]);
      RetriedKeeps(n, ids[0], room(ids[0]));
      RetriedFrame(n, ids[0], room(ids[0]));
      AllRetried(Retried(n, ids[0], room(ids[0])), ids[1..], room)
  }

  lemma RetriedFrame(n: Net, p: Id, room: bool)
    requires Alive(n, p)
    ensures var m := Retried(n, p, room);
            m.pcbs.Keys == n.pcbs.Keys && m.active == n.active && m.timeWait == n.timeWait && m.free == n.free
  {
    if n.pcbs[p].closePend { FinFrame(Set(n, p, n.pcbs[p].(closePend := false)), p, room); }
  }

  lemma FinFrame(n: Net, p: Id, room: bool)
    requires Alive(n, p)
    ensures var m := FinTried(n, p, room);
            m.pcbs.Keys == n.pcbs.Keys && m.active == n.active && m.timeWait == n.timeWait && m.free == n.free
  {
  }

  /** What a retry makes of a PCB depends on that PCB alone, and leaves the others as they are. */
  lemma RetriedLocal(n: Net, k: Net, p: Id, room: bool, x: Id)
    requires Alive(n, p) && Alive(k, p) && n.pcbs[p] == k.pcbs[p] && x in n.pcbs
    ensures p in Retried(n, p, room).pcbs && p in Retried(k, p, room).pcbs
    ensures Retried(n, p, room).pcbs[p] == Retried(k, p, room).pcbs[p]
    ensures x in Retried(n, p, room).pcbs && (x != p ==> Retried(n, p, room).pcbs[x] == n.pcbs[x])
  {
  }

  /** The walk over the list retries every PCB of it once, as if it were the only one. */
  lemma {:induction false} EachRetried(n: Net, ids: seq<Id>, room: Id -> bool, x: Id)
    requires Consistent(n) && AllThere(n, ids) && Distinct(ids) && x in n.pcbs && Alive(n, x)
    ensures x in AllRetried(n, ids, room).pcbs
    ensures AllRetried(n, ids, room).pcbs[x] == if x in ids then Retried(n, x, room(x)).pcbs[x] else n.pcbs[x]
    decreases |ids|
  {
    assert x in AllRetried(n, ids, room).pcbs.Keys;
    if ids != [] {
      var p, r := ids[0], ids[1..];
      assert PcbOk(n, p);
      var m := Retried(n, p, room(p));
      RetriedKeeps(n, p, room(p));
      RetriedFrame(n, p, room(p));
      RetriedLocal(n, n, p, room(p), x);
      TailDistinct(ids);
      assert PcbOk(m, x);
      EachRetried(m, r, room, x);
      if x != p { RetriedLocal(m, n, x, room(x), x); }
    }
  }

  function Retries(ids: seq<Id>, room: Id -> bool): seq<Event> {
    seq(|ids|, (i: nat) requires i < |ids| => Retry(ids[i], room(ids[i])))
  }

  /** The walk is a run of retries. */
  lemma {:induction false} RetriesRun(n: Net, ids: seq<Id>, room: Id -> bool)
    requires Consistent(n) && AllThere(n, ids)
    ensures AllRetried(n, ids, room) == Run(n, Retries(ids, room))
    decreases |ids|
  {
    if ids != [] {
      assert ids[0] in n.pcbs && PcbOk(n, ids[0]);
      var m := Retried(n, ids[0], room(ids[0]));
      RetriedKeeps(n, ids[0], room(ids[0]));
      RetriedFrame(n, ids[0], room(ids[0]));
      NextOf(n, ids[0], Retry(ids[0], room(ids[0])));
      assert Retries(ids, room)[1..] == Retries(ids[1..], room);
      RetriesRun(m, ids[1..], room);
    }
  }

  /** So the state in which tcp_alloc looks for a victim is one of a run, too. */
  lemma RetriedRun(pool: seq<Id>, es: seq<Event>, room: Id -> bool)
    requires Distinct(pool) && Consistent(Fresh(pool))
    ensures var n := Run(Fresh(pool), es);
            AllThere(n, n.active)
            && AllRetried(n, n.active, room) == Run(Fresh(pool), es + Retries(n.active, room))
  {
    var n := Run(Fresh(pool), es);
    ListsThere(n);
    RetriesRun(n, n.active, room);
    RunMore(Fresh(pool), es, Retries(n.active, room));
  }

  lemma TailDistinct(ids: seq<Id>)
    requires Distinct(ids) && ids != []
    ensures Distinct(ids[1..]) && ids[0] !in ids[1..] && forall x | x in ids :: x == ids[0] || x in ids[1..]
  {
    var r := ids[1..];
    forall i, j | 0 <= i < j < |r| ensures Apart(r, i, j) { assert Apart(ids, i + 1, j + 1); }
    forall i | 0 <= i < |r| ensures r[i] != ids[0] { assert Apart(ids, 0, i + 1); }
    assert ids == [ids[0]] + r;
  }

  // ----- the assertions of the backlog counter

  predicate DelayedTrips(n: Net, p: Id)
    requires Alive(n, p)
  {
    !n.pcbs[p].pend && n.pcbs[p].listener.Some? && (n.listeners[n.pcbs[p].listener.value].pending + 1) % 256 == 0
  }

  predicate AcceptedTrips(n: Net, p: Id)
    requires Alive(n, p)
  {
    n.pcbs[p].pend && n.pcbs[p].listener.Some? && n.listeners[n.pcbs[p].listener.value].pending == 0
  }

  /** With fewer than 256 active PCBs neither assertion can fail for one of them. */
  lemma CounterNeverTrips(n: Net, p: Id)
    requires Consistent(n) && p in n.active && p in n.pcbs && PcbOk(n, p) && |n.active| < 256
    ensures !DelayedTrips(n, p) && !AcceptedTrips(n, p)
  {
    if n.pcbs[p].listener.Some? {
      var l := n.pcbs[p].listener.value;
      CountsActive(n, l);
      if n.pcbs[p].pend {
        assert p in ActivePending(n, l);
      } else {
        AtMostLength(ActivePending(n, l) + {p}, n.active);
      }
    }
  }

  lemma DelayedStep(n: Net, p: Id)
    requires Consistent(n) && Alive(n, p) && p in n.active
    ensures Consistent(Delayed(n, p))
  {
    assert PcbOk(n, p);
    DelayedKeeps(n, p);
  }

  lemma AcceptedStep(n: Net, p: Id)
    requires Consistent(n) && Alive(n, p)
    ensures Consistent(Accepted(n, p))
  {
    assert PcbOk(n, p);
    AcceptedKeeps(n, p);
  }

  lemma FinStep(n: Net, p: Id, room: bool)
    requires Consistent(n) && Alive(n, p)
    ensures Consistent(FinTried(n, p, room))
  {
    assert PcbOk(n, p);
    FinTriedKeeps(n, p, room);
  }

  lemma CloseStep(n: Net, p: Id, rst: bool, room: bool)
    requires Consistent(n) && Alive(n, p)
    ensures Consistent(CloseTried(n, p, rst, room))
  {
    assert PcbOk(n, p);
    ClosedKeeps(n, p, rst, room);
  }

  class Stack {
    var pcbs: map<Id, Pcb>
    var listeners: map<Id, Listener>
    var active: seq<Id>
    var timeWait: seq<Id>
    var free: seq<Id>
    var ticks: int

    ghost function Value(): Net
      reads this
    {
      Net(pcbs, listeners, active, timeWait, free)
    }

    ghost predicate Valid()
      reads this
    {
      Consistent(Value())
    }

    constructor (pool: seq<Id>)
      requires Distinct(pool)
      ensures Valid() && Value() == Fresh(pool)
    {
      pcbs, listeners, active, timeWait, free, ticks := map[], map[], [], [], pool, 0;
    }

    /** tcp_backlog_delayed; `tripped` reports its assertion. */
    method BacklogDelayed(p: Id) returns (tripped: bool)
      requires Alive(Value(), p)
      modifies `pcbs, `listeners
      ensures Value() == Delayed(old(Value()), p) && tripped == DelayedTrips(old(Value()), p)
      ensures var c := old(pcbs)[p];
              if c.pend || c.listener.None? then Value() == old(Value())
              else
                && OnlyPending(old(Value()), Value(), p, c.listener.value) && Names(Value(), p, c.listener.value)
                && listeners[c.listener.value].pending == (old(listeners)[c.listener.value].pending + 1) % 256
      ensures old(Valid()) && p in active ==> Valid()
    {
      if Valid() && p in active { DelayedStep(Value(), p); }
      tripped := false;
      var c := pcbs[p];
      if !c.pend && c.listener.Some? {
        var l := c.listener.value;
        listeners := listeners[l := listeners[l].(pending := (listeners[l].pending + 1) % 256)];
        tripped := listeners[l].pending == 0;
        pcbs := pcbs[p := c.(pend := true)];
      }
    }

    /** tcp_backlog_accepted. */
    method BacklogAccepted(p: Id) returns (tripped: bool)
      requires Alive(Value(), p)
      modifies `pcbs, `listeners
      ensures Value() == Accepted(old(Value()), p) && tripped == AcceptedTrips(old(Value()), p)
      ensures var c := old(pcbs)[p];
              if !c.pend || c.listener.None? then Value() == old(Value())
              else
                && OnlyPending(old(Value()), Value(), p, c.listener.value) && !Names(Value(), p, c.listener.value)
                && listeners[c.listener.value].pending == (old(listeners)[c.listener.value].pending - 1) % 256
      ensures old(Valid()) ==> Valid()
    {
      if Valid() { AcceptedStep(Value(), p); }
      tripped := false;
      var c := pcbs[p];
      if c.pend && c.listener.Some? {
        var l := c.listener.value;
        tripped := listeners[l].pending == 0;
        listeners := listeners[l := listeners[l].(pending := (listeners[l].pending - 1) % 256)];
        pcbs := pcbs[p := c.(pend := false)];
      }
    }

    method SetState(p: Id, s: State)
      requires p in pcbs
      modifies `pcbs
      ensures Value() == Set(old(Value()), p, old(pcbs)[p].(state := s))
    {
      pcbs := pcbs[p := pcbs[p].(state := s)];
    }

    /** tcp_pcb_purge. */
    method Purge(p: Id)
      requires Alive(Value(), p)
      modifies `pcbs, `listeners
      ensures Value() == Purged(old(Value()), p)
      ensures old(Valid()) ==> Valid()
    {
      if pcbs[p].state != CLOSED && pcbs[p].state != TIME_WAIT {
        var tripped := BacklogAccepted(p);
      }
    }

    /** TCP_PCB_REMOVE_ACTIVE. */
    method RemoveActive(p: Id)
      requires Alive(Value(), p)
      modifies `pcbs, `listeners, `active
      ensures Value() == Removed(old(Value()), p)
    {
      active := Rmv(active, p);
      Purge(p);
      SetState(p, CLOSED);
    }

    /** tcp_free. */
    method Free(p: Id)
      modifies `pcbs, `free
      ensures Value() == Freed(old(Value()), p)
    {
      pcbs := pcbs - {p};
      free := [p] + free;
    }

    /** tcp_abandon. */
    method Abandon(p: Id)
      requires Valid() && p in pcbs && PcbOk(Value(), p)
      modifies `pcbs, `listeners, `active, `timeWait, `free
      ensures Valid() && Value() == Gone(old(Value()), p)
    {
      ghost var n := Value();
      AbandonedKeeps(n, p);
      AbandonedIsGone(n, p);
      if pcbs[p].state == TIME_WAIT {
        timeWait := Rmv(timeWait, p);
        Free(p);
      } else {
        if pcbs[p].state != CLOSED {
          RemoveActive(p);
        }
        var tripped := BacklogAccepted(p);
        Free(p);
      }
    }

    /** tcp_remove_listener for one list. */
    method RemoveListener(list: seq<Id>, l: Id)
      requires AllThere(Value(), list)
      modifies `pcbs
      ensures pcbs.Keys == old(pcbs).Keys
      ensures forall p | p in pcbs :: pcbs[p] == if p in list then Orphan(old(pcbs)[p], l) else old(pcbs)[p]
    {
      var i := 0;
      while i < |list|
        invariant i <= |list| && pcbs.Keys == old(pcbs).Keys
        invariant forall p | p in pcbs :: pcbs[p] == if p in list[..i] then Orphan(old(pcbs)[p], l) else old(pcbs)[p]
      {
        var p := list[i];
        assert p in old(pcbs).Keys;
        if pcbs[p].listener == Some(l) {
          pcbs := pcbs[p := pcbs[p].(listener := None)];
        }
        i := i + 1;
        assert list[..i] == list[..i - 1] + [p];
      }
      assert list[..i] == list;
    }

    /** tcp_close of a listener: tcp_listen_closed, then it is freed. */
    method CloseListener(l: Id)
      requires Valid() && l in listeners
      modifies `pcbs, `listeners
      ensures Valid() && Value() == ListenerClosed(old(Value()), l)
      ensures l !in listeners && pcbs.Keys == old(pcbs).Keys
      ensures forall p | p in pcbs :: Orphaned(old(pcbs)[p], pcbs[p], l)
    {
      ghost var n := Value();
      ListsThere(n);
      RemoveListener(active, l);
      assert forall i | 0 <= i < |timeWait| :: timeWait[i] in n.pcbs.Keys;
      RemoveListener(timeWait, l);
      listeners := listeners - {l};
      forall p | p in n.pcbs ensures p in pcbs && pcbs[p] == Orphan(n.pcbs[p], l) {
        assert p in pcbs.Keys;
        ClosedIsOrphan(n, p, l);
      }
      assert pcbs == ListenerClosed(n, l).pcbs;
      ListenerClosedKeeps(n, l);
      forall p | p in pcbs ensures Orphaned(n.pcbs[p], pcbs[p], l) { ListenerGone(n, l, p); }
    }

    /** tcp_close_shutdown_fin; `room` says whether there is memory for the FIN. */
    method CloseShutdownFin(p: Id, room: bool)
      requires Alive(Value(), p)
      modifies `pcbs, `listeners
      ensures Value() == FinTried(old(Value()), p, room)
      ensures old(Valid()) ==> Valid()
    {
      if Valid() { FinStep(Value(), p, room); }
      var c := pcbs[p];
      match c.state
      case SYN_RCVD =>
        if room {
          var tripped := BacklogAccepted(p);
          pcbs := pcbs[p := pcbs[p].(fins := pcbs[p].fins + 1, state := FIN_WAIT_1)];
        } else {
          pcbs := pcbs[p := c.(closePend := true, owed := true)];
        }
      case ESTABLISHED =>
        pcbs := pcbs[p := if room then c.(fins := c.fins + 1, state := FIN_WAIT_1)
                          else c.(closePend := true, owed := true)];
      case CLOSE_WAIT =>
        pcbs := pcbs[p := if room then c.(fins := c.fins + 1, state := LAST_ACK)
                          else c.(closePend := true, owed := true)];
      case _ =>
    }

    /** tcp_close_shutdown for a connection. */
    method CloseShutdown(p: Id, rst: bool, room: bool)
      requires Alive(Value(), p)
      modifies `pcbs, `listeners, `active, `free
      ensures Value() == CloseTried(old(Value()), p, rst, room)
      ensures old(Valid()) ==> Valid()
    {
      if Valid() { CloseStep(Value(), p, rst, room); }
      var c := pcbs[p];
      if rst && (c.state == ESTABLISHED || c.state == CLOSE_WAIT) && c.unread {
        Purge(p);
        active := Rmv(active, p);
        Free(p);
        return;
      }
      match c.state
      case CLOSED => Free(p);
      case SYN_SENT =>
        RemoveActive(p);
        Free(p);
      case _ => CloseShutdownFin(p, room);
    }

    /** tcp_close. */
    method Close(p: Id, room: bool)
      requires Valid() && p in pcbs && PcbOk(Value(), p)
      modifies `pcbs, `listeners, `active, `free
      ensures Valid() && Value() == Closed(old(Value()), p, room)
    {
      RxClosedKeeps(Value(), p, room);
      pcbs := pcbs[p := pcbs[p].(rxClosed := true)];
      CloseShutdown(p, true, room);
    }

    /** tcp_shutdown; `held` says whether bytes are still unread once refused data is dropped. */
    method Shutdown(p: Id, rx: bool, tx: bool, held: bool, room: bool) returns (err: Err)
      requires Valid() && p in pcbs && PcbOk(Value(), p)
      modifies `pcbs, `listeners, `active, `free
      ensures Valid() && Value() == ShutDown(old(Value()), p, rx, tx, held, room)
      ensures err == ERR_CONN <==> !rx && tx && !Sends(old(pcbs)[p].state)
    {
      ShutKeeps(Value(), p, rx, tx, held, room);
      if rx {
        if tx {
          Close(p, room);
        } else {
          pcbs := pcbs[p := pcbs[p].(rxClosed := true, unread := held)];
        }
        return ERR_OK;
      }
      if tx {
        if pcbs[p].state == SYN_RCVD || pcbs[p].state == ESTABLISHED || pcbs[p].state == CLOSE_WAIT {
          CloseShutdown(p, false, room);
        } else {
          return ERR_CONN;
        }
      }
      return ERR_OK;
    }

    /** The retry of a pending close, as in tcp_fasttmr and tcp_handle_closepend. */
    method RetryClose(p: Id, room: bool)
      requires Valid() && p in pcbs && PcbOk(Value(), p)
      modifies `pcbs, `listeners
      ensures Valid() && Value() == Retried(old(Value()), p, room)
    {
      RetriedKeeps(Value(), p, room);
      if pcbs[p].closePend {
        pcbs := pcbs[p := pcbs[p].(closePend := false)];
        CloseShutdownFin(p, room);
      }
    }

    /** tcp_handle_closepend. */
    method HandleClosepend(room: Id -> bool)
      requires Valid()
      modifies `pcbs, `listeners
      ensures Valid() && AllThere(old(Value()), active) && Value() == AllRetried(old(Value()), active, room)
    {
      ListsThere(Value());
      ghost var n := Value();
      var i := 0;
      while i < |active|
        invariant i <= |active| && Valid() && AllThere(Value(), active[i..])
        invariant AllRetried(Value(), active[i..], room) == AllRetried(n, active, room)
      {
        var p := active[i];
        assert active[i..][0] == p && active[i..][1..] == active[i + 1..];
        assert p in pcbs && PcbOk(Value(), p);
        RetriedFrame(Value(), p, room(p));
        TailThere(Value(), active[i..]);
        RetryClose(p, room(p));
        i := i + 1;
      }
    }

    /** The search of tcp_kill_timewait and tcp_kill_state. */
    method FindOldest(list: seq<Id>, s: State) returns (v: Option<Id>)
      requires AllThere(Value(), list)
      ensures v.Some? ==> v.value in list && Oldest(Value(), list, s, ticks, v.value)
      ensures v.None? ==> forall i | 0 <= i < |list| :: pcbs[list[i]].state != s
    {
      var inactivity, k: nat, i: nat := 0, |list|, 0;
      while i < |list|
        invariant i <= |list| && k <= |list|
        invariant k == |list| ==> inactivity == 0 && forall j | 0 <= j < i :: pcbs[list[j]].state != s
        invariant k < |list| ==> && list[k] in pcbs && k < i && pcbs[list[k]].state == s
                                 && inactivity == Idle(ticks, pcbs[list[k]])
        invariant k < |list| ==> forall j | 0 <= j < i :: NoOlder(Value(), list, s, ticks, k, j)
      {
        var c := pcbs[list[i]];
        if c.state == s && U32(ticks - c.tmr) >= inactivity {
          if k < |list| {
            forall j | 0 <= j < i ensures NoOlder(Value(), list, s, ticks, i, j) {
              assert NoOlder(Value(), list, s, ticks, k, j);
            }
          }
          inactivity, k := U32(ticks - c.tmr), i;
        }
        i := i + 1;
      }
      if k == |list| { return None; }
      assert OldestAt(Value(), list, s, ticks, k);
      v := Some(list[k]);
    }

    /** The search of tcp_kill_prio. */
    method FindLowest(prio: nat) returns (v: Option<Id>)
      requires AllThere(Value(), active)
      ensures v.Some? ==> v.value in active && Lowest(Value(), prio, ticks, v.value)
      ensures v.None? ==> NoneBelow(Value(), prio)
    {
      var mprio := Ceiling(prio);
      if mprio == 0 { return None; }
      mprio := mprio - 1;
      var inactivity, k: nat, i: nat := 0, |active|, 0;
      while i < |active|
        invariant i <= |active| && k <= |active|
        invariant k == |active| ==> && inactivity == 0 && mprio == Ceiling(prio) - 1
                                    && forall j | 0 <= j < i :: !Below(Value(), prio, j)
        invariant k < |active| ==> && active[k] in pcbs && k < i && inactivity == Idle(ticks, pcbs[active[k]])
                                   && mprio == pcbs[active[k]].prio < Ceiling(prio)
        invariant k < |active| ==> forall j | 0 <= j < i :: NoLower(Value(), ticks, k, j)
      {
        var c := pcbs[active[i]];
        if c.prio < mprio || (c.prio == mprio && U32(ticks - c.tmr) >= inactivity) {
          if k < |active| {
            forall j | 0 <= j < i ensures NoLower(Value(), ticks, i, j) { assert NoLower(Value(), ticks, k, j); }
          } else {
            forall j | 0 <= j < i ensures NoLower(Value(), ticks, i, j) { assert !Below(Value(), prio, j); }
          }
          inactivity, k, mprio := U32(ticks - c.tmr), i, c.prio;
        }
        i := i + 1;
      }
      if k == |active| { return None; }
      assert LowestAt(Value(), prio, ticks, k);
      v := Some(active[k]);
    }

    /** tcp_kill_timewait. */
    method KillTimewait() returns (v: Option<Id>)
      requires Valid()
      modifies `pcbs, `listeners, `active, `timeWait, `free
      ensures Valid()
      ensures v.None? ==> old(timeWait) == [] && Value() == old(Value())
      ensures v.Some? ==> old(timeWait) != [] && Oldest(old(Value()), old(timeWait), TIME_WAIT, ticks, v.value)
      ensures v.Some? ==> v.value in old(pcbs) && PcbOk(old(Value()), v.value) && Value() == Gone(old(Value()), v.value)
    {
      ListsThere(Value());
      AllWaiting(Value());
      assert timeWait != [] ==> pcbs[timeWait[0]].state == TIME_WAIT;
      v := FindOldest(timeWait, TIME_WAIT);
      if v.Some? {
        assert PcbOk(Value(), v.value);
        Abandon(v.value);
      }
    }

    /** tcp_kill_state. */
    method KillState(s: State) returns (v: Option<Id>)
      requires Valid()
      modifies `pcbs, `listeners, `active, `timeWait, `free
      ensures Valid()
      ensures v.None? ==> NoneIn(old(Value()), s) && Value() == old(Value())
      ensures v.Some? ==> !NoneIn(old(Value()), s) && Oldest(old(Value()), old(active), s, ticks, v.value)
      ensures v.Some? ==> v.value in old(pcbs) && PcbOk(old(Value()), v.value) && Value() == Gone(old(Value()), v.value)
    {
      ListsThere(Value());
      v := FindOldest(active, s);
      if v.Some? {
        SomeIn(Value(), s, ticks, v.value);
        assert PcbOk(Value(), v.value);
        Abandon(v.value);
      }
    }

    /** tcp_kill_prio. */
    method KillPrio(prio: nat) returns (v: Option<Id>)
      requires Valid()
      modifies `pcbs, `listeners, `active, `timeWait, `free
      ensures Valid()
      ensures v.None? ==> NoneBelow(old(Value()), prio) && Value() == old(Value())
      ensures v.Some? ==> !NoneBelow(old(Value()), prio) && Lowest(old(Value()), prio, ticks, v.value)
      ensures v.Some? ==> v.value in old(pcbs) && PcbOk(old(Value()), v.value) && Value() == Gone(old(Value()), v.value)
    {
      ListsThere(Value());
      v := FindLowest(prio);
      if v.Some? {
        SomeBelow(Value(), prio, ticks, v.value);
        assert PcbOk(Value(), v.value);
        Abandon(v.value);
      }
    }

    /** memp_malloc and the initialisation of the new PCB. */
    method Take(prio: nat) returns (r: Option<Id>)
      requires Valid()
      modifies `pcbs, `free
      ensures Valid()
      ensures old(free) == [] ==> r.None? && Value() == old(Value())
      ensures old(free) != [] ==> r == Some(old(free)[0]) && Value() == Allocated(old(Value()), prio, ticks)
    {
      if free == [] { return None; }
      AllocatedKeeps(Value(), prio, ticks);
      r := Some(free[0]);
      pcbs := pcbs[free[0] := NewPcb(prio, ticks)];
      free := free[1..];
    }

    /** The attempts of tcp_alloc after the first, in their order. */
    method Evict(prio: nat) returns (v: Option<Id>)
      requires Valid()
      modifies `pcbs, `listeners, `active, `timeWait, `free
      ensures Valid() && Victim(old(Value()), prio, ticks, v)
      ensures v.None? ==> Value() == old(Value())
      ensures v.Some? ==> v.value in old(pcbs) && PcbOk(old(Value()), v.value) && Value() == Gone(old(Value()), v.value)
    {
      v := KillTimewait();
      if v.None? { v := KillState(LAST_ACK); }
      if v.None? { v := KillState(CLOSING); }
      if v.None? { v := KillPrio(prio); }
    }

    /** tcp_alloc. */
    method Alloc(prio: nat, room: Id -> bool) returns (r: Option<Id>, v: Option<Id>)
      requires Valid()
      modifies `pcbs, `listeners, `active, `timeWait, `free
      ensures Valid() && (r.Some? ==> r.value in pcbs && Blank(pcbs[r.value], prio, ticks))
      // a free PCB is taken without any eviction
      ensures old(free) != [] ==>
                v.None? && r == Some(old(free)[0]) && Value() == Allocated(old(Value()), prio, ticks)
      // else pending closes are tried again, at most one connection is evicted, and its PCB is used
      ensures old(free) == [] ==>
                && AllThere(old(Value()), old(active))
                && var n := AllRetried(old(Value()), old(active), room);
                   && Victim(n, prio, ticks, v) && r == v
                   && (v.None? ==> Value() == n)
                   && (v.Some? ==> v.value in n.pcbs && PcbOk(n, v.value)
                                   && Value() == Allocated(Gone(n, v.value), prio, ticks))
    {
      r := Take(prio);
      v := None;
      if r.None? {
        HandleClosepend(room);
        v := Evict(prio);
        r := Take(prio);
      }
    }
  }

  lemma AllWaiting(n: Net)
    requires Consistent(n) && AllThere(n, n.timeWait)
    ensures forall i | 0 <= i < |n.timeWait| :: n.pcbs[n.timeWait[i]].state == TIME_WAIT
  {
    forall i | 0 <= i < |n.timeWait| ensures n.pcbs[n.timeWait[i]].state == TIME_WAIT {
      assert n.timeWait[i] in n.timeWait && PcbOk(n, n.timeWait[i]);
    }
  }

  lemma SomeIn(n: Net, s: State, ticks: int, v: Id)
    requires Oldest(n, n.active, s, ticks, v)
    ensures !NoneIn(n, s)
  {
    var k: nat :| OldestAt(n, n.active, s, ticks, k) && n.active[k] == v;
    assert InState(n, s, k);
  }

  lemma SomeBelow(n: Net, prio: nat, ticks: int, v: Id)
    requires Lowest(n, prio, ticks, v)
    ensures !NoneBelow(n, prio)
  {
    var k: nat :| LowestAt(n, prio, ticks, k) && n.active[k] == v;
    assert Below(n, prio, k);
  }

  /** A PCB on neither list names no listener, so the two walks reach all that do. */
  lemma ClosedIsOrphan(n: Net, p: Id, l: Id)
    requires Consistent(n) && p in n.pcbs
    ensures var c := if p in n.active then Orphan(n.pcbs[p], l) else n.pcbs[p];
            (if p in n.timeWait then Orphan(c, l) else c) == Orphan(n.pcbs[p], l)
  {
    assert PcbOk(n, p);
  }
}
