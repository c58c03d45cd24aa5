/** What the single steps of `TcpPcbs` do to a control block, its listener and the lists, and what that
    comes to over whole runs: a step concerns one PCB only, a PCB keeps the priority it was given, and
    its timer says when it was last heard of. */
module TcpSteps {
  import opened Basics
  import opened IdList
  import opened TcpPcbs

  // ----- the backlog

  /** Only whether `p` is pending and the counter of `l` differ. */
  predicate OnlyPending(n: Net, m: Net, p: Id, l: Id) {
    && p in n.pcbs && p in m.pcbs && l in n.listeners && l in m.listeners
    && m.pcbs == n.pcbs[p := n.pcbs[p].(pend := m.pcbs[p].pend)]
    && m.listeners == n.listeners[l := n.listeners[l].(pending := m.listeners[l].pending)]
    && m.active == n.active && m.timeWait == n.timeWait && m.free == n.free
  }

  /** tcp_backlog_delayed of a connection that is not pending makes it so, and counts it. */
  lemma DelayedCounts(n: Net, p: Id, l: Id)
    requires Alive(n, p) && n.pcbs[p].listener == Some(l) && !n.pcbs[p].pend
    ensures var m := Delayed(n, p);
            && OnlyPending(n, m, p, l) && Names(m, p, l)
            && m.listeners[l].pending == (n.listeners[l].pending + 1) % 256
            && (p in n.active ==> p !in ActivePending(n, l) && ActivePending(m, l) == ActivePending(n, l) + {p})
  {
  }

  /** tcp_backlog_accepted of a pending one takes exactly it away again. */
  lemma AcceptedCounts(n: Net, p: Id, l: Id)
    requires Alive(n, p) && Names(n, p, l)
    ensures var m := Accepted(n, p);
            && OnlyPending(n, m, p, l) && !Names(m, p, l)
            && m.listeners[l].pending == (n.listeners[l].pending - 1) % 256
            && ActivePending(m, l) == ActivePending(n, l) - {p}
  {
  }

  /** In all other cases both do nothing. */
  lemma NothingToCount(n: Net, p: Id)
    requires Alive(n, p)
    ensures n.pcbs[p].pend || n.pcbs[p].listener.None? ==> Delayed(n, p) == n
    ensures !n.pcbs[p].pend || n.pcbs[p].listener.None? ==> Accepted(n, p) == n
  {
  }

  // ----- listeners

  /** The PCB has lost its listener if that was `l`, and is otherwise the same. */
  predicate Orphaned(c: Pcb, d: Pcb, l: Id) {
    d == c.(listener := d.listener) && d.listener == if c.listener == Some(l) then None else c.listener
  }

  /** A closed listener is gone, nobody names it, and nothing else has changed. */
  lemma ListenerGone(n: Net, l: Id, p: Id)
    ensures var m := ListenerClosed(n, l);
            && m.listeners == n.listeners - {l} && m.pcbs.Keys == n.pcbs.Keys
            && m.active == n.active && m.timeWait == n.timeWait && m.free == n.free
            && (p in n.pcbs ==> p in m.pcbs && Orphaned(n.pcbs[p], m.pcbs[p], l))
  {
  }

  /** A new listener has nobody pending and the backlog it was given, at least one. */
  lemma Listening(n: Net, l: Id, backlog: int)
    requires Consistent(n) && l !in n.listeners
    ensures var m := Next(n, Listen(l, backlog));
            && m == n.(listeners := m.listeners) && m.listeners.Keys == n.listeners.Keys + {l}
            && (forall k | k in n.listeners :: m.listeners[k] == n.listeners[k])
            && m.listeners[l].pending == |ActivePending(m, l)| == 0
            && m.listeners[l].backlog == if backlog == 0 then 1 else backlog
  {
    var m := Next(n, Listen(l, backlog));
    forall p | p in n.active ensures !Names(m, p, l) { assert p in n.pcbs && PcbOk(n, p); }
    assert ActivePending(m, l) == {};
  }

  /** A PCB that is abandoned, however that comes about, is on no list, and its address is free again. */
  lemma GoneMeans(n: Net, p: Id)
    requires Consistent(n) && p in n.pcbs && PcbOk(n, p)
    ensures var m := Abandoned(n, p);
            && p !in m.pcbs && p !in m.active && p !in m.timeWait && m.free == [p] + n.free && Calm(n, m, p)
            && forall l :: !Names(m, p, l)
  {
    AbandonedIsGone(n, p);
    GoneCalm(n, p);
    WithoutDistinct(n.active, p);
    WithoutDistinct(n.timeWait, p);
  }

  // ----- new connections

  /** A PCB as tcp_alloc returns it. */
  predicate Blank(c: Pcb, prio: nat, tmr: int) {
    && c.state == CLOSED && c.prio == prio && c.tmr == tmr && c.listener.None?
    && !c.pend && !c.closePend && !c.rxClosed && !c.unread && !c.owed && !c.acked && !c.gotFin && c.fins == 0
  }

  lemma AllocatedBlank(n: Net, prio: nat, tmr: int)
    requires n.free != []
    ensures var m, p := Allocated(n, prio, tmr), n.free[0];
            && p in m.pcbs && Blank(m.pcbs[p], prio, tmr) && m.pcbs == n.pcbs[p := m.pcbs[p]]
            && m == n.(pcbs := m.pcbs, free := n.free[1..])
  {
  }

  /** tcp_connect of a fresh PCB makes it active. */
  lemma ConnectingActive(n: Net, p: Id)
    requires p in n.pcbs && n.pcbs[p].state == CLOSED
    ensures var m := Connecting(n, p);
            m == n.(active := [p] + n.active, pcbs := n.pcbs[p := n.pcbs[p].(state := SYN_SENT)])
  {
  }

  /** The end of the handshake, on either side. A connection that was waiting to be accepted no longer
      counts at its listener. */
  lemma HandshakeEnds(n: Net, p: Id, s: Segment)
    requires p in n.pcbs && PcbOk(n, p)
    requires || (n.pcbs[p].state == SYN_SENT && s.SynAck?)
             || (n.pcbs[p].state == SYN_RCVD && n.pcbs[p].listener.Some? && (s.Ack? || s.FinAck?))
    ensures var m := Input(n, p, s);
            && p in m.pcbs && m.pcbs[p].state == (if s.FinAck? then CLOSE_WAIT else ESTABLISHED)
            && m.active == n.active && (n.pcbs[p].state == SYN_RCVD ==> forall l :: !Names(m, p, l))
  {
    AcceptedFields(n, p);
  }

  // ----- a step concerns one PCB

  predicate SameBacklog(n: Net, m: Net, l: Id) {
    l in n.listeners && l in m.listeners ==> m.listeners[l].backlog == n.listeners[l].backlog
  }

  /** Priority and timer have been kept, and a receiving side that was closed is so. */
  predicate Lasting(c: Pcb, d: Pcb) { d.prio == c.prio && d.tmr == c.tmr && (c.rxClosed ==> d.rxClosed) }

  /** Nothing of the other PCBs has changed, nor the size of any backlog. */
  ghost predicate Calm(n: Net, m: Net, p: Id) {
    && SameBut(n, m, p) && (forall l :: SameBacklog(n, m, l))
    && (p in m.pcbs ==> p in n.pcbs && Lasting(n.pcbs[p], m.pcbs[p]))
  }

  lemma CalmTwice(n: Net, k: Net, m: Net, p: Id)
    requires Calm(n, k, p) && Calm(k, m, p)
    ensures Calm(n, m, p)
  {
    forall x ensures Alike(n, m, p, x) { assert Alike(n, k, p, x) && Alike(k, m, p, x); }
    forall l ensures SameBacklog(n, m, l) {
      assert SameBacklog(n, k, l) && SameBacklog(k, m, l) && (l in n.listeners.Keys ==> l in k.listeners.Keys);
    }
  }

  lemma SetCalm(n: Net, p: Id, c: Pcb)
    requires p in n.pcbs && Lasting(n.pcbs[p], c)
    ensures Calm(n, Set(n, p, c), p)
  {
    forall x ensures Alike(n, Set(n, p, c), p, x) { }
  }

  lemma CountedCalm(n: Net, p: Id, l: Id, d: int, c: Pcb)
    requires p in n.pcbs && l in n.listeners && Lasting(n.pcbs[p], c)
    ensures Calm(n, Set(n.(listeners := Counted(n.listeners, l, d)), p, c), p)
  {
    var m := Set(n.(listeners := Counted(n.listeners, l, d)), p, c);
    forall x ensures Alike(n, m, p, x) { }
  }

  lemma AcceptedCalm(n: Net, p: Id)
    requires Alive(n, p)
    ensures Calm(n, Accepted(n, p), p) && Calm(n, Delayed(n, p), p)
  {
    var c := n.pcbs[p];
    if c.listener.Some? {
      CountedCalm(n, p, c.listener.value, -1, c.(pend := false));
      CountedCalm(n, p, c.listener.value, 1, c.(pend := true));
    }
    SetCalm(n, p, c);
    assert Set(n, p, c) == n;
  }

  lemma GoneCalm(n: Net, p: Id)
    requires Alive(n, p)
    ensures Calm(n, Gone(n, p), p)
  {
    var m := Gone(n, p);
    forall x ensures Alike(n, m, p, x) {
      if x != p { WithoutMembers(n.active, p, x); WithoutMembers(n.timeWait, p, x); }
    }
  }

  lemma ConnectingCalm(n: Net, p: Id)
    requires p in n.pcbs
    ensures Calm(n, Connecting(n, p), p)
  {
    var m := Connecting(n, p);
    forall x ensures Alike(n, m, p, x) { }
  }

  lemma MovedCalm(n: Net, p: Id, s: Segment)
    requires p in n.pcbs
    ensures Calm(n, Moved(n, p, s), p)
  {
    var m := Moved(n, p, s);
    HeardSame(n.pcbs[p], s);
    forall x ensures Alike(n, m, p, x) {
      if x != p { WithoutMembers(n.active, p, x); }
    }
  }

  lemma FinCalm(n: Net, p: Id, room: bool)
    requires Alive(n, p)
    ensures Calm(n, FinTried(n, p, room), p)
  {
    var c := n.pcbs[p];
    SetCalm(n, p, c);
    assert Set(n, p, c) == n;
    if Sends(c.state) {
      SetCalm(n, p, c.(closePend := true, owed := true));
      AcceptedCalm(n, p);
      var m := Greeting(n, p);
      SetCalm(m, p, WithFin(m.pcbs[p]));
      CalmTwice(n, m, Set(m, p, WithFin(m.pcbs[p])), p);
    }
  }

  lemma CloseCalm(n: Net, p: Id, rst: bool, room: bool)
    requires p in n.pcbs && PcbOk(n, p)
    ensures Calm(n, CloseTried(n, p, rst, room), p)
  {
    var c := n.pcbs[p];
    FinCalm(n, p, room);
    GoneCalm(n, p);
    FreedIsGone(n, p);
    if rst && (c.state == ESTABLISHED || c.state == CLOSE_WAIT) && c.unread { TimedOutIsGone(n, p); }
  }

  lemma ClosedCalm(n: Net, p: Id, room: bool)
    requires p in n.pcbs && PcbOk(n, p)
    ensures Calm(n, Closed(n, p, room), p)
  {
    SetCalm(n, p, n.pcbs[p].(rxClosed := true));
    assert PcbOk(RxShut(n, p), p);
    CloseCalm(RxShut(n, p), p, true, room);
    CalmTwice(n, RxShut(n, p), Closed(n, p, room), p);
  }

  lemma InputCalm(n: Net, p: Id, s: Segment)
    requires p in n.pcbs && PcbOk(n, p)
    ensures Calm(n, Input(n, p, s), p)
  {
    EffectKeepsSide(n.pcbs[p].state, s);
    HeardSame(n.pcbs[p], s);
    GoneCalm(n, p);
    AcceptedCalm(n, p);
    match EffectOf(n.pcbs[p].state, s)
    case Stay => SetCalm(n, p, Heard(n.pcbs[p], s));
    case Goto(t) => SetCalm(n, p, Heard(n.pcbs[p], s).(state := t));
    case Establish(t) => EstablishCalm(n, p, s, t);
    case Wait =>
      MovedCalm(Accepted(n, p), p, s);
      CalmTwice(n, Accepted(n, p), Moved(Accepted(n, p), p, s), p);
    case Drop => RemovedIsGone(n, p);
  }

  lemma EstablishCalm(n: Net, p: Id, s: Segment, t: State)
    requires p in n.pcbs && PcbOk(n, p) && EffectOf(n.pcbs[p].state, s) == Establish(t)
    ensures Calm(n, Input(n, p, s), p)
  {
    if n.pcbs[p].listener.None? {
      AbandonedIsGone(n, p);
      GoneCalm(n, p);
    } else {
      AcceptedCalm(n, p);
      JoinedCalm(n, Accepted(n, p), p, s, t);
    }
  }

  lemma JoinedCalm(n: Net, m: Net, p: Id, s: Segment, t: State)
    requires p in m.pcbs && Calm(n, m, p)
    ensures Calm(n, Set(m, p, Heard(m.pcbs[p], s).(state := t)), p)
  {
    HeardSame(m.pcbs[p], s);
    SetCalm(m, p, Heard(m.pcbs[p], s).(state := t));
    CalmTwice(n, m, Set(m, p, Heard(m.pcbs[p], s).(state := t)), p);
  }

  lemma RetriedCalm(n: Net, p: Id, room: bool)
    requires Alive(n, p)
    ensures Calm(n, Retried(n, p, room), p)
  {
    var c := n.pcbs[p];
    SetCalm(n, p, c);
    assert Set(n, p, c) == n;
    var m := Set(n, p, c.(closePend := false));
    SetCalm(n, p, c.(closePend := false));
    FinCalm(m, p, room);
    CalmTwice(n, m, FinTried(m, p, room), p);
  }

  lemma ShutCalm(n: Net, p: Id, rx: bool, tx: bool, unread: bool, room: bool)
    requires p in n.pcbs && PcbOk(n, p)
    ensures Calm(n, ShutDown(n, p, rx, tx, unread, room), p)
  {
    ClosedCalm(n, p, room);
    CloseCalm(n, p, false, room);
    SetCalm(n, p, n.pcbs[p].(rxClosed := true, unread := unread));
    SetCalm(n, p, n.pcbs[p]);
    assert Set(n, p, n.pcbs[p]) == n;
  }

  /** Every step that concerns a PCB leaves all others alone, on their lists, and keeps priority and
      timer, unless that is what it sets; a receiving side stays closed. */
  lemma StepCalm(n: Net, p: Id, e: Event)
    requires p in n.pcbs && PcbOk(n, p) && PcbOf(e) == Some(p) && !e.Prioritize? && !e.Touch?
    ensures Calm(n, OfPcb(n, p, e), p)
  {
    match e
    case Connect(_) => ConnectingCalm(n, p);
    case Segment(_, s) => InputCalm(n, p, s);
    case Close(_, room) => ClosedCalm(n, p, room);
    case Shutdown(_, rx, tx, unread, room) => ShutCalm(n, p, rx, tx, unread, room);
    case Retry(_, room) => RetriedCalm(n, p, room);
    case _ => OthersCalm(n, p, e);
  }

  lemma OthersCalm(n: Net, p: Id, e: Event)
    requires p in n.pcbs && PcbOk(n, p) && PcbOf(e) == Some(p)
    requires e.Delay? || e.Accept? || e.Abort? || e.TimeOut? || e.Data?
    ensures Calm(n, OfPcb(n, p, e), p)
  {
    SetCalm(n, p, n.pcbs[p]);
    assert Set(n, p, n.pcbs[p]) == n;
    AcceptedCalm(n, p);
    AbandonedIsGone(n, p);
    GoneCalm(n, p);
    if p in n.active { TimedOutIsGone(n, p); }
    match e
    case Data(_, unread) => SetCalm(n, p, n.pcbs[p].(unread := unread));
    case _ =>
  }

  /** tcp_close and tcp_shutdown close it, if there still is a PCB. */
  lemma RxIsClosed(n: Net, p: Id, e: Event)
    requires p in n.pcbs && PcbOk(n, p) && PcbOf(e) == Some(p) && p in OfPcb(n, p, e).pcbs
    requires e.Close? || (e.Shutdown? && e.rx)
    ensures OfPcb(n, p, e).pcbs[p].rxClosed
  {
    if e.Close? || e.tx {
      assert PcbOk(RxShut(n, p), p);
      CloseCalm(RxShut(n, p), p, true, e.room);
    }
  }

  /** Therefore every counter moves by exactly what happens to that PCB. */
  lemma CountsOnly(n: Net, p: Id, e: Event, l: Id)
    requires Consistent(n) && p in n.pcbs && PcbOk(n, p) && PcbOf(e) == Some(p) && l in n.listeners
    ensures var m := OfPcb(n, p, e);
            && l in m.listeners && m.listeners[l].backlog == n.listeners[l].backlog && CountMoved(n, m, p, l)
  {
    var m := OfPcb(n, p, e);
    OfPcbKeeps(n, p, e);
    if e.Prioritize? || e.Touch? {
      assert Names(m, p, l) == Names(n, p, l) && m.listeners == n.listeners;
    } else {
      StepCalm(n, p, e);
      assert l in m.listeners.Keys && SameBacklog(n, m, l) && CountOk(n, l) && CountOk(m, l);
      CountFollows(n, m, p, l);
    }
  }

  lemma CountFollows(n: Net, m: Net, p: Id, l: Id)
    requires SameBut(n, m, p) && l in n.listeners && l in m.listeners && CountOk(n, l) && CountOk(m, l)
    ensures CountMoved(n, m, p, l)
  {
    PendingMoved(n, m, p, l);
    StepCount(|Pending(n, l)|, |Pending(m, l)|);
  }

  /** Of the PCBs pending on a listener only that one comes or goes. */
  lemma PendingMoved(n: Net, m: Net, p: Id, l: Id)
    requires SameBut(n, m, p)
    ensures |Pending(m, l)| == |Pending(n, l)| + (if Names(m, p, l) then 1 else 0) - (if Names(n, p, l) then 1 else 0)
  {
    var was, now := Pending(n, l), Pending(m, l);
    forall x | x != p ensures x in was <==> x in now { assert Alike(n, m, p, x); }
    assert now - {p} == was - {p};
    AllBut(was, p);
    AllBut(now, p);
  }

  lemma AllBut(s: set<Id>, p: Id)
    ensures |s - {p}| == |s| - if p in s then 1 else 0
  {
    assert p !in s ==> s - {p} == s;
  }

  // ----- priorities and timers

  /** What a PCB was given: its priority, and the tick at which it was last heard of. */
  datatype Given = Given(prio: nat, tmr: int)

  /** Both are set when it is allocated; then tcp_setprio sets the one, and a segment the other, unless the
      receiving side has been closed. */
  function GivenAfter(n: Net, e: Event, p: Id, k: Given): Given {
    match e
    case New(prio, tmr) => if n.free != [] && n.free[0] == p then Given(prio, tmr) else k
    case Syn(_, prio, tmr) => if n.free != [] && n.free[0] == p then Given(prio, tmr) else k
    case Prioritize(q, prio) => if q == p then k.(prio := prio) else k
    case Touch(q, tmr) => if q == p && !Deaf(n, p) then k.(tmr := tmr) else k
    case _ => k
  }

  predicate Deaf(n: Net, p: Id) { p in n.active && p in n.pcbs && n.pcbs[p].rxClosed }

  ghost function LastGiven(n: Net, es: seq<Event>, p: Id, k: Given): Given
    requires Consistent(n)
    decreases |es|
  {
    if es == [] then k else
      NextKeeps(n, es[0]);
      LastGiven(Next(n, es[0]), es[1..], p, GivenAfter(n, es[0], p, k))
  }

  function Has(c: Pcb): Given { Given(c.prio, c.tmr) }

  lemma GivenStep(n: Net, e: Event, p: Id, k: Given)
    requires Consistent(n) && (p in n.pcbs ==> Has(n.pcbs[p]) == k)
    ensures var m := Next(n, e); p in m.pcbs ==> Has(m.pcbs[p]) == GivenAfter(n, e, p, k)
  {
    if PcbOf(e).Some? {
      var q := PcbOf(e).value;
      if q in n.pcbs && PcbOk(n, q) && !e.Prioritize? && !e.Touch? {
        StepCalm(n, q, e);
        assert Alike(n, OfPcb(n, q, e), q, p);
      }
    } else if n.free != [] {
      assert n.free[0] in n.free;
    }
  }

  lemma {:induction false} GivenKept(n: Net, es: seq<Event>, p: Id, k: Given)
    requires Consistent(n) && (p in n.pcbs ==> Has(n.pcbs[p]) == k)
    ensures p in Run(n, es).pcbs ==> Has(Run(n, es).pcbs[p]) == LastGiven(n, es, p, k)
    decreases |es|
  {
    if es != [] {
      NextKeeps(n, es[0]);
      GivenStep(n, es[0], p, k);
      GivenKept(Next(n, es[0]), es[1..], p, GivenAfter(n, es[0], p, k));
    }
  }

  /** Over every run a PCB has the priority it was last given, when it was allocated or since, and its
      timer says when it was last heard of. */
  lemma HasWhatWasGiven(pool: seq<Id>, es: seq<Event>, p: Id)
    requires Distinct(pool)
    ensures Consistent(Fresh(pool))
    ensures var n := Run(Fresh(pool), es); p in n.pcbs ==> Has(n.pcbs[p]) == LastGiven(Fresh(pool), es, p, Given(0, 0))
  {
    FreshConsistent(pool);
    GivenKept(Fresh(pool), es, p, Given(0, 0));
  }
}
