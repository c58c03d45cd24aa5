/** lwip_select and event_callback of sockets.c, without core locking, as a state machine whose
    steps are the protected sections of the code. Any number of threads wait, any number of events
    happen, and their sections interleave in any order.

    A waiter links itself to the list, counts itself at each socket it watches, looks at all of them
    once more, and sleeps. An event that changes a socket starts a walk over the list; the walk drops
    the protection after each waiter, and starts again when the list has changed meanwhile, which a
    generation counter tells. */
module Select {
  import opened IdList

  datatype Kind = Read | Write | Except

  type Sock = nat

  datatype Item = Item(s: Sock, k: Kind)

  datatype Phase =
    | Counting     // linked, not yet counted at all its sockets
    | Scanning     // the second call of lwip_selscan
    | Waiting      // in sys_arch_sem_wait
    | Leaving      // undoing the counts

  /** A thread in lwip_select, once it has linked its lwip_select_cb. */
  datatype Waiter = Waiter(watch: set<Item>, phase: Phase, counted: set<Sock>, scanned: set<Sock>, signalled: bool)

  /** A thread in select_check_waiters: which socket and events, whether it has entered the loop, the
      generation it has seen, and how many waiters it has passed. */
  datatype Walker = Walker(s: Sock, flags: set<Kind>, started: bool, last: nat, idx: nat)

  datatype State = State(
    rcv: map<Sock, int>, snd: set<Sock>, err: set<Sock>,       // rcvevent, sendevent, errevent
    waiting: map<Sock, nat>,                                   // select_waiting, 8 bits
    list: seq<Id>, ctr: nat,                                   // select_cb_list, select_cb_ctr
    waiters: map<Id, Waiter>, walkers: map<Id, Walker>)

  function Rcv(st: State, s: Sock): int { if s in st.rcv then st.rcv[s] else 0 }

  function Count(st: State, s: Sock): nat { if s in st.waiting then st.waiting[s] else 0 }

  predicate Ready(st: State, it: Item) {
    match it.k
    case Read => Rcv(st, it.s) > 0
    case Write => it.s in st.snd
    case Except => it.s in st.err
  }

  function Socks(watch: set<Item>): set<Sock> { set it | it in watch :: it.s }

  predicate Matches(k: Walker, w: Waiter) {
    || (Read in k.flags && Item(k.s, Read) in w.watch)
    || (Write in k.flags && Item(k.s, Write) in w.watch)
    || (Except in k.flags && Item(k.s, Except) in w.watch)
  }

  // ----- what holds in every state

  ghost predicate ListOk(st: State) {
    Distinct(st.list) && forall w :: Listed(st, w)
  }

  predicate Listed(st: State, w: Id) { w in st.list <==> w in st.waiters }

  predicate WaiterOk(w: Waiter) {
    && w.counted <= Socks(w.watch) && w.scanned <= Socks(w.watch)
    && (w.phase == Counting ==> w.scanned == {})
    && (w.phase == Scanning || w.phase == Waiting ==> w.counted == Socks(w.watch))
    && (w.phase == Waiting ==> w.scanned == Socks(w.watch))
  }

  ghost function Counters(st: State, s: Sock): set<Id> { set w | w in st.waiters && s in st.waiters[w].counted }

  /** select_waiting is the number of waiters counted at the socket. */
  ghost predicate CountOk(st: State, s: Sock) { Count(st, s) == |Counters(st, s)| <= 255 }

  /** A walk that has seen the present list has signalled every matching waiter it has passed. */
  predicate PassedOk(st: State, t: Id, i: nat)
    requires t in st.walkers && i < |st.list|
  {
    i < st.walkers[t].idx && st.list[i] in st.waiters && Matches(st.walkers[t], st.waiters[st.list[i]]) ==>
      st.waiters[st.list[i]].signalled
  }

  ghost predicate WalkerOk(st: State, t: Id)
    requires t in st.walkers
  {
    var k := st.walkers[t];
    k.started ==> && k.last <= st.ctr
                  && (k.last == st.ctr ==> k.idx <= |st.list| && forall i | 0 <= i < |st.list| :: PassedOk(st, t, i))
  }

  /** The walk `t` will come to the waiter `w` with an event it waits for. */
  predicate Covers(st: State, t: Id, w: Id, it: Item) {
    && t in st.walkers && st.walkers[t].s == it.s && it.k in st.walkers[t].flags
    && (st.walkers[t].started && st.walkers[t].last == st.ctr ==> st.walkers[t].idx <= Position(st.list, w))
  }

  /** The waiter has looked at the socket, nobody has woken it, and what it waits for is there. */
  predicate Overdue(st: State, w: Id, it: Item) {
    && w in st.waiters && it in st.waiters[w].watch && it.s in st.waiters[w].scanned && !st.waiters[w].signalled
    && (st.waiters[w].phase == Scanning || st.waiters[w].phase == Waiting) && Ready(st, it)
  }

  /** Then a walk is on its way. */
  ghost predicate NotLost(st: State, w: Id, it: Item) { Overdue(st, w, it) ==> exists t :: Covers(st, t, w, it) }

  ghost predicate Inv(st: State) {
    && ListOk(st)
    && (forall w {:trigger WaiterOk(st.waiters[w])} | w in st.waiters :: WaiterOk(st.waiters[w]))
    && (forall s :: CountOk(st, s))
    && (forall t {:trigger WalkerOk(st, t)} | t in st.walkers :: WalkerOk(st, t))
    && (forall w, it :: NotLost(st, w, it))
  }

  // ----- steps of a waiter

  function Set(st: State, w: Id, c: Waiter): State { st.(waiters := st.waiters[w := c]) }

  /** lwip_link_select_cb. */
  function Linked(st: State, w: Id, watch: set<Item>): State {
    if w in st.waiters then st
    else Set(st.(list := [w] + st.list, ctr := st.ctr + 1), w, Waiter(watch, Counting, {}, {}, false))
  }

  /** One socket of the loop that increases select_waiting; 255 waiters are the limit. */
  function CountedAt(st: State, w: Id, s: Sock): State {
    if w !in st.waiters || st.waiters[w].phase != Counting
       || s !in Socks(st.waiters[w].watch) - st.waiters[w].counted then st
    else if Count(st, s) == 255 then Set(st, w, st.waiters[w].(phase := Leaving))
    else
      Set(st.(waiting := st.waiting[s := Count(st, s) + 1]), w, st.waiters[w].(counted := st.waiters[w].counted + {s}))
  }

  function ScanBegun(st: State, w: Id): State {
    if w !in st.waiters || st.waiters[w].phase != Counting
       || st.waiters[w].counted != Socks(st.waiters[w].watch) then st
    else Set(st, w, st.waiters[w].(phase := Scanning))
  }

  predicate AnyReady(st: State, watch: set<Item>, s: Sock) {
    || (Item(s, Read) in watch && Ready(st, Item(s, Read)))
    || (Item(s, Write) in watch && Ready(st, Item(s, Write)))
    || (Item(s, Except) in watch && Ready(st, Item(s, Except)))
  }

  /** One socket of the second lwip_selscan; `lastdata` says that left-over data makes it readable. */
  function ScannedAt(st: State, w: Id, s: Sock, lastdata: bool): State {
    if w !in st.waiters || st.waiters[w].phase != Scanning || s !in Socks(st.waiters[w].watch) then st
    else if lastdata || AnyReady(st, st.waiters[w].watch, s) then Set(st, w, st.waiters[w].(phase := Leaving))
    else Set(st, w, st.waiters[w].(scanned := st.waiters[w].scanned + {s}))
  }

  function Asleep(st: State, w: Id): State {
    if w !in st.waiters || st.waiters[w].phase != Scanning
       || st.waiters[w].scanned != Socks(st.waiters[w].watch) then st
    else Set(st, w, st.waiters[w].(phase := Waiting))
  }

  /** Woken by the semaphore or by the timeout, or giving up because a socket is invalid. */
  function Woken(st: State, w: Id, timeout: bool): State {
    if w !in st.waiters || !(timeout || st.waiters[w].signalled) then st
    else Set(st, w, st.waiters[w].(phase := Leaving))
  }

  /** One socket of the loop that decreases select_waiting. */
  function UncountedAt(st: State, w: Id, s: Sock): State {
    if w !in st.waiters || st.waiters[w].phase != Leaving || s !in st.waiters[w].counted || Count(st, s) == 0 then st
    else
      Set(st.(waiting := st.waiting[s := Count(st, s) - 1]), w, st.waiters[w].(counted := st.waiters[w].counted - {s}))
  }

  /** lwip_unlink_select_cb. */
  function Unlinked(st: State, w: Id): State {
    if w !in st.waiters || st.waiters[w].phase != Leaving || st.waiters[w].counted != {} then st
    else st.(list := Without(st.list, w), ctr := st.ctr + 1, waiters := st.waiters - {w})
  }

  // ----- steps of an event

  datatype Event = RcvPlus | RcvMinus | SendPlus | SendMinus | Error

  /** The counters after the event. */
  function Changed(st: State, s: Sock, e: Event): State {
    match e
    case RcvPlus => st.(rcv := st.rcv[s := Rcv(st, s) + 1])
    case RcvMinus => st.(rcv := st.rcv[s := Rcv(st, s) - 1])
    case SendPlus => st.(snd := st.snd + {s})
    case SendMinus => st.(snd := st.snd - {s})
    case Error => st.(err := st.err + {s})
  }

  /** check_waiters: only the first of several events of a kind is announced. */
  predicate Announced(st: State, s: Sock, e: Event) {
    match e
    case RcvPlus => Rcv(st, s) + 1 <= 1
    case SendPlus => s !in st.snd
    case Error => true
    case RcvMinus => false
    case SendMinus => false
  }

  function Flags(st: State, s: Sock): set<Kind> {
    (if Ready(st, Item(s, Read)) then {Read} else {}) + (if Ready(st, Item(s, Write)) then {Write} else {})
    + (if Ready(st, Item(s, Except)) then {Except} else {})
  }

  /** event_callback in the thread `t`. */
  function Happened(st: State, t: Id, s: Sock, e: Event): State {
    if t in st.walkers then st
    else
      var c := Changed(st, s, e);
      if Announced(st, s, e) && Count(st, s) > 0 then c.(walkers := c.walkers[t := Walker(s, Flags(c, s), false, 0, 0)])
      else c
  }

  /** One protected section of select_check_waiters: begin again if need be, look at one waiter. */
  function Stepped(st: State, t: Id): State {
    if t !in st.walkers then st
    else
      var k := st.walkers[t];
      var i := if k.started && k.last == st.ctr then k.idx else 0;
      if i >= |st.list| then st.(walkers := st.walkers - {t})
      else
        var u := st.(walkers := st.walkers[t := k.(started := true, last := st.ctr, idx := i + 1)]);
        if st.list[i] in st.waiters && Matches(k, st.waiters[st.list[i]])
        then Set(u, st.list[i], st.waiters[st.list[i]].(signalled := true))
        else u
  }

  // ----- every step keeps the invariant

  /** `m` differs from `st` in one waiter and in the counts only. */
  predicate WaiterOnly(st: State, m: State, w: Id) {
    && w in st.waiters && w in m.waiters && m == st.(waiting := m.waiting, waiters := st.waiters[w := m.waiters[w]])
    && m.waiters[w].watch == st.waiters[w].watch && m.waiters[w].signalled == st.waiters[w].signalled
  }

  lemma CoversKept(st: State, m: State, w: Id, it: Item)
    requires NotLost(st, w, it) && (Overdue(m, w, it) ==> Overdue(st, w, it))
    requires m.list == st.list && m.ctr == st.ctr && m.walkers == st.walkers
    ensures NotLost(m, w, it)
  {
    if Overdue(m, w, it) {
      var t :| Covers(st, t, w, it);
      assert Covers(m, t, w, it);
    }
  }

  lemma WaiterStep(st: State, m: State, w: Id)
    requires Inv(st) && WaiterOnly(st, m, w) && WaiterOk(m.waiters[w])
    requires (forall s :: CountOk(m, s)) && (forall it :: Overdue(m, w, it) ==> Overdue(st, w, it))
    ensures Inv(m)
  {
    forall x ensures Listed(m, x) { assert Listed(st, x); }
    forall t | t in m.walkers ensures WalkerOk(m, t) {
      assert WalkerOk(st, t);
      if m.walkers[t].started && m.walkers[t].last == m.ctr {
        forall i | 0 <= i < |m.list| ensures PassedOk(m, t, i) { assert PassedOk(st, t, i); }
      }
    }
    forall x, it ensures NotLost(m, x, it) {
      assert NotLost(st, x, it);
      CoversKept(st, m, x, it);
    }
  }

  lemma CountStays(st: State, m: State, w: Id, s: Sock)
    requires CountOk(st, s) && WaiterOnly(st, m, w) && Count(m, s) == Count(st, s)
    requires s in m.waiters[w].counted <==> s in st.waiters[w].counted
    ensures CountOk(m, s)
  {
    assert Counters(m, s) == Counters(st, s);
  }

  lemma CountSteps(st: State, m: State, w: Id, s: Sock)
    requires CountOk(st, s) && WaiterOnly(st, m, w)
    requires s !in st.waiters[w].counted && s in m.waiters[w].counted ==> Count(m, s) == Count(st, s) + 1 <= 255
    requires s in st.waiters[w].counted && s !in m.waiters[w].counted ==> Count(m, s) == Count(st, s) - 1
    requires (s in m.waiters[w].counted <==> s in st.waiters[w].counted) ==> Count(m, s) == Count(st, s)
    ensures CountOk(m, s)
  {
    var was, now := Counters(st, s), Counters(m, s);
    forall x | x != w ensures x in now <==> x in was { }
    if s in m.waiters[w].counted { assert now == was + {w}; } else { assert now == was - {w}; }
  }

  lemma CountedKeeps(st: State, w: Id, s: Sock)
    requires Inv(st)
    ensures Inv(CountedAt(st, w, s))
  {
    var m := CountedAt(st, w, s);
    if m != st {
      assert WaiterOk(st.waiters[w]) && CountOk(st, s);
      forall x ensures CountOk(m, x) { assert CountOk(st, x); CountSteps(st, m, w, x); }
      WaiterStep(st, m, w);
    }
  }

  lemma UncountedKeeps(st: State, w: Id, s: Sock)
    requires Inv(st)
    ensures Inv(UncountedAt(st, w, s))
  {
    var m := UncountedAt(st, w, s);
    if m != st {
      assert WaiterOk(st.waiters[w]);
      forall x ensures CountOk(m, x) { assert CountOk(st, x); CountSteps(st, m, w, x); }
      WaiterStep(st, m, w);
    }
  }

  /** A waiter that is counted at a socket is never held up by a count of zero. */
  lemma CanUncount(st: State, w: Id, s: Sock)
    requires Inv(st) && w in st.waiters && s in st.waiters[w].counted
    ensures Count(st, s) > 0
  {
    assert CountOk(st, s) && w in Counters(st, s);
  }

  /** Changes of phase. */
  lemma PhaseKeeps(st: State, w: Id, p: Phase)
    requires Inv(st) && w in st.waiters && WaiterOk(st.waiters[w].(phase := p))
    requires || p == Leaving
             || (p == Scanning && st.waiters[w].scanned == {})
             || (p == Waiting && st.waiters[w].phase == Scanning)
    ensures Inv(Set(st, w, st.waiters[w].(phase := p)))
  {
    var m := Set(st, w, st.waiters[w].(phase := p));
    forall x ensures CountOk(m, x) { assert CountOk(st, x); CountStays(st, m, w, x); }
    WaiterStep(st, m, w);
  }

  /** A socket that has been looked at and found idle: nothing the waiter has looked at is overdue
      that was not before. */
  lemma ScannedKeeps(st: State, w: Id, s: Sock, lastdata: bool)
    requires Inv(st)
    ensures Inv(ScannedAt(st, w, s, lastdata))
  {
    var m := ScannedAt(st, w, s, lastdata);
    if m != st {
      assert WaiterOk(st.waiters[w]);
      if m.waiters[w].phase == Leaving {
        PhaseKeeps(st, w, Leaving);
      } else {
        forall x ensures CountOk(m, x) { assert CountOk(st, x); CountStays(st, m, w, x); }
        forall it | Overdue(m, w, it) ensures Overdue(st, w, it) { NotReady(st, st.waiters[w].watch, s, it); }
        WaiterStep(st, m, w);
      }
    }
  }

  lemma NotReady(st: State, watch: set<Item>, s: Sock, it: Item)
    requires !AnyReady(st, watch, s)
    ensures it in watch && it.s == s ==> !Ready(st, it)
  {
    match it.k
    case Read => assert it == Item(it.s, Read);
    case Write => assert it == Item(it.s, Write);
    case Except => assert it == Item(it.s, Except);
  }

  // ----- the list changes: every walk begins again

  lemma LinkedKeeps(st: State, w: Id, watch: set<Item>)
    requires Inv(st)
    ensures Inv(Linked(st, w, watch))
  {
    var m := Linked(st, w, watch);
    if m != st {
      assert Listed(st, w);
      PushDistinct(st.list, w);
      forall x ensures Listed(m, x) { assert Listed(st, x); }
      forall s ensures CountOk(m, s) { assert CountOk(st, s) && Counters(m, s) == Counters(st, s); }
      forall t | t in m.walkers ensures WalkerOk(m, t) { assert WalkerOk(st, t); }
      forall x, it ensures NotLost(m, x, it) { assert NotLost(st, x, it); RestartsCover(st, m, x, it); }
    }
  }

  /** A change of the list makes every walk that is under way begin again, so it still covers. */
  lemma RestartsCover(st: State, m: State, w: Id, it: Item)
    requires NotLost(st, w, it) && (Overdue(m, w, it) ==> Overdue(st, w, it))
    requires m.walkers == st.walkers && m.ctr == st.ctr + 1 && forall t | t in st.walkers :: WalkerOk(st, t)
    ensures NotLost(m, w, it)
  {
    if Overdue(m, w, it) {
      var t :| Covers(st, t, w, it);
      assert WalkerOk(st, t);
      assert Covers(m, t, w, it);
    }
  }

  lemma UnlinkedKeeps(st: State, w: Id)
    requires Inv(st)
    ensures Inv(Unlinked(st, w))
  {
    var m := Unlinked(st, w);
    if m != st {
      WithoutDistinct(st.list, w);
      forall x ensures Listed(m, x) {
        assert Listed(st, x);
        if x != w { WithoutMembers(st.list, w, x); }
      }
      forall s ensures CountOk(m, s) { assert CountOk(st, s) && Counters(m, s) == Counters(st, s); }
      forall x | x in m.waiters ensures WaiterOk(m.waiters[x]) { assert WaiterOk(st.waiters[x]); }
      forall t | t in m.walkers ensures WalkerOk(m, t) { assert WalkerOk(st, t); }
      forall x, it ensures NotLost(m, x, it) { assert NotLost(st, x, it); RestartsCover(st, m, x, it); }
    }
  }

  // ----- events

  /** What an event makes ready it announces, unless it was ready before. */
  lemma NewlyReady(st: State, s: Sock, e: Event, it: Item)
    requires Ready(Changed(st, s, e), it) && !Ready(st, it)
    ensures it.s == s && Announced(st, s, e) && it.k in Flags(Changed(st, s, e), s)
  {
    match it.k
    case Read => assert it == Item(it.s, Read);
    case Write => assert it == Item(it.s, Write);
    case Except => assert it == Item(it.s, Except);
  }

  lemma HappenedKeeps(st: State, t: Id, s: Sock, e: Event)
    requires Inv(st)
    ensures Inv(Happened(st, t, s, e))
  {
    var m := Happened(st, t, s, e);
    if t !in st.walkers {
      forall x ensures Listed(m, x) { assert Listed(st, x); }
      forall x ensures CountOk(m, x) { assert CountOk(st, x) && Counters(m, x) == Counters(st, x); }
      forall x | x in m.walkers ensures WalkerOk(m, x) { HappenedWalker(st, t, s, e, x); }
      forall w, it ensures NotLost(m, w, it) { HappenedCovers(st, t, s, e, w, it); }
    }
  }

  lemma HappenedWalker(st: State, t: Id, s: Sock, e: Event, x: Id)
    requires t !in st.walkers && x in Happened(st, t, s, e).walkers && (x in st.walkers ==> WalkerOk(st, x))
    ensures WalkerOk(Happened(st, t, s, e), x)
  {
    var m := Happened(st, t, s, e);
    if m.walkers[x].started && m.walkers[x].last == m.ctr {
      forall i | 0 <= i < |m.list| ensures PassedOk(m, x, i) { assert PassedOk(st, x, i); }
    }
  }

  lemma HappenedCovers(st: State, t: Id, s: Sock, e: Event, w: Id, it: Item)
    requires Inv(st) && t !in st.walkers
    ensures NotLost(Happened(st, t, s, e), w, it)
  {
    var m := Happened(st, t, s, e);
    if Overdue(m, w, it) {
      assert NotLost(st, w, it) && WaiterOk(st.waiters[w]);
      if Ready(st, it) {
        var x :| Covers(st, x, w, it);
        assert Covers(m, x, w, it);
      } else {
        NewlyReady(st, s, e, it);
        CanUncount(st, w, s);
        assert Covers(m, t, w, it);
      }
    }
  }

  // ----- the walk

  lemma SteppedWalkers(st: State, t: Id, x: Id)
    requires Inv(st) && t in st.walkers && x in Stepped(st, t).walkers
    ensures WalkerOk(Stepped(st, t), x)
  {
    var m := Stepped(st, t);
    assert WalkerOk(st, x) && WalkerOk(st, t);
    if m.walkers[x].started && m.walkers[x].last == m.ctr {
      forall i | 0 <= i < |m.list| ensures PassedOk(m, x, i) { SteppedPassed(st, t, x, i); }
    }
  }

  lemma SteppedPassed(st: State, t: Id, x: Id, i: nat)
    requires t in st.walkers && x in Stepped(st, t).walkers && i < |st.list|
    requires x in st.walkers && WalkerOk(st, x) && Stepped(st, t).walkers[x].started
    requires Stepped(st, t).walkers[x].last == st.ctr
    ensures PassedOk(Stepped(st, t), x, i)
  {
    assert st.walkers[x].started && st.walkers[x].last == st.ctr ==> PassedOk(st, x, i);
  }

  lemma SteppedKeeps(st: State, t: Id)
    requires Inv(st)
    ensures Inv(Stepped(st, t))
  {
    var m := Stepped(st, t);
    if t in st.walkers {
      forall x ensures Listed(m, x) { assert Listed(st, x); }
      forall x | x in m.waiters ensures WaiterOk(m.waiters[x]) { assert WaiterOk(st.waiters[x]); }
      forall s ensures CountOk(m, s) { assert CountOk(st, s) && Counters(m, s) == Counters(st, s); }
      forall x | x in m.walkers ensures WalkerOk(m, x) { SteppedWalkers(st, t, x); }
      forall w, it ensures NotLost(m, w, it) { SteppedCovers(st, t, w, it); }
    }
  }

  /** A walk that covered a waiter still does, or has just signalled it. */
  lemma SteppedCovers(st: State, t: Id, w: Id, it: Item)
    requires Inv(st) && t in st.walkers
    ensures NotLost(Stepped(st, t), w, it)
  {
    var m := Stepped(st, t);
    if Overdue(m, w, it) {
      SteppedOverdue(st, t, w, it);
      assert NotLost(st, w, it) && Listed(st, w);
      var x :| Covers(st, x, w, it);
      if x == t { WalkStillCovers(st, t, w, it); } else { OtherStillCovers(st, t, x, w, it); }
      assert Covers(m, x, w, it);
    }
  }

  lemma SteppedOverdue(st: State, t: Id, w: Id, it: Item)
    requires Overdue(Stepped(st, t), w, it)
    ensures Overdue(st, w, it)
  {
  }

  lemma OtherStillCovers(st: State, t: Id, x: Id, w: Id, it: Item)
    requires Covers(st, x, w, it) && x != t
    ensures Covers(Stepped(st, t), x, w, it)
  {
  }

  lemma WalkStillCovers(st: State, t: Id, w: Id, it: Item)
    requires Covers(st, t, w, it) && w in st.list && w in st.waiters && it in st.waiters[w].watch
    ensures Covers(Stepped(st, t), t, w, it) || (w in Stepped(st, t).waiters && Stepped(st, t).waiters[w].signalled)
  {
    var j := Position(st.list, w);
    assert it == Item(st.walkers[t].s, it.k) && (it.k == Read || it.k == Write || it.k == Except);
    assert Matches(st.walkers[t], st.waiters[w]);
    assert st.list[j] == w;
  }

  // ----- runs

  datatype Step =
    | Link(w: Id, watch: set<Item>)
    | CountAt(w: Id, s: Sock)
    | BeginScan(w: Id)
    | ScanAt(w: Id, s: Sock, lastdata: bool)
    | Sleep(w: Id)
    | Wake(w: Id, timeout: bool)
    | UncountAt(w: Id, s: Sock)
    | Unlink(w: Id)
    | Happen(t: Id, s: Sock, e: Event)
    | Walk(t: Id)

  function Next(st: State, x: Step): State {
    match x
    case Link(w, watch) => Linked(st, w, watch)
    case CountAt(w, s) => CountedAt(st, w, s)
    case BeginScan(w) => ScanBegun(st, w)
    case ScanAt(w, s, lastdata) => ScannedAt(st, w, s, lastdata)
    case Sleep(w) => Asleep(st, w)
    case Wake(w, timeout) => Woken(st, w, timeout)
    case UncountAt(w, s) => UncountedAt(st, w, s)
    case Unlink(w) => Unlinked(st, w)
    case Happen(t, s, e) => Happened(st, t, s, e)
    case Walk(t) => Stepped(st, t)
  }

  lemma NextKeeps(st: State, x: Step)
    requires Inv(st)
    ensures Inv(Next(st, x))
  {
    match x
    case Link(w, watch) => LinkedKeeps(st, w, watch);
    case CountAt(w, s) => CountedKeeps(st, w, s);
    case BeginScan(w) => if ScanBegun(st, w) != st { assert WaiterOk(st.waiters[w]); PhaseKeeps(st, w, Scanning); }
    case ScanAt(w, s, lastdata) => ScannedKeeps(st, w, s, lastdata);
    case Sleep(w) => if Asleep(st, w) != st { assert WaiterOk(st.waiters[w]); PhaseKeeps(st, w, Waiting); }
    case Wake(w, timeout) =>
      if Woken(st, w, timeout) != st {
        assert WaiterOk(st.waiters[w]);
        PhaseKeeps(st, w, Leaving);
      }
    case UncountAt(w, s) => UncountedKeeps(st, w, s);
    case Unlink(w) => UnlinkedKeeps(st, w);
    case Happen(t, s, e) => HappenedKeeps(st, t, s, e);
    case Walk(t) => SteppedKeeps(st, t);
  }

  function Run(st: State, xs: seq<Step>): State
    decreases |xs|
  {
    if xs == [] then st else Run(Next(st, xs[0]), xs[1..])
  }

  const QUIET: State := State(map[], {}, {}, map[], [], 0, map[], map[])

  lemma QuietInv()
    ensures Inv(QUIET)
  {
    forall s ensures CountOk(QUIET, s) { assert Counters(QUIET, s) == {}; }
  }

  lemma {:induction false} RunKeeps(st: State, xs: seq<Step>)
    requires Inv(st)
    ensures Inv(Run(st, xs))
    decreases |xs|
  {
    if xs != [] {
      NextKeeps(st, xs[0]);
      RunKeeps(Next(st, xs[0]), xs[1..]);
    }
  }

  /** No wakeup is lost, in any interleaving: when no event is still being handled, nobody sleeps on
      an unsignalled semaphore while something it watches is ready. */
  lemma NoLostWakeup(xs: seq<Step>, w: Id, it: Item)
    requires Run(QUIET, xs).walkers == map[] && w in Run(QUIET, xs).waiters
    requires Run(QUIET, xs).waiters[w].phase == Waiting
    requires it in Run(QUIET, xs).waiters[w].watch && Ready(Run(QUIET, xs), it)
    ensures Run(QUIET, xs).waiters[w].signalled
  {
    QuietInv();
    RunKeeps(QUIET, xs);
    var st := Run(QUIET, xs);
    assert WaiterOk(st.waiters[w]) && it.s in Socks(st.waiters[w].watch) && NotLost(st, w, it);
    assert forall t :: !Covers(st, t, w, it);
  }

  /** When everybody has left, all counts are back to zero. */
  lemma CountsReturn(xs: seq<Step>, s: Sock)
    requires Run(QUIET, xs).waiters == map[]
    ensures Count(Run(QUIET, xs), s) == 0
  {
    QuietInv();
    RunKeeps(QUIET, xs);
    assert CountOk(Run(QUIET, xs), s) && Counters(Run(QUIET, xs), s) == {};
  }

  // ----- a walk comes to an end

  function Walked(st: State, t: Id, n: nat): State
    decreases n
  {
    if n == 0 then st else Walked(Stepped(st, t), t, n - 1)
  }

  function Left(st: State, t: Id): nat
    requires t in st.walkers
  {
    var k := st.walkers[t];
    if !k.started || k.last != st.ctr then |st.list| else if k.idx <= |st.list| then |st.list| - k.idx else 0
  }

  /** One section of an undisturbed walk. */
  lemma StepFacts(st: State, t: Id, w: Id)
    requires t in st.walkers && w in st.waiters
    ensures var m := Stepped(st, t);
            && m.list == st.list && w in m.waiters && m.waiters[w].watch == st.waiters[w].watch
            && (t in m.walkers <==> Left(st, t) > 0)
            && (t in m.walkers ==> Left(m, t) == Left(st, t) - 1 && m.walkers[t].s == st.walkers[t].s
                                   && m.walkers[t].flags == st.walkers[t].flags)
            && (t !in m.walkers ==> m.waiters == st.waiters)
  {
  }

  lemma AllPassed(st: State, t: Id, i: nat)
    requires Inv(st) && t in st.walkers && i < |st.list| && Left(st, t) == 0
    ensures st.list[i] in st.waiters
    ensures Matches(st.walkers[t], st.waiters[st.list[i]]) ==> st.waiters[st.list[i]].signalled
  {
    assert st.list[i] in st.list && Listed(st, st.list[i]) && WalkerOk(st, t);
    assert PassedOk(st, t, i);
  }

  /** Undisturbed by changes of the list, a walk ends after one section per waiter that is left, and
      has then signalled every waiter that matches. */
  lemma {:induction false} WalkEnds(st: State, t: Id, i: nat)
    requires Inv(st) && t in st.walkers && i < |st.list| && st.list[i] in st.waiters
    ensures var m := Walked(st, t, Left(st, t) + 1);
            && t !in m.walkers && m.list == st.list && st.list[i] in m.waiters
            && (Matches(st.walkers[t], st.waiters[st.list[i]]) ==> m.waiters[st.list[i]].signalled)
    decreases Left(st, t)
  {
    var m := Stepped(st, t);
    StepFacts(st, t, st.list[i]);
    if t in m.walkers {
      SteppedKeeps(st, t);
      WalkEnds(m, t, i);
    } else {
      AllPassed(st, t, i);
      assert Walked(st, t, 1) == Walked(m, t, 0);
    }
  }

  // ----- nobody is woken without a reason

  /** What is ready at a socket right after an event there. */
  function MadeReady(st: State, x: Step): set<Item> {
    if x.Happen? && x.t !in st.walkers then set k | k in Flags(Changed(st, x.s, x.e), x.s) :: Item(x.s, k) else {}
  }

  /** Everything that was ready right after some event of a run. */
  function EverReady(st: State, xs: seq<Step>, seen: set<Item>): set<Item>
    decreases |xs|
  {
    if xs == [] then seen else EverReady(Next(st, xs[0]), xs[1..], seen + MadeReady(st, xs[0]))
  }

  predicate WalkerSaw(k: Walker, seen: set<Item>) { forall f | f in k.flags :: Item(k.s, f) in seen }

  predicate HasReason(w: Waiter, seen: set<Item>) { w.signalled ==> exists it :: it in w.watch && it in seen }

  /** Walks look for what was ready, and who was signalled watches something that was. */
  ghost predicate Earned(st: State, seen: set<Item>) {
    && (forall t {:trigger st.walkers[t]} | t in st.walkers :: WalkerSaw(st.walkers[t], seen))
    && (forall w {:trigger st.waiters[w]} | w in st.waiters :: HasReason(st.waiters[w], seen))
  }

  lemma MatchEarned(k: Walker, w: Waiter, seen: set<Item>)
    requires WalkerSaw(k, seen) && Matches(k, w)
    ensures exists it :: it in w.watch && it in seen
  {
    var f :| f in k.flags && Item(k.s, f) in w.watch;
    assert Item(k.s, f) in seen;
  }

  lemma MoreSeen(w: Waiter, seen: set<Item>, more: set<Item>)
    requires HasReason(w, seen) && seen <= more
    ensures HasReason(w, more)
  {
    if w.signalled {
      var it :| it in w.watch && it in seen;
      assert it in more;
    }
  }

  lemma StepEarned(st: State, x: Step, seen: set<Item>)
    requires Earned(st, seen)
    ensures Earned(Next(st, x), seen + MadeReady(st, x))
  {
    var m, more := Next(st, x), seen + MadeReady(st, x);
    forall t | t in m.walkers ensures WalkerSaw(m.walkers[t], more) {
      StepWalker(st, x, t);
      assert t in st.walkers ==> WalkerSaw(st.walkers[t], seen);
    }
    forall w | w in m.waiters ensures HasReason(m.waiters[w], more) {
      if x.Walk? { WalkEarned(st, x.t, seen, w); MoreSeen(m.waiters[w], seen, more); } else { StepWaiter(st, x, w); }
      if w in st.waiters { MoreSeen(st.waiters[w], seen, more); }
    }
  }

  /** A walk begins with an event, and looks for the same all the time. */
  lemma StepWalker(st: State, x: Step, t: Id)
    requires t in Next(st, x).walkers
    ensures var k := Next(st, x).walkers[t];
            if t in st.walkers then k.s == st.walkers[t].s && k.flags == st.walkers[t].flags
            else x.Happen? && x.s == k.s && forall f | f in k.flags :: Item(k.s, f) in MadeReady(st, x)
  {
    if x.Happen? && t !in st.walkers { StartWalker(st, x, t); }
    if !x.Happen? && !x.Walk? { OwnLeaves(st, x); }
  }

  lemma OwnLeaves(st: State, x: Step)
    requires !x.Happen? && !x.Walk?
    ensures Next(st, x).walkers == st.walkers
  {
  }

  lemma StartWalker(st: State, x: Step, t: Id)
    requires x.Happen? && t in Happened(st, x.t, x.s, x.e).walkers && t !in st.walkers
    ensures var k := Happened(st, x.t, x.s, x.e).walkers[t];
            x.s == k.s && forall f | f in k.flags :: Item(k.s, f) in MadeReady(st, x)
  {
  }

  /** Only walks signal. */
  lemma StepWaiter(st: State, x: Step, w: Id)
    requires !x.Walk? && w in Next(st, x).waiters
    ensures var c := Next(st, x).waiters[w];
            if w in st.waiters then c.watch == st.waiters[w].watch && c.signalled == st.waiters[w].signalled
            else !c.signalled
  {
  }

  lemma WalkEarned(st: State, t: Id, seen: set<Item>, w: Id)
    requires Earned(st, seen) && w in Stepped(st, t).waiters
    ensures w in st.waiters && HasReason(Stepped(st, t).waiters[w], seen)
  {
    if t in st.walkers && w in st.waiters && Matches(st.walkers[t], st.waiters[w]) {
      MatchEarned(st.walkers[t], st.waiters[w], seen);
    }
  }

  lemma {:induction false} RunEarned(st: State, xs: seq<Step>, seen: set<Item>)
    requires Earned(st, seen)
    ensures Earned(Run(st, xs), EverReady(st, xs, seen))
    decreases |xs|
  {
    if xs != [] {
      StepEarned(st, xs[0], seen);
      RunEarned(Next(st, xs[0]), xs[1..], seen + MadeReady(st, xs[0]));
    }
  }

  /** In every interleaving, whoever has been signalled watches something that was ready right after some
      event. */
  lemma NoIdleWakeup(xs: seq<Step>, w: Id)
    requires w in Run(QUIET, xs).waiters && Run(QUIET, xs).waiters[w].signalled
    ensures exists it :: it in Run(QUIET, xs).waiters[w].watch && it in EverReady(QUIET, xs, {})
  {
    RunEarned(QUIET, xs, {});
    assert HasReason(Run(QUIET, xs).waiters[w], EverReady(QUIET, xs, {}));
  }

  /** An event starts a walk only if somebody is counted at the socket and, errors apart, what it is about
      was not ready before. */
  lemma OnlyFirstAnnounced(st: State, t: Id, s: Sock, e: Event)
    requires t !in st.walkers
    requires || Count(st, s) == 0 || e == RcvMinus || e == SendMinus
             || (e == RcvPlus && Ready(st, Item(s, Read))) || (e == SendPlus && Ready(st, Item(s, Write)))
    ensures Happened(st, t, s, e).walkers == st.walkers
  {
  }

  // ----- what readiness is

  /** The step is an event at `s` that does happen. */
  predicate Occurs(st: State, x: Step, s: Sock) { x.Happen? && x.t !in st.walkers && x.s == s }

  /** How a step changes the number of arrivals, and whether sending is possible. */
  function Arrival(st: State, x: Step, s: Sock): int {
    if !Occurs(st, x, s) then 0 else match x.e case RcvPlus => 1 case RcvMinus => -1 case _ => 0
  }

  function Opened(st: State, x: Step, s: Sock, open: bool): bool {
    if !Occurs(st, x, s) then open else match x.e case SendPlus => true case SendMinus => false case _ => open
  }

  /** Arrivals at a socket less what was taken. */
  function Arrivals(st: State, xs: seq<Step>, s: Sock): int
    decreases |xs|
  {
    if xs == [] then 0 else Arrival(st, xs[0], s) + Arrivals(Next(st, xs[0]), xs[1..], s)
  }

  /** Whether sending is possible after the last event that says so, `open` being how it was before. */
  predicate SendOpen(st: State, xs: seq<Step>, s: Sock, open: bool)
    decreases |xs|
  {
    if xs == [] then open else SendOpen(Next(st, xs[0]), xs[1..], s, Opened(st, xs[0], s, open))
  }

  predicate Failed(st: State, xs: seq<Step>, s: Sock)
    decreases |xs|
  {
    xs != [] && ((Occurs(st, xs[0], s) && xs[0].e.Error?) || Failed(Next(st, xs[0]), xs[1..], s))
  }

  lemma StepMeans(st: State, x: Step, s: Sock)
    ensures Rcv(Next(st, x), s) == Rcv(st, s) + Arrival(st, x, s)
    ensures s in Next(st, x).snd <==> Opened(st, x, s, s in st.snd)
    ensures s in Next(st, x).err <==> s in st.err || (Occurs(st, x, s) && x.e.Error?)
  {
    if x.Happen? { EventMeans(st, x.t, x.s, x.e, s); }
  }

  lemma EventMeans(st: State, t: Id, a: Sock, e: Event, s: Sock)
    ensures var m := Happened(st, t, a, e);
            var x := Happen(t, a, e);
            && Rcv(m, s) == Rcv(st, s) + Arrival(st, x, s) && (s in m.snd <==> Opened(st, x, s, s in st.snd))
            && (s in m.err <==> s in st.err || (Occurs(st, x, s) && e.Error?))
  {
  }

  lemma {:induction false} RunMeans(st: State, xs: seq<Step>, s: Sock)
    ensures Rcv(Run(st, xs), s) == Rcv(st, s) + Arrivals(st, xs, s)
    ensures s in Run(st, xs).snd <==> SendOpen(st, xs, s, s in st.snd)
    ensures s in Run(st, xs).err <==> s in st.err || Failed(st, xs, s)
    decreases |xs|
  {
    if xs != [] {
      StepMeans(st, xs[0], s);
      RunMeans(Next(st, xs[0]), xs[1..], s);
    }
  }

  /** In every run a socket is readable exactly if more has arrived than was taken, writable exactly if the
      last event about that said so, and in error exactly if there was an error. */
  lemma ReadyMeans(xs: seq<Step>, s: Sock)
    ensures var st := Run(QUIET, xs);
            && (Ready(st, Item(s, Read)) <==> Arrivals(QUIET, xs, s) > 0)
            && (Ready(st, Item(s, Write)) <==> SendOpen(QUIET, xs, s, false))
            && (Ready(st, Item(s, Except)) <==> Failed(QUIET, xs, s))
  {
    RunMeans(QUIET, xs, s);
  }

  // ----- a thread can go to sleep, and out again

  function Subject(x: Step): Id {
    match x
    case Link(w, _) => w case CountAt(w, _) => w case BeginScan(w) => w case ScanAt(w, _, _) => w case Sleep(w) => w
    case Wake(w, _) => w case UncountAt(w, _) => w case Unlink(w) => w case Happen(t, _, _) => t case Walk(t) => t
  }

  predicate OwnStep(x: Step, w: Id) { !x.Happen? && !x.Walk? && Subject(x) == w }

  ghost predicate Own(xs: seq<Step>, w: Id) { forall i | 0 <= i < |xs| :: OwnStep(xs[i], w) }

  lemma OneFirst(st: State, x: Step, xs: seq<Step>, w: Id)
    requires OwnStep(x, w) && Own(xs, w)
    ensures Run(st, [x] + xs) == Run(Next(st, x), xs) && Own([x] + xs, w)
  {
    assert ([x] + xs)[1..] == xs;
  }

  lemma {:induction false} RunMore(st: State, xs: seq<Step>, ys: seq<Step>)
    ensures Run(st, xs + ys) == Run(Run(st, xs), ys)
    decreases |xs|
  {
    if xs == [] {
      assert xs + ys == ys;
    } else {
      assert (xs + ys)[1..] == xs[1..] + ys;
      RunMore(Next(st, xs[0]), xs[1..], ys);
    }
  }

  /** `m` is as `st`, but for the waiter `w`, which watches the same, and the counts. */
  ghost predicate SameBut(st: State, m: State, w: Id) {
    && w in st.waiters && w in m.waiters && m.waiters[w].watch == st.waiters[w].watch
    && m == st.(waiting := m.waiting, waiters := st.waiters[w := m.waiters[w]])
  }

  lemma {:induction false} CountAll(st: State, w: Id) returns (xs: seq<Step>)
    requires w in st.waiters && st.waiters[w].phase == Counting && st.waiters[w].counted <= Socks(st.waiters[w].watch)
    requires forall s | s in Socks(st.waiters[w].watch) - st.waiters[w].counted :: Count(st, s) < 255
    ensures Own(xs, w) && SameBut(st, Run(st, xs), w)
    ensures Run(st, xs).waiters[w] == st.waiters[w].(counted := Socks(st.waiters[w].watch))
    decreases Socks(st.waiters[w].watch) - st.waiters[w].counted
  {
    var left := Socks(st.waiters[w].watch) - st.waiters[w].counted;
    xs := [];
    if left == {} {
      forall s | s in Socks(st.waiters[w].watch) ensures s in st.waiters[w].counted { assert s !in left; }
    } else {
      var s :| s in left;
      var m := CountedAt(st, w, s);
      forall x | x in Socks(m.waiters[w].watch) - m.waiters[w].counted ensures Count(m, x) < 255 { assert x in left; }
      assert Socks(m.waiters[w].watch) - m.waiters[w].counted == left - {s};
      xs := CountAll(m, w);
      OneFirst(st, CountAt(w, s), xs, w);
      xs := [CountAt(w, s)] + xs;
    }
  }

  lemma {:induction false} ScanAll(st: State, w: Id) returns (xs: seq<Step>)
    requires w in st.waiters && st.waiters[w].phase == Scanning && st.waiters[w].scanned <= Socks(st.waiters[w].watch)
    requires forall it | it in st.waiters[w].watch :: !Ready(st, it)
    ensures Own(xs, w) && SameBut(st, Run(st, xs), w)
    ensures Run(st, xs).waiters[w] == st.waiters[w].(scanned := Socks(st.waiters[w].watch))
    decreases Socks(st.waiters[w].watch) - st.waiters[w].scanned
  {
    var left := Socks(st.waiters[w].watch) - st.waiters[w].scanned;
    xs := [];
    if left == {} {
      forall s | s in Socks(st.waiters[w].watch) ensures s in st.waiters[w].scanned { assert s !in left; }
    } else {
      var s :| s in left;
      var m := ScannedAt(st, w, s, false);
      assert Socks(m.waiters[w].watch) - m.waiters[w].scanned == left - {s};
      forall it | it in m.waiters[w].watch ensures !Ready(m, it) { assert !Ready(st, it); }
      xs := ScanAll(m, w);
      OneFirst(st, ScanAt(w, s, false), xs, w);
      xs := [ScanAt(w, s, false)] + xs;
    }
  }

  /** When nothing it watches is ready, a thread that enters lwip_select can come to sleep by its own
      steps, unless a socket has its 255 waiters. */
  lemma CanSleep(st: State, w: Id, watch: set<Item>) returns (xs: seq<Step>)
    requires w !in st.waiters && forall it | it in watch :: !Ready(st, it)
    requires forall s | s in Socks(watch) :: Count(st, s) < 255
    ensures Own(xs, w) && w in Run(st, xs).waiters
    ensures Run(st, xs).waiters[w] == Waiter(watch, Waiting, Socks(watch), Socks(watch), false)
  {
    var a := Linked(st, w, watch);
    forall s | s in Socks(watch) ensures Count(a, s) < 255 { assert Count(st, s) < 255; }
    var cs := CountAll(a, w);
    var b := ScanBegun(Run(a, cs), w);
    forall it | it in watch ensures !Ready(b, it) { assert !Ready(st, it); }
    var ss := ScanAll(b, w);
    RunMore(b, ss, [Sleep(w)]);
    OneFirst(Run(b, ss), Sleep(w), [], w);
    assert [Sleep(w)] == [Sleep(w)] + [];
    OneFirst(Run(a, cs), BeginScan(w), ss + [Sleep(w)], w);
    RunMore(a, cs, [BeginScan(w)] + (ss + [Sleep(w)]));
    xs := cs + ([BeginScan(w)] + (ss + [Sleep(w)]));
    OneFirst(st, Link(w, watch), xs, w);
    xs := [Link(w, watch)] + xs;
  }

  lemma {:induction false} UncountAll(st: State, w: Id) returns (xs: seq<Step>)
    requires Inv(st) && w in st.waiters && st.waiters[w].phase == Leaving
    ensures Own(xs, w) && SameBut(st, Run(st, xs), w) && Run(st, xs).waiters[w] == st.waiters[w].(counted := {})
    decreases st.waiters[w].counted
  {
    xs := [];
    if st.waiters[w].counted != {} {
      var s :| s in st.waiters[w].counted;
      CanUncount(st, w, s);
      UncountedKeeps(st, w, s);
      var m := UncountedAt(st, w, s);
      assert m.waiters[w].counted == st.waiters[w].counted - {s};
      xs := UncountAll(m, w);
      OneFirst(st, UncountAt(w, s), xs, w);
      xs := [UncountAt(w, s)] + xs;
    }
  }

  /** And whoever has been signalled, or waits no longer, can leave by its own steps, as nobody else's
      count holds it up. */
  lemma CanLeave(st: State, w: Id, timeout: bool) returns (xs: seq<Step>)
    requires Inv(st) && w in st.waiters && (timeout || st.waiters[w].signalled)
    ensures Own(xs, w) && Run(st, xs).waiters == st.waiters - {w} && Run(st, xs).walkers == st.walkers
  {
    var a := Woken(st, w, timeout);
    NextKeeps(st, Wake(w, timeout));
    var us := UncountAll(a, w);
    OneFirst(Run(a, us), Unlink(w), [], w);
    assert [Unlink(w)] == [Unlink(w)] + [];
    RunMore(a, us, [Unlink(w)]);
    xs := us + [Unlink(w)];
    OneFirst(st, Wake(w, timeout), xs, w);
    xs := [Wake(w, timeout)] + xs;
    assert Unlinked(Run(a, us), w).waiters == st.waiters - {w};
  }
}
