/** Connections and listeners of tcp.c as a state machine.

    Every function below is one step of the stack: a call of the application, a timer, or what
    segment input does to a control block (PCB). Whether memory for a FIN is available is an
    input of the steps that queue one. Two things hold after every run: a listener counts
    exactly the PCBs that are pending on it, and a connection queues at most one FIN, at the
    very moment it leaves the states in which it may still send. */
module TcpPcbs {
  import opened Basics
  import opened IdList

  datatype State =
    | CLOSED | SYN_SENT | SYN_RCVD | ESTABLISHED | FIN_WAIT_1 | FIN_WAIT_2
    | CLOSE_WAIT | CLOSING | LAST_ACK | TIME_WAIT

  /** The modelled fields of a tcp_pcb: pend is TF_BACKLOGPEND, closePend TF_CLOSEPEND, rxClosed
      TF_RXCLOSED, unread says that refused data is held or the window is not fully open. The
      last four are history: how many FINs have been queued, whether a FIN was ever wanted and
      not queued for lack of memory, whether ours has been acknowledged, and whether the peer's
      has arrived. */
  datatype Pcb = Pcb(
    state: State, prio: nat, tmr: int, pend: bool, closePend: bool, rxClosed: bool,
    listener: Option<Id>, unread: bool, fins: nat, owed: bool, acked: bool, gotFin: bool)

  datatype Listener = Listener(backlog: int, pending: int)    // both 8 bits

  /** All PCBs, the listeners, the two lists, and the free addresses of the PCB pool. */
  datatype Net = Net(
    pcbs: map<Id, Pcb>, listeners: map<Id, Listener>, active: seq<Id>, timeWait: seq<Id>, free: seq<Id>)

  function Set(n: Net, p: Id, c: Pcb): Net { n.(pcbs := n.pcbs[p := c]) }

  // ----- what holds in every state

  /** A FIN has been queued exactly in the states that follow the local close. */
  predicate FinSent(s: State) {
    s == FIN_WAIT_1 || s == FIN_WAIT_2 || s == CLOSING || s == LAST_ACK || s == TIME_WAIT
  }

  predicate Sends(s: State) { s == SYN_RCVD || s == ESTABLISHED || s == CLOSE_WAIT }

  /** What a synchronised state stands for: whether our FIN has been sent, whether it has been
      acknowledged, and whether the peer's FIN has arrived. */
  datatype Facts = Facts(sent: bool, acked: bool, gotFin: bool)

  function Meaning(state: State): Facts {
    match state
    case CLOSE_WAIT => Facts(false, false, true)
    case FIN_WAIT_1 => Facts(true, false, false)
    case FIN_WAIT_2 => Facts(true, true, false)
    case CLOSING => Facts(true, false, true)
    case LAST_ACK => Facts(true, false, true)
    case TIME_WAIT => Facts(true, true, true)
    case _ => Facts(false, false, false)
  }

  /** The state says what has happened, and a FIN that was not queued is not forgotten. */
  predicate FinOk(c: Pcb) {
    && c.fins == (if FinSent(c.state) then 1 else 0)
    && Meaning(c.state) == Facts(c.fins == 1, c.acked, c.gotFin)
    && (c.owed ==> c.closePend || c.fins == 1)
    && (c.state == CLOSED || c.state == SYN_SENT ==> !c.owed)
  }

  predicate PcbOk(n: Net, p: Id)
    requires p in n.pcbs
  {
    var c := n.pcbs[p];
    && FinOk(c)
    && (p in n.active <==> c.state != CLOSED && c.state != TIME_WAIT)
    && (p in n.timeWait <==> c.state == TIME_WAIT)
    && (c.listener.Some? ==> c.state != CLOSED && c.listener.value in n.listeners && (c.pend ==> p in n.active))
  }

  /** `p` is pending on the listener `l`. */
  predicate Names(n: Net, p: Id, l: Id) {
    p in n.pcbs && n.pcbs[p].pend && n.pcbs[p].listener == Some(l)
  }

  ghost function Pending(n: Net, l: Id): set<Id> { set p | p in n.pcbs && Names(n, p, l) }

  /** accepts_pending is the number of pending PCBs, as far as 8 bits can tell. */
  ghost predicate CountOk(n: Net, l: Id)
    requires l in n.listeners
  {
    n.listeners[l].pending == |Pending(n, l)| % 256
  }

  ghost predicate ListsOk(n: Net) {
    && Distinct(n.active) && Distinct(n.timeWait) && Distinct(n.free)
    && (forall p {:trigger p in n.active} | p in n.active :: p in n.pcbs)
    && (forall p {:trigger p in n.timeWait} | p in n.timeWait :: p in n.pcbs)
    && (forall p {:trigger p in n.free} | p in n.free :: p !in n.pcbs)
  }

  ghost predicate Consistent(n: Net) {
    && ListsOk(n)
    && (forall p {:trigger PcbOk(n, p)} | p in n.pcbs :: PcbOk(n, p))
    && (forall l {:trigger CountOk(n, l)} | l in n.listeners :: CountOk(n, l))
  }

  /** The count as the documentation puts it: active PCBs flagged as pending that name `l`. */
  ghost function ActivePending(n: Net, l: Id): set<Id> {
    set p | p in n.active && Names(n, p, l)
  }

  lemma CountsActive(n: Net, l: Id)
    requires Consistent(n) && l in n.listeners
    ensures n.listeners[l].pending == |ActivePending(n, l)| % 256
    ensures |n.active| < 256 ==> n.listeners[l].pending == |ActivePending(n, l)|
  {
    forall p | p in n.pcbs && Names(n, p, l) ensures p in n.active { assert PcbOk(n, p); }
    assert ActivePending(n, l) == Pending(n, l) && CountOk(n, l);
    AtMostLength(ActivePending(n, l), n.active);
  }

  lemma {:induction false} AtMostLength(s: set<Id>, q: seq<Id>)
    requires forall x | x in s :: x in q
    ensures |s| <= |q|
    decreases |q|
  {
    if q != [] {
      AtMostLength(s - {q[0]}, q[1..]);
    } else {
      assert s == {};
    }
  }

  // ----- steps that concern one PCB

  /** Nothing but the PCB `p`, its place on the lists and the counters differs. */
  ghost predicate SameBut(n: Net, m: Net, p: Id) {
    && m.listeners.Keys == n.listeners.Keys
    && (forall x :: Alike(n, m, p, x))
  }

  predicate Alike(n: Net, m: Net, p: Id, x: Id) {
    x != p ==>
      && (x in m.pcbs <==> x in n.pcbs) && (x in n.pcbs ==> x in m.pcbs && m.pcbs[x] == n.pcbs[x])
      && (x in m.active <==> x in n.active) && (x in m.timeWait <==> x in n.timeWait)
      && (x in m.free <==> x in n.free)
  }

  function Adjusted(k: int, was: bool, now: bool): int {
    if was == now then k else if now then (k + 1) % 256 else (k - 1) % 256
  }

  predicate CountMoved(n: Net, m: Net, p: Id, l: Id)
    requires l in n.listeners && l in m.listeners
  {
    m.listeners[l].pending == Adjusted(n.listeners[l].pending, Names(n, p, l), Names(m, p, l))
  }

  lemma MovedCount(n: Net, m: Net, p: Id, l: Id)
    requires SameBut(n, m, p) && l in n.listeners && l in m.listeners && CountOk(n, l) && CountMoved(n, m, p, l)
    ensures CountOk(m, l)
  {
    var was, now := Pending(n, l), Pending(m, l);
    forall x | x != p ensures x in was <==> x in now { assert Alike(n, m, p, x); }
    if Names(m, p, l) { assert now == was + {p}; } else { assert now == was - {p}; }
    StepCount(|was|, |now|);
  }

  lemma StepCount(a: nat, b: nat)
    ensures b == a + 1 ==> b % 256 == (a % 256 + 1) % 256
    ensures a == b + 1 ==> b % 256 == (a % 256 - 1) % 256
  {
  }

  /** A step that is right at its own PCB keeps everything. */
  lemma StepKeeps(n: Net, m: Net, p: Id)
    requires Consistent(n) && ListsOk(m) && SameBut(n, m, p)
    requires p in m.pcbs ==> PcbOk(m, p)
    requires forall l | l in n.listeners :: l in m.listeners && CountMoved(n, m, p, l)
    ensures Consistent(m)
  {
    forall x | x in m.pcbs ensures PcbOk(m, x) {
      assert Alike(n, m, p, x);
      if x != p { assert PcbOk(n, x); }
    }
    forall l | l in m.listeners ensures CountOk(m, l) {
      assert l in n.listeners.Keys && CountOk(n, l);
      MovedCount(n, m, p, l);
    }
  }

  /** Only the fields of one PCB change, and not whether it is pending. */
  lemma FieldsKeep(n: Net, p: Id, c: Pcb)
    requires Consistent(n) && p in n.pcbs && c.pend == n.pcbs[p].pend && c.listener == n.pcbs[p].listener
    requires FinOk(c) && (c.state == CLOSED <==> n.pcbs[p].state == CLOSED)
    requires c.state == TIME_WAIT <==> n.pcbs[p].state == TIME_WAIT
    ensures Consistent(Set(n, p, c)) && PcbOk(Set(n, p, c), p)
  {
    assert PcbOk(n, p);
    StepKeeps(n, Set(n, p, c), p);
  }

  // ----- backlog

  /** The PCB `p` exists and its listener pointer does not dangle. */
  predicate Alive(n: Net, p: Id) {
    p in n.pcbs && (n.pcbs[p].listener.Some? ==> n.pcbs[p].listener.value in n.listeners)
  }

  /** The counter of `l` moved by `d`, in 8 bits. */
  function Counted(ls: map<Id, Listener>, l: Id, d: int): map<Id, Listener>
    requires l in ls
  {
    ls[l := ls[l].(pending := (ls[l].pending + d) % 256)]
  }

  /** tcp_backlog_delayed. */
  function Delayed(n: Net, p: Id): Net
    requires Alive(n, p)
  {
    var c := n.pcbs[p];
    if c.pend || c.listener.None? then n
    else Set(n.(listeners := Counted(n.listeners, c.listener.value, 1)), p, c.(pend := true))
  }

  /** tcp_backlog_accepted. */
  function Accepted(n: Net, p: Id): Net
    requires Alive(n, p)
  {
    var c := n.pcbs[p];
    if !c.pend || c.listener.None? then n
    else Set(n.(listeners := Counted(n.listeners, c.listener.value, -1)), p, c.(pend := false))
  }

  /** tcp_backlog_delayed leaves the counts right exactly if the PCB is an active one, already
      pending, or without a listener. */
  lemma DelayedKeeps(n: Net, p: Id)
    requires Consistent(n) && p in n.pcbs && PcbOk(n, p)
    ensures Consistent(Delayed(n, p)) <==> p in n.active || n.pcbs[p].pend || n.pcbs[p].listener.None?
  {
    var m := Delayed(n, p);
    if p in n.active {
      StepKeeps(n, m, p);
    } else if m != n {
      assert p in m.pcbs && !PcbOk(m, p);
    }
  }

  /** Called for a PCB in TIME_WAIT it does put the counter out of step with the active PCBs. */
  lemma DelayedInTimeWait(n: Net, p: Id, l: Id)
    requires Consistent(n) && p in n.timeWait && n.pcbs[p].listener == Some(l) && !n.pcbs[p].pend
    requires p in n.pcbs && PcbOk(n, p)
    ensures Delayed(n, p).listeners[l].pending != |ActivePending(Delayed(n, p), l)| % 256
  {
    var m := Delayed(n, p);
    CountsActive(n, l);
    assert p !in n.active;
    forall x ensures x in ActivePending(m, l) <==> x in ActivePending(n, l) {
      assert x in n.active ==> x != p;
    }
    assert ActivePending(m, l) == ActivePending(n, l);
  }

  lemma AcceptedKeeps(n: Net, p: Id)
    requires Consistent(n) && p in n.pcbs && PcbOk(n, p)
    ensures Consistent(Accepted(n, p)) && PcbOk(Accepted(n, p), p)
    ensures !(Accepted(n, p).pcbs[p].pend && Accepted(n, p).pcbs[p].listener.Some?)
  {
    StepKeeps(n, Accepted(n, p), p);
  }

  /** After a delay, accepting restores the state. */
  lemma AcceptUndoesDelay(n: Net, p: Id)
    requires Alive(n, p) && !n.pcbs[p].pend
    requires n.pcbs[p].listener.Some? ==> 0 <= n.listeners[n.pcbs[p].listener.value].pending < 256
    ensures Accepted(Delayed(n, p), p) == n
  {
    var m := Accepted(Delayed(n, p), p);
    if n.pcbs[p].listener.Some? {
      var l := n.pcbs[p].listener.value;
      CountedBack(n.listeners, l);
      assert m.pcbs[p] == n.pcbs[p];
      assert m.pcbs == n.pcbs;
    }
  }

  lemma CountedBack(ls: map<Id, Listener>, l: Id)
    requires l in ls && 0 <= ls[l].pending < 256
    ensures Counted(Counted(ls, l, 1), l, -1) == ls
  {
    assert ((ls[l].pending + 1) % 256 - 1) % 256 == ls[l].pending;
    assert Counted(Counted(ls, l, 1), l, -1)[l] == ls[l];
  }

  // ----- leaving the lists

  /** tcp_pcb_purge, as far as it concerns the modelled fields. */
  function Purged(n: Net, p: Id): Net
    requires Alive(n, p)
  {
    if n.pcbs[p].state == CLOSED || n.pcbs[p].state == TIME_WAIT then n else Accepted(n, p)
  }

  /** tcp_pcb_remove for the active list. */
  function Removed(n: Net, p: Id): Net
    requires Alive(n, p)
  {
    var m := Purged(n.(active := Without(n.active, p)), p);
    Set(m, p, m.pcbs[p].(state := CLOSED))
  }

  /** tcp_free. */
  function Freed(n: Net, p: Id): Net { n.(pcbs := n.pcbs - {p}, free := [p] + n.free) }

  /** tcp_abandon. */
  function Abandoned(n: Net, p: Id): Net
    requires Alive(n, p)
  {
    if n.pcbs[p].state == TIME_WAIT then Freed(n.(timeWait := Without(n.timeWait, p)), p)
    else if n.pcbs[p].state == CLOSED then Freed(Accepted(n, p), p)
    else Freed(Accepted(Removed(n, p), p), p)
  }

  /** As if the PCB had never been: gone from the pool's users and both lists, and no longer
      counted by its listener. */
  function Gone(n: Net, p: Id): Net
    requires Alive(n, p)
  {
    var c := n.pcbs[p];
    var ls := if c.pend && c.listener.Some? then Counted(n.listeners, c.listener.value, -1) else n.listeners;
    Net(n.pcbs - {p}, ls, Without(n.active, p), Without(n.timeWait, p), [p] + n.free)
  }

  lemma WithoutAbsent(s: seq<Id>, p: Id)
    requires p !in s
    ensures Without(s, p) == s
  {
  }

  lemma GoneKeeps(n: Net, p: Id)
    requires Consistent(n) && p in n.pcbs && PcbOk(n, p)
    ensures Consistent(Gone(n, p))
  {
    var m := Gone(n, p);
    WithoutDistinct(n.active, p);
    WithoutDistinct(n.timeWait, p);
    PushDistinct(n.free, p);
    forall x ensures Alike(n, m, p, x) {
      if x != p { WithoutMembers(n.active, p, x); WithoutMembers(n.timeWait, p, x); }
    }
    forall x | x in m.active ensures x in m.pcbs { assert Alike(n, m, p, x); }
    forall x | x in m.timeWait ensures x in m.pcbs { assert Alike(n, m, p, x); }
    StepKeeps(n, m, p);
  }

  /** However a PCB is abandoned, from whatever state, the outcome is that of `Gone`. */
  lemma AbandonedIsGone(n: Net, p: Id)
    requires p in n.pcbs && PcbOk(n, p)
    ensures Abandoned(n, p) == Gone(n, p)
  {
    if p !in n.active { WithoutAbsent(n.active, p); }
    if p !in n.timeWait { WithoutAbsent(n.timeWait, p); }
    assert Abandoned(n, p).pcbs == n.pcbs - {p};
  }

  /** The removal in tcp_slowtmr: purge, unlink, free. */
  function TimedOut(n: Net, p: Id): Net
    requires Alive(n, p)
  {
    var m := Purged(n, p);
    Freed(m.(active := Without(m.active, p)), p)
  }

  lemma TimedOutIsGone(n: Net, p: Id)
    requires p in n.active && p in n.pcbs && PcbOk(n, p)
    ensures TimedOut(n, p) == Gone(n, p)
  {
    WithoutAbsent(n.timeWait, p);
    assert TimedOut(n, p).pcbs == n.pcbs - {p};
  }

  /** The way into TIME_WAIT in segment input: purge, unlink, put on the other list. */
  function ToTimeWait(n: Net, p: Id, s: Segment): Net
    requires Alive(n, p)
  {
    var m := Purged(n, p);
    Moved(m, p, s)
  }

  function Moved(n: Net, p: Id, s: Segment): Net
    requires p in n.pcbs
  {
    Set(n.(active := Without(n.active, p), timeWait := [p] + n.timeWait), p, Heard(n.pcbs[p], s).(state := TIME_WAIT))
  }

  lemma ToTimeWaitKeeps(n: Net, p: Id, s: Segment)
    requires Consistent(n) && p in n.active && p in n.pcbs && PcbOk(n, p) && EffectOf(n.pcbs[p].state, s) == Wait
    ensures Consistent(ToTimeWait(n, p, s))
  {
    AcceptedKeeps(n, p);
    MovedKeeps(Accepted(n, p), p, s);
  }

  lemma MovedKeeps(n: Net, p: Id, s: Segment)
    requires Consistent(n) && p in n.active && p in n.pcbs && PcbOk(n, p) && EffectOf(n.pcbs[p].state, s) == Wait
    requires !(n.pcbs[p].pend && n.pcbs[p].listener.Some?)
    ensures Consistent(Moved(n, p, s))
  {
    StatesMean(n.pcbs[p], s);
    var m := Moved(n, p, s);
    WithoutDistinct(n.active, p);
    PushDistinct(n.timeWait, p);
    forall x ensures Alike(n, m, p, x) {
      if x != p { WithoutMembers(n.active, p, x); }
    }
    forall x | x in m.active ensures x in m.pcbs { assert Alike(n, m, p, x); }
    forall x | x in m.timeWait ensures x in m.pcbs { assert Alike(n, m, p, x); }
    StepKeeps(n, m, p);
  }

  // ----- coming into being

  function NewPcb(prio: nat, tmr: int): Pcb {
    Pcb(CLOSED, prio, tmr, false, false, false, None, false, 0, false, false, false)
  }

  /** A PCB taken from the pool. */
  function Allocated(n: Net, prio: nat, tmr: int): Net
    requires n.free != []
  {
    Set(n.(free := n.free[1..]), n.free[0], NewPcb(prio, tmr))
  }

  lemma AllocatedKeeps(n: Net, prio: nat, tmr: int)
    requires Consistent(n) && n.free != []
    ensures Consistent(Allocated(n, prio, tmr))
  {
    var p, m := n.free[0], Allocated(n, prio, tmr);
    assert p in n.free && p !in n.pcbs && p !in n.active && p !in n.timeWait;
    assert [p] + m.free == n.free;
    forall i, j | 0 <= i < j < |m.free| ensures Apart(m.free, i, j) { assert Apart(n.free, i + 1, j + 1); }
    forall i | 0 <= i < |m.free| ensures m.free[i] != p { assert Apart(n.free, 0, i + 1); }
    forall x | x in m.free ensures x !in m.pcbs { assert x in n.free; }
    StepKeeps(n, m, p);
  }

  /** tcp_listen_input for a SYN that finds the backlog open and memory for a PCB. */
  function SynReceived(n: Net, l: Id, tmr: int, prio: nat): Net
    requires l in n.listeners && n.free != []
  {
    var p, m := n.free[0], Allocated(n, prio, tmr);
    if n.listeners[l].pending >= n.listeners[l].backlog then n
    else
      Admitted(m, l, p)
  }

  /** The new PCB becomes a pending connection of the listener. */
  function Admitted(n: Net, l: Id, p: Id): Net
    requires l in n.listeners && p in n.pcbs
  {
    Set(n.(listeners := Counted(n.listeners, l, 1), active := [p] + n.active), p,
        n.pcbs[p].(state := SYN_RCVD, pend := true, listener := Some(l)))
  }

  lemma AdmittedKeeps(n: Net, l: Id, p: Id)
    requires Consistent(n) && l in n.listeners && p in n.pcbs && PcbOk(n, p)
    requires n.pcbs[p].state == CLOSED && !n.pcbs[p].pend
    ensures Consistent(Admitted(n, l, p))
  {
    PushDistinct(n.active, p);
    var m := Admitted(n, l, p);
    forall x ensures Alike(n, m, p, x) { }
    StepKeeps(n, m, p);
  }

  lemma SynReceivedKeeps(n: Net, l: Id, tmr: int, prio: nat)
    requires Consistent(n) && l in n.listeners && n.free != []
    ensures Consistent(SynReceived(n, l, tmr, prio))
  {
    AllocatedKeeps(n, prio, tmr);
    var p, k := n.free[0], Allocated(n, prio, tmr);
    assert PcbOk(k, p);
    AdmittedKeeps(k, l, p);
  }

  /** An admitted connection is in SYN_RCVD, active, and pending on its listener. */
  lemma SynPending(n: Net, l: Id, tmr: int, prio: nat)
    requires Consistent(n) && l in n.listeners && n.free != [] && n.listeners[l].pending < n.listeners[l].backlog
    ensures var m, p := SynReceived(n, l, tmr, prio), n.free[0];
            && p in m.pcbs && m.pcbs[p].state == SYN_RCVD && m.pcbs[p].prio == prio && m.pcbs[p].tmr == tmr
            && p !in ActivePending(n, l) && m.listeners[l].pending == (n.listeners[l].pending + 1) % 256
            && ActivePending(m, l) == ActivePending(n, l) + {p}
  {
    var m, p := SynReceived(n, l, tmr, prio), n.free[0];
    assert p in n.free && p !in n.pcbs && p !in n.active;
    forall x ensures x in ActivePending(m, l) <==> x in ActivePending(n, l) + {p} {
      assert x != p ==> (x in m.active <==> x in n.active);
    }
  }

  /** A listener never admits more SYNs than its backlog allows. */
  lemma BacklogLimits(n: Net, l: Id, tmr: int, prio: nat)
    requires Consistent(n) && l in n.listeners && n.free != [] && |n.active| < 256
    ensures SynReceived(n, l, tmr, prio) != n <==> |ActivePending(n, l)| < n.listeners[l].backlog
  {
    CountsActive(n, l);
    assert n.free[0] in n.free && n.free[0] !in n.pcbs;
    assert SynReceived(n, l, tmr, prio) != n ==> n.free[0] in SynReceived(n, l, tmr, prio).pcbs;
    assert |ActivePending(n, l)| < n.listeners[l].backlog ==> n.free[0] in SynReceived(n, l, tmr, prio).pcbs;
  }

  /** tcp_connect: onto the active list. */
  function Connecting(n: Net, p: Id): Net
    requires p in n.pcbs
  {
    if n.pcbs[p].state != CLOSED then n
    else Set(n.(active := [p] + n.active), p, n.pcbs[p].(state := SYN_SENT))
  }

  lemma ConnectingKeeps(n: Net, p: Id)
    requires Consistent(n) && p in n.pcbs && PcbOk(n, p)
    ensures Consistent(Connecting(n, p))
  {
    var m := Connecting(n, p);
    if m != n {
      PushDistinct(n.active, p);
      forall x ensures Alike(n, m, p, x) { }
      StepKeeps(n, m, p);
    }
  }

  // ----- closing a listener

  /** What tcp_remove_listener does to one PCB. */
  function Orphan(c: Pcb, l: Id): Pcb { if c.listener == Some(l) then c.(listener := None) else c }

  /** tcp_close of a listener: no PCB names it any more, then it is freed. */
  function ListenerClosed(n: Net, l: Id): Net {
    n.(pcbs := map p | p in n.pcbs :: Orphan(n.pcbs[p], l), listeners := n.listeners - {l})
  }

  lemma ListenerClosedKeeps(n: Net, l: Id)
    requires Consistent(n)
    ensures Consistent(ListenerClosed(n, l))
  {
    var m := ListenerClosed(n, l);
    forall p | p in m.pcbs ensures PcbOk(m, p) { assert PcbOk(n, p); }
    forall k | k in m.listeners ensures CountOk(m, k) {
      assert k != l && CountOk(n, k);
      assert Pending(m, k) == Pending(n, k);
    }
  }

  // ----- closing a connection

  /** The FIN is queued and the state left. */
  function WithFin(c: Pcb): Pcb {
    c.(fins := c.fins + 1, state := if c.state == CLOSE_WAIT then LAST_ACK else FIN_WAIT_1)
  }

  /** tcp_send_fin and what tcp_close_shutdown_fin does with its answer. */
  function FinTried(n: Net, p: Id, room: bool): Net
    requires Alive(n, p)
  {
    var s := n.pcbs[p].state;
    if !Sends(s) then n
    else if !room then Set(n, p, n.pcbs[p].(closePend := true, owed := true))
    else
      var m := Greeting(n, p);
      Set(m, p, WithFin(m.pcbs[p]))
  }

  /** A connection that is closed during the handshake is no longer pending. */
  function Greeting(n: Net, p: Id): (m: Net)
    requires Alive(n, p)
    ensures p in m.pcbs
  {
    if n.pcbs[p].state == SYN_RCVD then Accepted(n, p) else n
  }

  /** tcp_close_shutdown for a connection, `rst` being rst_on_unacked_data. */
  function CloseTried(n: Net, p: Id, rst: bool, room: bool): Net
    requires Alive(n, p)
  {
    var c := n.pcbs[p];
    if rst && (c.state == ESTABLISHED || c.state == CLOSE_WAIT) && c.unread then TimedOut(n, p)
    else if c.state == CLOSED then Freed(n, p)
    else if c.state == SYN_SENT then Freed(Removed(n, p), p)
    else FinTried(n, p, room)
  }

  lemma CloseFrees(n: Net, p: Id, room: bool)
    requires Alive(n, p)
    ensures p !in Closed(n, p, room).pcbs <==> NeverOpened(n.pcbs[p]) || LeavesUnread(n.pcbs[p])
  {
    FinKeepsPcb(RxShut(n, p), p, room);
  }

  lemma FinKeepsPcb(n: Net, p: Id, room: bool)
    requires Alive(n, p)
    ensures p in FinTried(n, p, room).pcbs
  {
  }

  lemma HalfCloseKeeps(n: Net, p: Id, unread: bool, room: bool)
    requires Alive(n, p)
    ensures p in ShutDown(n, p, false, true, unread, room).pcbs
  {
    FinKeepsPcb(n, p, room);
  }

  function RxShut(n: Net, p: Id): Net
    requires p in n.pcbs
  {
    Set(n, p, n.pcbs[p].(rxClosed := true))
  }

  datatype Err = ERR_OK | ERR_CONN

  /** tcp_close. */
  function Closed(n: Net, p: Id, room: bool): Net
    requires Alive(n, p)
  {
    CloseTried(RxShut(n, p), p, true, room)
  }

  /** tcp_shutdown; refused data that is dropped no longer keeps the connection unread, which
      the input `unread` says. */
  function ShutDown(n: Net, p: Id, rx: bool, tx: bool, unread: bool, room: bool): Net
    requires Alive(n, p)
  {
    if rx && tx then Closed(n, p, room)
    else if rx then Set(n, p, n.pcbs[p].(rxClosed := true, unread := unread))
    else if tx && Sends(n.pcbs[p].state) then CloseTried(n, p, false, room)
    else n
  }

  /** The retry in tcp_fasttmr and tcp_handle_closepend. */
  function Retried(n: Net, p: Id, room: bool): Net
    requires Alive(n, p)
  {
    if n.pcbs[p].closePend then FinTried(Set(n, p, n.pcbs[p].(closePend := false)), p, room) else n
  }

  lemma FinTriedKeeps(n: Net, p: Id, room: bool)
    requires Consistent(n) && p in n.pcbs && PcbOk(n, p)
    ensures Consistent(FinTried(n, p, room))
  {
    if Sends(n.pcbs[p].state) {
      if !room {
        FieldsKeep(n, p, n.pcbs[p].(closePend := true, owed := true));
      } else {
        QueuedKeeps(n, p, WithFin(Greeting(n, p).pcbs[p]));
      }
    }
  }

  /** Accepting changes no field of the PCB but the flag. */
  lemma AcceptedFields(n: Net, p: Id)
    requires Alive(n, p)
    ensures var c, d := n.pcbs[p], Accepted(n, p).pcbs[p];
            && d == c.(pend := d.pend) && WithFin(d).(closePend := c.closePend) == WithFin(d)
  {
  }

  lemma SetTwice(n: Net, p: Id, a: Pcb, b: Pcb)
    ensures Set(Set(n, p, a), p, b) == Set(n, p, b)
  {
    assert n.pcbs[p := a][p := b] == n.pcbs[p := b];
  }

  lemma AcceptedCleared(n: Net, p: Id)
    requires Alive(n, p)
    ensures var m := Accepted(n, p);
            Accepted(Set(n, p, n.pcbs[p].(closePend := false)), p) == Set(m, p, m.pcbs[p].(closePend := false))
  {
    var c, d := n.pcbs[p], n.pcbs[p].(closePend := false);
    if c.pend && c.listener.Some? {
      var k := n.(listeners := Counted(n.listeners, c.listener.value, -1));
      SetTwice(k, p, c.(pend := false), d.(pend := false));
      SetTwice(k, p, d, d.(pend := false));
    }
  }

  /** `c` is the PCB with its FIN queued, the retry flag aside. */
  lemma QueuedKeeps(n: Net, p: Id, c: Pcb)
    requires Consistent(n) && p in n.pcbs && PcbOk(n, p) && Sends(n.pcbs[p].state)
    requires c == WithFin(Greeting(n, p).pcbs[p]).(closePend := c.closePend)
    ensures Consistent(Set(Greeting(n, p), p, c))
  {
    AcceptedKeeps(n, p);
    FieldsKeep(Greeting(n, p), p, c);
  }

  /** The retry clears the flag before it tries, and the try sets it again if it fails. */
  lemma RetriedKeeps(n: Net, p: Id, room: bool)
    requires Consistent(n) && p in n.pcbs && PcbOk(n, p)
    ensures Consistent(Retried(n, p, room))
  {
    var c := n.pcbs[p];
    if c.closePend {
      if !Sends(c.state) {
        RetriedIdle(n, p, room);
      } else if !room {
        FieldsKeep(n, p, c.(owed := true));
        assert Retried(n, p, room) == Set(n, p, c.(owed := true)) by {
          assert Retried(n, p, room).pcbs == n.pcbs[p := c.(owed := true)];
        }
      } else {
        QueuedKeeps(n, p, WithFin(Greeting(n, p).pcbs[p]).(closePend := false));
        RetriedQueues(n, p);
      }
    }
  }

  lemma RetriedIdle(n: Net, p: Id, room: bool)
    requires Consistent(n) && p in n.pcbs && PcbOk(n, p) && n.pcbs[p].closePend && !Sends(n.pcbs[p].state)
    ensures Consistent(Retried(n, p, room))
  {
    FieldsKeep(n, p, n.pcbs[p].(closePend := false));
  }

  lemma RetriedQueues(n: Net, p: Id)
    requires Alive(n, p) && n.pcbs[p].closePend && Sends(n.pcbs[p].state)
    ensures var m := Greeting(n, p); Retried(n, p, true) == Set(m, p, WithFin(m.pcbs[p]).(closePend := false))
  {
    GreetingCleared(n, p);
    var m := Greeting(n, p);
    SetTwice(m, p, m.pcbs[p].(closePend := false), WithFin(m.pcbs[p].(closePend := false)));
  }

  lemma GreetingCleared(n: Net, p: Id)
    requires Alive(n, p)
    ensures var m, k := Greeting(n, p), Set(n, p, n.pcbs[p].(closePend := false));
            Alive(k, p) && Greeting(k, p) == Set(m, p, m.pcbs[p].(closePend := false))
  {
    AcceptedCleared(n, p);
  }

  lemma ClosedKeeps(n: Net, p: Id, rst: bool, room: bool)
    requires Consistent(n) && p in n.pcbs && PcbOk(n, p)
    ensures Consistent(CloseTried(n, p, rst, room))
  {
    var c := n.pcbs[p];
    if rst && (c.state == ESTABLISHED || c.state == CLOSE_WAIT) && c.unread {
      TimedOutKeeps(n, p);
    } else if c.state == CLOSED || c.state == SYN_SENT {
      FreedIsGone(n, p);
      GoneKeeps(n, p);
    } else {
      FinTriedKeeps(n, p, room);
    }
  }

  lemma FreedIsGone(n: Net, p: Id)
    requires p in n.pcbs && PcbOk(n, p)
    ensures n.pcbs[p].state == CLOSED ==> Freed(n, p) == Gone(n, p)
    ensures n.pcbs[p].state == SYN_SENT ==> Freed(Removed(n, p), p) == Gone(n, p)
  {
    if n.pcbs[p].state == CLOSED { WithoutAbsent(n.active, p); }
    if n.pcbs[p].state == CLOSED || n.pcbs[p].state == SYN_SENT { WithoutAbsent(n.timeWait, p); }
    assert n.pcbs[p].state == SYN_SENT ==> Freed(Removed(n, p), p).pcbs == n.pcbs - {p};
  }

  // ----- segment input

  datatype Segment = SynAck | Ack | Fin | FinAck | Rst

  datatype Effect =
    | Stay
    | Goto(t: State)
    | Establish(t: State)     // the handshake is complete: accept, unless the listener has gone
    | Wait                    // purge and move to the TIME_WAIT list
    | Drop                    // off the list and freed

  /** What an acceptable segment does in a state; `Ack` acknowledges all that was sent, `Fin` and
      `FinAck` carry a FIN without and with such an acknowledgement. */
  function EffectOf(state: State, s: Segment): Effect {
    if state == CLOSED || state == TIME_WAIT then Stay
    else match s
      case Rst => Drop
      case SynAck => if state == SYN_SENT then Goto(ESTABLISHED) else Stay
      case Ack =>
        (match state
         case SYN_RCVD => Establish(ESTABLISHED)
         case FIN_WAIT_1 => Goto(FIN_WAIT_2)
         case CLOSING => Wait
         case LAST_ACK => Drop
         case _ => Stay)
      case Fin =>
        (match state
         case ESTABLISHED => Goto(CLOSE_WAIT)
         case FIN_WAIT_1 => Goto(CLOSING)
         case FIN_WAIT_2 => Wait
         case _ => Stay)
      case FinAck =>
        (match state
         case SYN_RCVD => Establish(CLOSE_WAIT)
         case ESTABLISHED => Goto(CLOSE_WAIT)
         case FIN_WAIT_1 => Wait
         case FIN_WAIT_2 => Wait
         case CLOSING => Wait
         case LAST_ACK => Drop
         case _ => Stay)
  }

  /** What a segment adds to the history, whatever the state machine makes of it. Before the
      connection is synchronised nothing is learned, and in SYN_RCVD a FIN counts with the ACK. */
  function Heard(c: Pcb, s: Segment): Pcb {
    if c.state == CLOSED || c.state == SYN_SENT || (c.state == SYN_RCVD && s.Fin?) then c
    else
      c.(acked := c.acked || (c.fins == 1 && (s.Ack? || s.FinAck?)), gotFin := c.gotFin || s.Fin? || s.FinAck?)
  }

  /** The state after a segment stands for what is known after it, as in section 3.3.2 of RFC 9293. A
      connection that closed second is dropped at the acknowledgement, any other waits. */
  lemma StatesMean(c: Pcb, s: Segment)
    requires FinOk(c)
    ensures var e, h := EffectOf(c.state, s), Heard(c, s);
            match e
            case Stay => h == c
            case Goto(t) => FinOk(h.(state := t))
            case Establish(t) => c.state == SYN_RCVD && FinOk(h.(state := t))
            case Wait => FinOk(h.(state := TIME_WAIT)) && c.state != LAST_ACK
            case Drop => s.Rst? || (FinOk(h.(state := TIME_WAIT)) && c.state == LAST_ACK)
  {
  }

  function Input(n: Net, p: Id, s: Segment): Net
    requires Alive(n, p)
  {
    match EffectOf(n.pcbs[p].state, s)
    case Stay => Set(n, p, Heard(n.pcbs[p], s))
    case Goto(t) => Set(n, p, Heard(n.pcbs[p], s).(state := t))
    case Establish(t) =>
      if n.pcbs[p].listener.None? then Abandoned(n, p)
      else var m := Accepted(n, p); Set(m, p, Heard(m.pcbs[p], s).(state := t))
    case Wait => ToTimeWait(n, p, s)
    case Drop => Freed(Removed(n, p), p)
  }

  /** Segments move a connection among the states before the local close, or among those after it. */
  lemma EffectKeepsSide(state: State, s: Segment)
    ensures var e := EffectOf(state, s);
            && (e.Goto? ==> (FinSent(e.t) <==> FinSent(state)) && e.t != CLOSED && e.t != TIME_WAIT && e.t != SYN_SENT)
            && (e.Establish? ==> state == SYN_RCVD && Sends(e.t))
            && (e.Wait? ==> FinSent(state))
            && (!e.Stay? ==> state != CLOSED && state != TIME_WAIT)
  {
  }

  lemma RemovedIsGone(n: Net, p: Id)
    requires p in n.active && p in n.pcbs && PcbOk(n, p)
    ensures Freed(Removed(n, p), p) == Gone(n, p)
  {
    WithoutAbsent(n.timeWait, p);
    assert Freed(Removed(n, p), p).pcbs == n.pcbs - {p};
  }

  lemma EstablishedKeeps(n: Net, p: Id, s: Segment, t: State)
    requires Consistent(n) && p in n.pcbs && PcbOk(n, p) && EffectOf(n.pcbs[p].state, s) == Establish(t)
    ensures var m := Accepted(n, p); Consistent(Set(m, p, Heard(m.pcbs[p], s).(state := t)))
  {
    AcceptedKeeps(n, p);
    AcceptedFields(n, p);
    JoinedKeeps(Accepted(n, p), p, s, t);
  }

  lemma JoinedKeeps(n: Net, p: Id, s: Segment, t: State)
    requires Consistent(n) && p in n.pcbs && PcbOk(n, p) && EffectOf(n.pcbs[p].state, s) == Establish(t)
    ensures Consistent(Set(n, p, Heard(n.pcbs[p], s).(state := t)))
  {
    StatesMean(n.pcbs[p], s);
    FieldsKeep(n, p, Heard(n.pcbs[p], s).(state := t));
  }

  lemma InputKeeps(n: Net, p: Id, s: Segment)
    requires Consistent(n) && p in n.pcbs && PcbOk(n, p)
    ensures Consistent(Input(n, p, s))
  {
    EffectKeepsSide(n.pcbs[p].state, s);
    StatesMean(n.pcbs[p], s);
    match EffectOf(n.pcbs[p].state, s)
    case Stay => assert Set(n, p, n.pcbs[p]) == n;
    case Goto(t) => FieldsKeep(n, p, Heard(n.pcbs[p], s).(state := t));
    case Establish(t) =>
      AbandonedKeeps(n, p);
      EstablishedKeeps(n, p, s, t);
    case Wait => ToTimeWaitKeeps(n, p, s);
    case Drop =>
      RemovedIsGone(n, p);
      GoneKeeps(n, p);
  }

  lemma AbandonedKeeps(n: Net, p: Id)
    requires Consistent(n) && p in n.pcbs && PcbOk(n, p)
    ensures Consistent(Abandoned(n, p))
  {
    AbandonedIsGone(n, p);
    GoneKeeps(n, p);
  }

  lemma TimedOutKeeps(n: Net, p: Id)
    requires Consistent(n) && p in n.active && p in n.pcbs && PcbOk(n, p)
    ensures Consistent(TimedOut(n, p))
  {
    TimedOutIsGone(n, p);
    GoneKeeps(n, p);
  }

  // ----- runs

  datatype Event =
    | Listen(l: Id, backlog: int)
    | CloseListener(l: Id)
    | Syn(l: Id, prio: nat, tmr: int)
    | New(prio: nat, tmr: int)
    | Connect(p: Id)
    | Segment(p: Id, s: Segment)
    | Delay(p: Id)
    | Accept(p: Id)
    | Close(p: Id, room: bool)
    | Shutdown(p: Id, rx: bool, tx: bool, unread: bool, room: bool)
    | Retry(p: Id, room: bool)
    | Abort(p: Id)
    | TimeOut(p: Id)
    | Data(p: Id, unread: bool)
    | Touch(p: Id, tmr: int)
    | Prioritize(p: Id, prio: nat)

  function PcbOf(e: Event): Option<Id> {
    match e
    case Listen(_, _) => None case CloseListener(_) => None case Syn(_, _, _) => None case New(_, _) => None
    case Connect(p) => Some(p) case Segment(p, _) => Some(p) case Delay(p) => Some(p) case Accept(p) => Some(p)
    case Close(p, _) => Some(p) case Shutdown(p, _, _, _, _) => Some(p) case Retry(p, _) => Some(p)
    case Abort(p) => Some(p) case TimeOut(p) => Some(p) case Data(p, _) => Some(p)
    case Touch(p, _) => Some(p) case Prioritize(p, _) => Some(p)
  }

  /** An arriving segment counts as activity, unless the receiving side of the connection was closed. */
  function Touched(n: Net, p: Id, tmr: int): Pcb
    requires p in n.pcbs
  {
    n.pcbs[p].(tmr := if p in n.active && n.pcbs[p].rxClosed then n.pcbs[p].tmr else tmr)
  }

  /** One step. Events that name no existing PCB or listener do nothing; a delay is only asked
      for by the owner of an active connection. */
  ghost function Next(n: Net, e: Event): Net
    requires Consistent(n)
  {
    if PcbOf(e).Some? then
      var p := PcbOf(e).value;
      if p in n.pcbs && PcbOk(n, p) then OfPcb(n, p, e) else n
    else match e
      case Listen(l, b) =>
        if l in n.listeners then n
        else n.(listeners := n.listeners[l := Listener(if b == 0 then 1 else b, 0)])
      case CloseListener(l) => ListenerClosed(n, l)
      case Syn(l, prio, tmr) => if l in n.listeners && n.free != [] then SynReceived(n, l, tmr, prio) else n
      case New(prio, tmr) => if n.free != [] then Allocated(n, prio, tmr) else n
  }

  ghost function OfPcb(n: Net, p: Id, e: Event): Net
    requires p in n.pcbs && PcbOk(n, p) && PcbOf(e) == Some(p)
  {
    match e
    case Connect(_) => Connecting(n, p)
    case Segment(_, s) => Input(n, p, s)
    case Delay(_) => if p in n.active then Delayed(n, p) else n
    case Accept(_) => Accepted(n, p)
    case Close(_, room) => Closed(n, p, room)
    case Shutdown(_, rx, tx, unread, room) => ShutDown(n, p, rx, tx, unread, room)
    case Retry(_, room) => Retried(n, p, room)
    case Abort(_) => Abandoned(n, p)
    case TimeOut(_) => if p in n.active then TimedOut(n, p) else if p in n.timeWait then Abandoned(n, p) else n
    case Data(_, unread) => Set(n, p, n.pcbs[p].(unread := unread))
    case Touch(_, tmr) => Set(n, p, Touched(n, p, tmr))
    case Prioritize(_, prio) => Set(n, p, n.pcbs[p].(prio := prio))
  }

  lemma OfPcbKeeps(n: Net, p: Id, e: Event)
    requires Consistent(n) && p in n.pcbs && PcbOk(n, p) && PcbOf(e) == Some(p)
    ensures Consistent(OfPcb(n, p, e))
  {
    match e
    case Connect(_) => ConnectingKeeps(n, p);
    case Segment(_, s) => InputKeeps(n, p, s);
    case Close(_, room) => RxClosedKeeps(n, p, room);
    case Shutdown(_, rx, tx, unread, room) => ShutKeeps(n, p, rx, tx, unread, room);
    case Retry(_, room) => RetriedKeeps(n, p, room);
    case _ => OthersKeep(n, p, e);
  }

  lemma OthersKeep(n: Net, p: Id, e: Event)
    requires Consistent(n) && p in n.pcbs && PcbOk(n, p) && PcbOf(e) == Some(p)
    requires e.Delay? || e.Accept? || e.Abort? || e.TimeOut? || e.Data? || e.Touch? || e.Prioritize?
    ensures Consistent(OfPcb(n, p, e))
  {
    match e
    case Delay(_) => DelayedKeeps(n, p);
    case Accept(_) => AcceptedKeeps(n, p);
    case Abort(_) => AbandonedKeeps(n, p);
    case TimeOut(_) => if p in n.active { TimedOutKeeps(n, p); } else { AbandonedKeeps(n, p); }
    case Data(_, unread) => FieldsKeep(n, p, n.pcbs[p].(unread := unread));
    case Touch(_, tmr) => FieldsKeep(n, p, Touched(n, p, tmr));
    case Prioritize(_, prio) => FieldsKeep(n, p, n.pcbs[p].(prio := prio));
  }

  lemma ShutKeeps(n: Net, p: Id, rx: bool, tx: bool, unread: bool, room: bool)
    requires Consistent(n) && p in n.pcbs && PcbOk(n, p)
    ensures Consistent(ShutDown(n, p, rx, tx, unread, room))
  {
    if rx && tx {
      RxClosedKeeps(n, p, room);
    } else if rx {
      FieldsKeep(n, p, n.pcbs[p].(rxClosed := true, unread := unread));
    } else if tx {
      ClosedKeeps(n, p, false, room);
    }
  }

  lemma RxClosedKeeps(n: Net, p: Id, room: bool)
    requires Consistent(n) && p in n.pcbs && PcbOk(n, p)
    ensures Consistent(Closed(n, p, room))
  {
    FieldsKeep(n, p, n.pcbs[p].(rxClosed := true));
    ClosedKeeps(RxShut(n, p), p, true, room);
  }

  lemma NextKeeps(n: Net, e: Event)
    requires Consistent(n)
    ensures Consistent(Next(n, e))
  {
    if PcbOf(e).Some? {
      var p := PcbOf(e).value;
      if p in n.pcbs && PcbOk(n, p) { OfPcbKeeps(n, p, e); }
    } else {
      match e
      case Listen(l, b) => ListenKeeps(n, l, b);
      case CloseListener(l) => ListenerClosedKeeps(n, l);
      case Syn(l, prio, tmr) => if l in n.listeners && n.free != [] { SynReceivedKeeps(n, l, tmr, prio); }
      case New(prio, tmr) => if n.free != [] { AllocatedKeeps(n, prio, tmr); }
    }
  }

  lemma ListenKeeps(n: Net, l: Id, b: int)
    requires Consistent(n)
    ensures Consistent(Next(n, Listen(l, b)))
  {
    var m := Next(n, Listen(l, b));
    if l !in n.listeners {
      forall p | p in m.pcbs ensures PcbOk(m, p) { assert PcbOk(n, p); }
      forall k | k in m.listeners ensures CountOk(m, k) {
        assert Pending(m, k) == Pending(n, k);
        if k == l {
          forall p | p in n.pcbs ensures !Names(n, p, l) { assert PcbOk(n, p); }
          assert Pending(n, l) == {};
        } else {
          assert CountOk(n, k);
        }
      }
    }
  }

  ghost function Run(n: Net, es: seq<Event>): (m: Net)
    requires Consistent(n)
    ensures Consistent(m)
    decreases |es|
  {
    if es == [] then n else
      NextKeeps(n, es[0]);
      Run(Next(n, es[0]), es[1..])
  }

  lemma {:induction false} RunMore(n: Net, es: seq<Event>, fs: seq<Event>)
    requires Consistent(n)
    ensures Run(n, es + fs) == Run(Run(n, es), fs)
    decreases |es|
  {
    if es == [] {
      assert es + fs == fs;
    } else {
      NextKeeps(n, es[0]);
      assert (es + fs)[1..] == es[1..] + fs;
      RunMore(Next(n, es[0]), es[1..], fs);
    }
  }

  /** An empty stack over a pool of free addresses. */
  function Fresh(pool: seq<Id>): Net { Net(map[], map[], [], [], pool) }

  lemma FreshConsistent(pool: seq<Id>)
    requires Distinct(pool)
    ensures Consistent(Fresh(pool))
  {
  }

  /** Over every run: counters agree with the pending active PCBs, at most one FIN is queued per
      connection, one that could not be queued is remembered until it is, and the state of a
      connection says exactly whether our FIN was queued and acknowledged and the peer's has come. */
  lemma EveryRun(pool: seq<Id>, es: seq<Event>, l: Id, p: Id)
    requires Distinct(pool)
    ensures Consistent(Fresh(pool))
    ensures var n := Run(Fresh(pool), es);
            && (l in n.listeners ==> n.listeners[l].pending == |ActivePending(n, l)| % 256)
            && (p in n.pcbs ==> n.pcbs[p].fins <= 1 && (n.pcbs[p].fins == 1 <==> FinSent(n.pcbs[p].state)))
            && (p in n.pcbs && n.pcbs[p].owed ==> n.pcbs[p].closePend || n.pcbs[p].fins == 1)
            && (p in n.pcbs ==> var c := n.pcbs[p]; Meaning(c.state) == Facts(c.fins == 1, c.acked, c.gotFin))
  {
    FreshConsistent(pool);
    var n := Run(Fresh(pool), es);
    if l in n.listeners { CountsActive(n, l); }
    if p in n.pcbs { assert PcbOk(n, p); }
  }

  /** A connection is accepted, closed here first, and ends in TIME_WAIT. */
  function Farewell(p: Id, l: Id): seq<Event> {
    [Listen(l, 1), Syn(l, 0, 0), Event.Segment(p, Ack), Close(p, true), Event.Segment(p, FinAck)]
  }

  function Greeted(l: Id): Pcb { NewPcb(0, 0).(state := SYN_RCVD, pend := true, listener := Some(l)) }

  function Left(l: Id): Pcb { Greeted(l).(state := FIN_WAIT_1, pend := false, rxClosed := true, fins := 1) }

  function Alone(p: Id, c: Pcb, l: Id): Net {
    Net(map[p := c], map[l := Listener(1, if c.pend then 1 else 0)], if c.state == TIME_WAIT then [] else [p],
        if c.state == TIME_WAIT then [p] else [], [])
  }

  /** The first two steps: a listener, and a connection pending on it. */
  lemma Welcome(p: Id, l: Id)
    requires Consistent(Fresh([p])) && Consistent(Next(Fresh([p]), Listen(l, 1)))
    ensures Next(Next(Fresh([p]), Listen(l, 1)), Syn(l, 0, 0)) == Alone(p, Greeted(l), l)
  {
    var m := Next(Next(Fresh([p]), Listen(l, 1)), Syn(l, 0, 0));
    assert [p][1..] == [];
    assert m.pcbs == map[p := Greeted(l)] && m.listeners == map[l := Listener(1, 1)];
  }

  lemma Answered(p: Id, l: Id)
    requires Consistent(Alone(p, Greeted(l), l))
    ensures Next(Alone(p, Greeted(l), l), Event.Segment(p, Ack))
            == Alone(p, Greeted(l).(state := ESTABLISHED, pend := false), l)
  {
    NextOf(Alone(p, Greeted(l), l), p, Event.Segment(p, Ack));
    AnsweredInput(p, l);
  }

  lemma AnsweredInput(p: Id, l: Id)
    ensures Alive(Alone(p, Greeted(l), l), p)
    ensures Input(Alone(p, Greeted(l), l), p, Ack) == Alone(p, Greeted(l).(state := ESTABLISHED, pend := false), l)
  {
    var m := Accepted(Alone(p, Greeted(l), l), p);
    assert m.listeners == map[l := Listener(1, 0)] && m.pcbs == map[p := Greeted(l).(pend := false)];
  }

  lemma NextOf(n: Net, p: Id, e: Event)
    requires Consistent(n) && p in n.pcbs && PcbOf(e) == Some(p)
    ensures PcbOk(n, p) && Next(n, e) == OfPcb(n, p, e)
  {
  }

  lemma Departed(p: Id, l: Id)
    requires Consistent(Alone(p, Greeted(l).(state := ESTABLISHED, pend := false), l))
    ensures Next(Alone(p, Greeted(l).(state := ESTABLISHED, pend := false), l), Close(p, true)) == Alone(p, Left(l), l)
  {
    var n := Alone(p, Greeted(l).(state := ESTABLISHED, pend := false), l);
    assert PcbOk(n, p);
  }

  lemma Waited(p: Id, l: Id)
    requires Consistent(Alone(p, Left(l), l))
    ensures Next(Alone(p, Left(l), l), Event.Segment(p, FinAck))
            == Alone(p, Left(l).(state := TIME_WAIT, acked := true, gotFin := true), l)
  {
    var n := Alone(p, Left(l), l);
    assert PcbOk(n, p);
  }

  lemma Unrolled(n: Net, e: Event, es: seq<Event>)
    requires Consistent(n)
    ensures Consistent(Next(n, e)) && Run(n, [e] + es) == Run(Next(n, e), es)
  {
    NextKeeps(n, e);
    assert ([e] + es)[1..] == es;
  }

  lemma FromGreeting(p: Id, l: Id)
    requires Consistent(Alone(p, Greeted(l), l))
    ensures Run(Alone(p, Greeted(l), l), Farewell(p, l)[2..])
            == Alone(p, Left(l).(state := TIME_WAIT, acked := true, gotFin := true), l)
  {
    var n := Alone(p, Greeted(l), l);
    Unrolled(n, Event.Segment(p, Ack), [Close(p, true), Event.Segment(p, FinAck)]);
    Answered(p, l);
    Unrolled(Alone(p, Greeted(l).(state := ESTABLISHED, pend := false), l), Close(p, true), [Event.Segment(p, FinAck)]);
    Departed(p, l);
    Unrolled(Alone(p, Left(l), l), Event.Segment(p, FinAck), []);
    Waited(p, l);
    assert Farewell(p, l)[2..] == [Event.Segment(p, Ack)] + [Close(p, true), Event.Segment(p, FinAck)];
    assert [Close(p, true), Event.Segment(p, FinAck)] == [Close(p, true)] + [Event.Segment(p, FinAck)];
    assert [Event.Segment(p, FinAck)] == [Event.Segment(p, FinAck)] + [];
  }

  lemma FarewellRun(p: Id, l: Id)
    ensures Consistent(Fresh([p]))
    ensures Run(Fresh([p]), Farewell(p, l))
            == Alone(p, Left(l).(state := TIME_WAIT, acked := true, gotFin := true), l)
  {
    FreshConsistent([p]);
    var es := Farewell(p, l);
    Unrolled(Fresh([p]), es[0], es[1..]);
    Unrolled(Next(Fresh([p]), es[0]), es[1], es[2..]);
    assert es == [es[0]] + es[1..] && es[1..] == [es[1]] + es[2..];
    Welcome(p, l);
    FromGreeting(p, l);
  }

  /** So it happens: after that run a delay puts the counter out of step with the active PCBs. */
  lemma DelayedAfterRun(p: Id, l: Id)
    ensures Consistent(Fresh([p]))
    ensures var n := Run(Fresh([p]), Farewell(p, l));
            && p in n.timeWait && Alive(n, p) && n.pcbs[p].listener == Some(l) && !n.pcbs[p].pend && l in n.listeners
            && Delayed(n, p).listeners[l].pending != |ActivePending(Delayed(n, p), l)| % 256
  {
    FarewellRun(p, l);
    var n := Run(Fresh([p]), Farewell(p, l));
    assert PcbOk(n, p);
    DelayedInTimeWait(n, p, l);
  }

  /** What one step may do to a PCB that survives it. Either the FIN is queued: the connection was
      in SYN_RCVD, ESTABLISHED or CLOSE_WAIT, the step is a close, a half-close or a retry, and the
      state becomes FIN_WAIT_1 or LAST_ACK. Or no FIN is queued, and the connection does not pass
      from before the local close to after it or back. */
  predicate Leaves(c: Pcb, d: Pcb, e: Event) {
    if d.fins == c.fins then FinSent(d.state) == FinSent(c.state)
    else
      && d.fins == c.fins + 1 && Sends(c.state) && (e.Close? || e.Shutdown? || e.Retry?)
      && d.state == if c.state == CLOSE_WAIT then LAST_ACK else FIN_WAIT_1
  }

  /** The state is left locally exactly when the FIN is queued. */
  lemma LeavesWithFin(n: Net, p: Id, e: Event)
    requires p in n.pcbs && PcbOk(n, p) && PcbOf(e) == Some(p) && p in OfPcb(n, p, e).pcbs
    ensures Leaves(n.pcbs[p], OfPcb(n, p, e).pcbs[p], e)
  {
    match e
    case Segment(_, s) => InputLeaves(n, p, s, e);
    case Close(_, room) => ClosedLeaves(n, p, room, e);
    case Shutdown(_, rx, tx, unread, room) => ShutLeaves(n, p, rx, tx, unread, room, e);
    case Retry(_, room) => RetryLeaves(n, p, room, e);
    case _ => OthersStay(n, p, e);
  }

  lemma OthersStay(n: Net, p: Id, e: Event)
    requires p in n.pcbs && PcbOk(n, p) && PcbOf(e) == Some(p) && p in OfPcb(n, p, e).pcbs
    requires !e.Segment? && !e.Close? && !e.Shutdown? && !e.Retry?
    ensures Leaves(n.pcbs[p], OfPcb(n, p, e).pcbs[p], e)
  {
  }

  lemma ClosedLeaves(n: Net, p: Id, room: bool, e: Event)
    requires Alive(n, p) && (e.Close? || e.Shutdown?) && p in Closed(n, p, room).pcbs
    ensures Leaves(n.pcbs[p], Closed(n, p, room).pcbs[p], e)
  {
    CloseLeaves(RxShut(n, p), p, true, room, e);
  }

  lemma ShutLeaves(n: Net, p: Id, rx: bool, tx: bool, unread: bool, room: bool, e: Event)
    requires Alive(n, p) && e.Shutdown? && p in ShutDown(n, p, rx, tx, unread, room).pcbs
    ensures Leaves(n.pcbs[p], ShutDown(n, p, rx, tx, unread, room).pcbs[p], e)
  {
    if rx && tx {
      ClosedLeaves(n, p, room, e);
    } else if !rx && tx && Sends(n.pcbs[p].state) {
      CloseLeaves(n, p, false, room, e);
    }
  }

  lemma InputLeaves(n: Net, p: Id, s: Segment, e: Event)
    requires p in n.pcbs && PcbOk(n, p) && p in Input(n, p, s).pcbs
    ensures Leaves(n.pcbs[p], Input(n, p, s).pcbs[p], e)
  {
    EffectKeepsSide(n.pcbs[p].state, s);
    HeardSame(n.pcbs[p], s);
    match EffectOf(n.pcbs[p].state, s)
    case Stay =>
    case Goto(t) =>
    case Establish(t) => EstablishLeaves(n, p, s, t);
    case Wait => WaitLeaves(n, p, s);
    case Drop =>
  }

  lemma HeardSame(c: Pcb, s: Segment)
    ensures Heard(c, s) == c.(acked := Heard(c, s).acked, gotFin := Heard(c, s).gotFin)
  {
  }

  lemma EstablishLeaves(n: Net, p: Id, s: Segment, t: State)
    requires Alive(n, p) && EffectOf(n.pcbs[p].state, s) == Establish(t) && p in Input(n, p, s).pcbs
    ensures Input(n, p, s).pcbs[p].fins == n.pcbs[p].fins && Input(n, p, s).pcbs[p].state == t
  {
    AcceptedFields(n, p);
  }

  lemma WaitLeaves(n: Net, p: Id, s: Segment)
    requires Alive(n, p) && EffectOf(n.pcbs[p].state, s) == Wait && p in Input(n, p, s).pcbs
    ensures Input(n, p, s).pcbs[p].fins == n.pcbs[p].fins && Input(n, p, s).pcbs[p].state == TIME_WAIT
  {
    AcceptedFields(n, p);
  }

  lemma RetryLeaves(n: Net, p: Id, room: bool, e: Event)
    requires p in n.pcbs && PcbOk(n, p) && e.Retry?
    ensures p in Retried(n, p, room).pcbs && Leaves(n.pcbs[p], Retried(n, p, room).pcbs[p], e)
  {
    if n.pcbs[p].closePend { FinLeaves(Set(n, p, n.pcbs[p].(closePend := false)), p, room, e); }
  }

  lemma FinLeaves(n: Net, p: Id, room: bool, e: Event)
    requires Alive(n, p) && (e.Close? || e.Shutdown? || e.Retry?)
    ensures p in FinTried(n, p, room).pcbs && Leaves(n.pcbs[p], FinTried(n, p, room).pcbs[p], e)
  {
  }

  lemma CloseLeaves(n: Net, p: Id, rst: bool, room: bool, e: Event)
    requires Alive(n, p) && (e.Close? || e.Shutdown? || e.Retry?) && p in CloseTried(n, p, rst, room).pcbs
    ensures Leaves(n.pcbs[p], CloseTried(n, p, rst, room).pcbs[p], e)
  {
    FinLeaves(n, p, room, e);
  }

  predicate NeverOpened(c: Pcb) { c.state == CLOSED || c.state == SYN_SENT }

  predicate LeavesUnread(c: Pcb) { (c.state == ESTABLISHED || c.state == CLOSE_WAIT) && c.unread }

  /** When a step frees the PCB: an abort; a timeout, unless it is on no list; a close of a connection
      that was never opened or has bytes that were not read; and of the segments a reset, the last
      acknowledgement after both sides have closed, and the end of a handshake whose listener is gone. */
  predicate Frees(c: Pcb, e: Event) {
    match e
    case Abort(_) => true
    case TimeOut(_) => c.state != CLOSED
    case Close(_, _) => NeverOpened(c) || LeavesUnread(c)
    case Shutdown(_, rx, tx, _, _) => rx && tx && (NeverOpened(c) || LeavesUnread(c))
    case Segment(_, s) =>
      && c.state != CLOSED && c.state != TIME_WAIT
      && (s.Rst? || ((s.Ack? || s.FinAck?) && (c.state == LAST_ACK || (c.state == SYN_RCVD && c.listener.None?))))
    case _ => false
  }

  /** In every other case the connection lives on. */
  lemma FreedExactly(n: Net, p: Id, e: Event)
    requires p in n.pcbs && PcbOk(n, p) && PcbOf(e) == Some(p)
    ensures p !in OfPcb(n, p, e).pcbs <==> Frees(n.pcbs[p], e)
  {
    match e
    case Segment(_, s) => InputFrees(n, p, s);
    case Close(_, room) => CloseFrees(n, p, room);
    case Shutdown(_, rx, tx, unread, room) =>
      CloseFrees(n, p, room);
      HalfCloseKeeps(n, p, unread, room);
    case Retry(_, room) => RetryLeaves(n, p, room, e);
    case _ =>
  }

  lemma InputFrees(n: Net, p: Id, s: Segment)
    requires Alive(n, p)
    ensures p !in Input(n, p, s).pcbs <==> Frees(n.pcbs[p], Event.Segment(p, s))
  {
    match EffectOf(n.pcbs[p].state, s)
    case Establish(t) => AcceptedFields(n, p);
    case Wait => AcceptedFields(n, p);
    case _ =>
  }

  /** The PCB has been dropped with a reset, or has queued its FIN, or still carries the retry flag. */
  predicate Remembered(c: Pcb, m: Net, p: Id) {
    || p !in m.pcbs
    || m.pcbs[p].fins == c.fins + 1
    || (m.pcbs[p].closePend && m.pcbs[p].owed && m.pcbs[p].state == c.state)
  }

  /** A close, a half-close of the sending side or a retry is never forgotten, and the FIN is queued exactly if
      there is memory for it. */
  lemma RetryIsRemembered(n: Net, p: Id, e: Event)
    requires p in n.pcbs && PcbOk(n, p) && PcbOf(e) == Some(p) && Sends(n.pcbs[p].state)
    requires e.Close? || (e.Shutdown? && e.tx) || (e.Retry? && n.pcbs[p].closePend)
    ensures Remembered(n.pcbs[p], OfPcb(n, p, e), p)
    ensures var m := OfPcb(n, p, e); p in m.pcbs ==> (m.pcbs[p].fins == n.pcbs[p].fins + 1 <==> e.room)
  {
    match e
    case Close(_, room) => ClosedRemembered(n, p, room);
    case Shutdown(_, rx, _, _, room) => ClosedRemembered(n, p, room); TryRemembered(n, p, false, room);
    case Retry(_, room) => FinRemembered(Set(n, p, n.pcbs[p].(closePend := false)), p, room);
    case _ =>
  }

  lemma ClosedRemembered(n: Net, p: Id, room: bool)
    requires Alive(n, p) && Sends(n.pcbs[p].state)
    ensures Remembered(n.pcbs[p], Closed(n, p, room), p)
    ensures var m := Closed(n, p, room); p in m.pcbs ==> (m.pcbs[p].fins == n.pcbs[p].fins + 1 <==> room)
  {
    TryRemembered(RxShut(n, p), p, true, room);
  }

  lemma TryRemembered(n: Net, p: Id, rst: bool, room: bool)
    requires Alive(n, p) && Sends(n.pcbs[p].state)
    ensures Remembered(n.pcbs[p], CloseTried(n, p, rst, room), p)
    ensures var m := CloseTried(n, p, rst, room); p in m.pcbs ==> (m.pcbs[p].fins == n.pcbs[p].fins + 1 <==> room)
  {
    FinRemembered(n, p, room);
  }

  lemma FinRemembered(n: Net, p: Id, room: bool)
    requires Alive(n, p) && Sends(n.pcbs[p].state)
    ensures Remembered(n.pcbs[p], FinTried(n, p, room), p)
    ensures p in FinTried(n, p, room).pcbs && (room <==> FinTried(n, p, room).pcbs[p].fins == n.pcbs[p].fins + 1)
  {
  }
}
