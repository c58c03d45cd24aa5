/** The timer list of timeouts.c over true, unbounded time.

    The queue is kept sorted by due time. One call of sys_check_timeouts is a loop that fires
    the head while it is due; what a handler does (take time, start or cancel timers, in any
    order) is an arbitrary sequence of commands. */
module TimerQueue {

  /** What a timer calls: lwip_cyclic_timer for an entry of lwip_cyclic_timers, or a one-shot
      handler of the application. */
  datatype Handler =
    | Cyclic(id: int, interval: nat)
    | OneShot(id: int)

  datatype Entry = Entry(due: int, h: Handler)

  type Queue = seq<Entry>

  predicate InOrder(q: Queue, i: nat, j: nat)
    requires i < |q| && j < |q|
  {
    q[i].due <= q[j].due
  }

  ghost predicate Sorted(q: Queue) {
    forall i, j | 0 <= i < j < |q| :: InOrder(q, i, j)
  }

  /** Where a new entry goes: behind all entries that are not due later. */
  function Place(q: Queue, due: int): (k: nat)
    ensures k <= |q|
    ensures forall i | 0 <= i < k :: q[i].due <= due
    ensures k < |q| ==> due < q[k].due
  {
    if q == [] || due < q[0].due then 0 else 1 + Place(q[1..], due)
  }

  /** sys_timeout_abs. */
  function Insert(q: Queue, e: Entry): Queue {
    var k := Place(q, e.due); q[..k] + [e] + q[k..]
  }

  lemma InsertSorted(q: Queue, e: Entry)
    requires Sorted(q)
    ensures Sorted(Insert(q, e))
  {
    var k, r := Place(q, e.due), Insert(q, e);
    forall i, j | 0 <= i < j < |r| ensures InOrder(r, i, j) {
      if i == k {
        assert k < |q| && (k == j - 1 || InOrder(q, k, j - 1));
      } else if j != k {
        assert InOrder(q, if i < k then i else i - 1, if j < k then j else j - 1);
      }
    }
  }

  /** Nothing is lost and nothing else added. */
  lemma InsertExact(q: Queue, e: Entry)
    ensures multiset(Insert(q, e)) == multiset(q) + multiset{e}
  {
    var k := Place(q, e.due);
    assert q == q[..k] + q[k..];
  }

  /** First in, first out among equal due times: the new entry is the last of its time. */
  lemma InsertFifo(q: Queue, e: Entry)
    requires Sorted(q)
    ensures var k := Place(q, e.due);
            && (forall i | 0 <= i < |q| && q[i].due == e.due :: i < k)
            && Insert(q, e)[k] == e
  {
    var k := Place(q, e.due);
    forall i | 0 <= i < |q| && q[i].due == e.due ensures i < k {
      assert k < i ==> InOrder(q, k, i);
    }
  }

  /** Position of the first entry with handler `h`, or |q|. */
  function Find(q: Queue, h: Handler): (k: nat)
    ensures k <= |q|
    ensures forall i | 0 <= i < k :: q[i].h != h
    ensures k < |q| ==> q[k].h == h
  {
    if q == [] || q[0].h == h then 0 else 1 + Find(q[1..], h)
  }

  /** sys_untimeout: remove the first entry with that handler, if any. */
  function Cancel(q: Queue, h: Handler): Queue {
    var k := Find(q, h);
    if k == |q| then q else q[..k] + q[k + 1..]
  }

  /** Exactly the first entry with the handler goes. */
  lemma CancelExact(q: Queue, h: Handler, i: nat)
    requires IsFirst(q, h, i)
    ensures Cancel(q, h) == q[..i] + q[i + 1..] && multiset(q) == multiset(Cancel(q, h)) + multiset{q[i]}
  {
    var k := Find(q, h);
    assert k >= i && k <= i;
    assert q == q[..i] + [q[i]] + q[i + 1..];
  }

  /** Entry `i` is the first with the handler. */
  ghost predicate IsFirst(q: Queue, h: Handler, i: int) {
    0 <= i < |q| && q[i].h == h && forall j | 0 <= j < i :: q[j].h != h
  }

  /** Where there is none, nothing happens. */
  lemma CancelNone(q: Queue, h: Handler)
    requires forall i | 0 <= i < |q| :: q[i].h != h
    ensures Cancel(q, h) == q
  {
  }

  lemma CancelSorted(q: Queue, h: Handler)
    requires Sorted(q)
    ensures Sorted(Cancel(q, h))
  {
    var k, r := Find(q, h), Cancel(q, h);
    if k < |q| {
      forall i, j | 0 <= i < j < |r| ensures InOrder(r, i, j) {
        assert InOrder(q, if i < k then i else i + 1, if j < k then j else j + 1);
      }
    }
  }

  /** The due time lwip_cyclic_timer chooses: a whole interval after the last one, or after
      the present when that is already past. */
  function NextDue(due: int, interval: nat, now: int): int {
    if due + interval < now then now + interval else due + interval
  }

  // ----- one call of sys_check_timeouts

  datatype Command =
    | Start(msecs: nat, h: Handler)    // sys_timeout
    | Stop(h: Handler)                 // sys_untimeout
    | Work(ms: nat)                    // time passes

  datatype State = State(now: int, q: Queue)

  function Do(s: State, c: Command): State {
    match c
    case Start(msecs, h) => s.(q := Insert(s.q, Entry(s.now + msecs, h)))
    case Stop(h) => s.(q := Cancel(s.q, h))
    case Work(ms) => s.(now := s.now + ms)
  }

  function Perform(s: State, cs: seq<Command>): State
    decreases |cs|
  {
    if cs == [] then s else Perform(Do(s, cs[0]), cs[1..])
  }

  /** The head has been taken off the queue, its handler not yet called. */
  function Taken(s: State): State
    requires s.q != []
  {
    State(s.now, s.q[1..])
  }

  /** Take the head off the queue and run its handler. */
  function Fire(s: State, r: seq<Command>): State
    requires s.q != []
  {
    Rearm(Perform(Taken(s), r), s.q[0])
  }

  /** A cyclic timer that has just been handled starts itself again. */
  function Rearm(t: State, e: Entry): State {
    match e.h
    case OneShot(_) => t
    case Cyclic(_, interval) => t.(q := Insert(t.q, Entry(NextDue(e.due, interval, t.now), e.h)))
  }

  predicate Due(s: State, limit: int) { s.q != [] && s.q[0].due <= limit }

  /** The state after `n` rounds of the loop; rounds after the end change nothing. */
  function After(s: State, limit: int, react: nat -> seq<Command>, n: nat): State {
    if n == 0 then s
    else var t := After(s, limit, react, n - 1); if Due(t, limit) then Fire(t, react(n - 1)) else t
  }

  /** All timers, or those with one id. */
  datatype Who = Anyone | Only(id: int)

  predicate Concerns(who: Who, h: Handler) { who.Anyone? || who.id == h.id }

  /** The command starts a timer that is due already by `limit`, the moment the call began. */
  predicate Early(s: State, c: Command, who: Who, limit: int) {
    c.Start? && s.now + c.msecs <= limit && Concerns(who, c.h)
  }

  predicate StartsEarly(s: State, cs: seq<Command>, who: Who, limit: int)
    decreases |cs|
  {
    cs != [] && (Early(s, cs[0], who, limit) || StartsEarly(Do(s, cs[0]), cs[1..], who, limit))
  }

  /** A cyclic timer without an interval that re-arms itself while the clock stands still does so, too. */
  predicate RearmsEarly(t: State, e: Entry, who: Who, limit: int) {
    e.h.Cyclic? && e.h.interval == 0 && t.now <= limit && Concerns(who, e.h)
  }

  predicate FiresEarly(s: State, r: seq<Command>, who: Who, limit: int)
    requires s.q != []
  {
    StartsEarly(Taken(s), r, who, limit) || RearmsEarly(Perform(Taken(s), r), s.q[0], who, limit)
  }

  /** Round `n` fires a timer, and that starts one which is due at once. */
  predicate EarlyRound(s: State, limit: int, react: nat -> seq<Command>, who: Who, n: nat) {
    var t := After(s, limit, react, n); Due(t, limit) && FiresEarly(t, react(n), who, limit)
  }

  // ----- sums over the queue

  function Sum(q: Queue, w: Entry -> nat): nat { if q == [] then 0 else w(q[0]) + Sum(q[1..], w) }

  lemma {:induction false} SumCut(q: Queue, k: nat, w: Entry -> nat)
    requires k <= |q|
    ensures Sum(q, w) == Sum(q[..k], w) + Sum(q[k..], w)
    decreases k
  {
    if k == 0 {
      assert q[..0] == [] && q[0..] == q;
    } else {
      SumCut(q[1..], k - 1, w);
      assert q[1..][..k - 1] == q[..k][1..] && q[1..][k - 1..] == q[k..];
    }
  }

  lemma InsertSum(q: Queue, e: Entry, w: Entry -> nat)
    ensures Sum(Insert(q, e), w) == Sum(q, w) + w(e)
  {
    var k, r := Place(q, e.due), Insert(q, e);
    SumCut(r, k, w);
    SumCut(q, k, w);
    assert r[..k] == q[..k] && r[k] == e && r[k..][1..] == q[k..];
  }

  lemma CancelSum(q: Queue, h: Handler, w: Entry -> nat)
    ensures Find(q, h) < |q| ==> Sum(q, w) == Sum(Cancel(q, h), w) + w(q[Find(q, h)])
  {
    var k, r := Find(q, h), Cancel(q, h);
    if k < |q| {
      SumCut(r, k, w);
      SumCut(q, k, w);
      assert r[..k] == q[..k] && q[k..][1..] == q[k + 1..] && r[k..] == q[k + 1..];
    }
  }

  // ----- how often a timer can still fire in this call

  /** A one-shot timer that is due fires once; a cyclic one may be due again at the very
      moment the call started, but not a third time. */
  function Weight(e: Entry, limit: int): nat {
    if e.due > limit then 0 else if e.h.OneShot? || e.due == limit then 1 else 2
  }

  function Weighing(who: Who, limit: int): Entry -> nat {
    (e: Entry) => if Concerns(who, e.h) then Weight(e, limit) else 0
  }

  function Total(q: Queue, who: Who, limit: int): nat { Sum(q, Weighing(who, limit)) }

  // ----- what a round of the loop keeps

  /** Sorted, at or after the moment the call started. */
  ghost predicate Base(s: State, limit: int) { Sorted(s.q) && limit <= s.now }

  lemma DoKeeps(s: State, c: Command, limit: int)
    requires Base(s, limit)
    ensures Base(Do(s, c), limit)
  {
    match c
    case Start(msecs, h) => InsertSorted(s.q, Entry(s.now + msecs, h));
    case Stop(h) => CancelSorted(s.q, h);
    case Work(ms) =>
  }

  lemma {:induction false} PerformKeeps(s: State, cs: seq<Command>, limit: int)
    requires Base(s, limit)
    ensures Base(Perform(s, cs), limit)
    decreases |cs|
  {
    if cs != [] {
      DoKeeps(s, cs[0], limit);
      PerformKeeps(Do(s, cs[0]), cs[1..], limit);
    }
  }

  lemma TakenKeeps(s: State, limit: int)
    requires Base(s, limit) && s.q != []
    ensures Base(Taken(s), limit)
  {
    var r := s.q[1..];
    forall i, j | 0 <= i < j < |r| ensures InOrder(r, i, j) { assert InOrder(s.q, i + 1, j + 1); }
  }

  lemma FireKeeps(s: State, r: seq<Command>, limit: int)
    requires Base(s, limit) && s.q != []
    ensures Base(Perform(Taken(s), r), limit) && Base(Fire(s, r), limit)
  {
    TakenKeeps(s, limit);
    PerformKeeps(Taken(s), r, limit);
    var t, e := Perform(Taken(s), r), s.q[0];
    if e.h.Cyclic? { InsertSorted(t.q, Entry(NextDue(e.due, e.h.interval, t.now), e.h)); }
  }

  lemma {:induction false} RunKeeps(s: State, limit: int, react: nat -> seq<Command>, n: nat)
    requires Base(s, limit)
    ensures Base(After(s, limit, react, n), limit)
  {
    if n > 0 {
      RunKeeps(s, limit, react, n - 1);
      var t := After(s, limit, react, n - 1);
      if Due(t, limit) { FireKeeps(t, react(n - 1), limit); }
    }
  }

  // ----- what a round uses up

  lemma DoTotal(s: State, c: Command, who: Who, limit: int)
    requires limit <= s.now && !Early(s, c, who, limit)
    ensures Total(Do(s, c).q, who, limit) <= Total(s.q, who, limit)
  {
    match c
    case Start(msecs, h) => InsertSum(s.q, Entry(s.now + msecs, h), Weighing(who, limit));
    case Stop(h) => CancelSum(s.q, h, Weighing(who, limit));
    case Work(ms) =>
  }

  lemma {:induction false} PerformTotal(s: State, cs: seq<Command>, who: Who, limit: int)
    requires Base(s, limit) && !StartsEarly(s, cs, who, limit)
    ensures Total(Perform(s, cs).q, who, limit) <= Total(s.q, who, limit)
    decreases |cs|
  {
    if cs != [] {
      DoTotal(s, cs[0], who, limit);
      DoKeeps(s, cs[0], limit);
      PerformTotal(Do(s, cs[0]), cs[1..], who, limit);
    }
  }

  /** A cyclic timer that fires again in the same call is due at the moment it started. */
  lemma NextDueLater(due: int, interval: nat, now: int, limit: int)
    requires due <= limit <= now && (interval > 0 || limit < now)
    ensures limit <= NextDue(due, interval, now)
    ensures due == limit ==> limit < NextDue(due, interval, now)
  {
  }

  lemma RearmTotal(t: State, e: Entry, who: Who, limit: int)
    requires limit <= t.now && e.due <= limit && !RearmsEarly(t, e, who, limit)
    ensures Total(Rearm(t, e).q, who, limit) + (if Concerns(who, e.h) then 1 else 0)
            <= Total(t.q, who, limit) + Weighing(who, limit)(e)
  {
    if e.h.Cyclic? && Concerns(who, e.h) {
      NextDueLater(e.due, e.h.interval, t.now, limit);
    }
    if e.h.Cyclic? { InsertSum(t.q, Entry(NextDue(e.due, e.h.interval, t.now), e.h), Weighing(who, limit)); }
  }

  /** One round without an early start: the fired timer has used up part of its weight. */
  lemma FireTotal(s: State, r: seq<Command>, who: Who, limit: int)
    requires Base(s, limit) && Due(s, limit) && !FiresEarly(s, r, who, limit)
    ensures Total(Fire(s, r).q, who, limit) + (if Concerns(who, s.q[0].h) then 1 else 0) <= Total(s.q, who, limit)
  {
    TakenKeeps(s, limit);
    FireKeeps(s, r, limit);
    PerformTotal(Taken(s), r, who, limit);
    RearmTotal(Perform(Taken(s), r), s.q[0], who, limit);
  }

  /** How often timers of `who` have fired in the first `n` rounds. */
  function Firings(s: State, limit: int, react: nat -> seq<Command>, who: Who, n: nat): nat {
    if n == 0 then 0
    else
      var t := After(s, limit, react, n - 1);
      Firings(s, limit, react, who, n - 1) + (if Due(t, limit) && Concerns(who, t.q[0].h) then 1 else 0)
  }

  /** Firings so far, and those still possible. */
  function Weighed(s: State, limit: int, react: nat -> seq<Command>, who: Who, n: nat): int {
    Firings(s, limit, react, who, n) + Total(After(s, limit, react, n).q, who, limit)
  }

  /** Over rounds in which no timer of `who` is started early, each firing uses up weight. */
  lemma {:induction false} FiringsBounded(s: State, limit: int, react: nat -> seq<Command>, who: Who, m: nat, n: nat)
    requires Base(s, limit) && m <= n && CalmIn(s, limit, react, who, m, n)
    ensures Weighed(s, limit, react, who, n) <= Weighed(s, limit, react, who, m)
  {
    if m < n {
      assert !EarlyRound(s, limit, react, who, n - 1);
      RoundTotal(s, limit, react, who, n - 1);
      FiringsBounded(s, limit, react, who, m, n - 1);
    }
  }

  ghost predicate CalmIn(s: State, limit: int, react: nat -> seq<Command>, who: Who, m: nat, n: nat) {
    forall k | m <= k < n :: !EarlyRound(s, limit, react, who, k)
  }

  lemma RoundTotal(s: State, limit: int, react: nat -> seq<Command>, who: Who, n: nat)
    requires Base(s, limit) && !EarlyRound(s, limit, react, who, n)
    ensures Weighed(s, limit, react, who, n + 1) <= Weighed(s, limit, react, who, n)
  {
    RunKeeps(s, limit, react, n);
    var t := After(s, limit, react, n);
    if Due(t, limit) { FireTotal(t, react(n), who, limit); }
  }

  /** A timer with one pending entry fires at most twice in one call, a one-shot timer at most
      once, as long as no handler starts a timer with its id that is due at once. */
  lemma AtMostTwice(s: State, limit: int, react: nat -> seq<Command>, k: nat, n: nat)
    requires Base(s, limit) && k < |s.q|
    requires forall j | 0 <= j < |s.q| && j != k :: s.q[j].h.id != s.q[k].h.id
    requires forall j | 0 <= j < n :: !EarlyRound(s, limit, react, Only(s.q[k].h.id), j)
    ensures Firings(s, limit, react, Only(s.q[k].h.id), n) <= if s.q[k].h.OneShot? then 1 else 2
  {
    FiringsBounded(s, limit, react, Only(s.q[k].h.id), 0, n);
    OnlyEntry(s.q, k, limit);
  }

  lemma {:induction false} OnlyEntry(q: Queue, k: nat, limit: int)
    requires k < |q| && forall j | 0 <= j < |q| && j != k :: q[j].h.id != q[k].h.id
    ensures Total(q, Only(q[k].h.id), limit) == Weight(q[k], limit)
  {
    if k == 0 { NoEntry(q[1..], q[0].h.id, limit); } else { OnlyEntry(q[1..], k - 1, limit); }
  }

  lemma {:induction false} NoEntry(q: Queue, id: int, limit: int)
    requires forall j | 0 <= j < |q| :: q[j].h.id != id
    ensures Total(q, Only(id), limit) == 0
  {
    if q != [] { NoEntry(q[1..], id, limit); }
  }

  // ----- when the call ends

  /** After `n` rounds nothing is due any more. */
  predicate Over(s: State, limit: int, react: nat -> seq<Command>, n: nat) { !Due(After(s, limit, react, n), limit) }

  ghost predicate Ends(s: State, limit: int, react: nat -> seq<Command>) { exists n :: Over(s, limit, react, n) }

  /** From round `m` on no handler starts a timer that is due at once. */
  ghost predicate QuietFrom(s: State, limit: int, react: nat -> seq<Command>, m: nat) {
    forall n | n >= m :: !EarlyRound(s, limit, react, Anyone, n)
  }

  /** After the loop has ended, more rounds change nothing. */
  lemma {:induction false} Settled(s: State, limit: int, react: nat -> seq<Command>, m: nat, n: nat)
    requires m <= n && Over(s, limit, react, m)
    ensures After(s, limit, react, n) == After(s, limit, react, m)
    ensures forall who :: Firings(s, limit, react, who, n) == Firings(s, limit, react, who, m)
  {
    if m < n { Settled(s, limit, react, m, n - 1); }
  }

  lemma StillDue(s: State, limit: int, react: nat -> seq<Command>, m: nat, n: nat)
    requires m <= n && !Over(s, limit, react, n)
    ensures !Over(s, limit, react, m)
  {
    if Over(s, limit, react, m) { Settled(s, limit, react, m, n); }
  }

  lemma {:induction false} RoundsFired(s: State, limit: int, react: nat -> seq<Command>, n: nat)
    requires !Over(s, limit, react, n)
    ensures Firings(s, limit, react, Anyone, n) == n
  {
    if n > 0 {
      StillDue(s, limit, react, n - 1, n);
      RoundsFired(s, limit, react, n - 1);
    }
  }

  /** Once quiet, the call ends within as many rounds as there is weight left. */
  lemma QuietEnds(s: State, limit: int, react: nat -> seq<Command>, m: nat)
    requires Base(s, limit) && QuietFrom(s, limit, react, m)
    ensures Over(s, limit, react, m + Total(After(s, limit, react, m).q, Anyone, limit))
  {
    var n := m + Total(After(s, limit, react, m).q, Anyone, limit);
    if !Over(s, limit, react, n) { DueIsSoon(s, limit, react, m, n); }
  }

  lemma DueIsSoon(s: State, limit: int, react: nat -> seq<Command>, m: nat, n: nat)
    requires Base(s, limit) && QuietFrom(s, limit, react, m) && m <= n && !Over(s, limit, react, n)
    ensures n < m + Total(After(s, limit, react, m).q, Anyone, limit)
  {
    StillDue(s, limit, react, m, n);
    RoundsFired(s, limit, react, m);
    RoundsFired(s, limit, react, n);
    FiringsBounded(s, limit, react, Anyone, m, n);
    HeadWeighs(After(s, limit, react, n), limit);
  }

  lemma HeadWeighs(t: State, limit: int)
    requires Due(t, limit)
    ensures Total(t.q, Anyone, limit) > 0
  {
    assert Weighing(Anyone, limit)(t.q[0]) > 0;
  }

  /** The call ends exactly if, from some round on, no handler it calls
      starts a timer that is due by the moment the call began. */
  lemma EndsExactly(s: State, limit: int, react: nat -> seq<Command>)
    requires Base(s, limit)
    ensures Ends(s, limit, react) <==> exists m :: QuietFrom(s, limit, react, m)
  {
    if Ends(s, limit, react) {
      var m :| Over(s, limit, react, m);
      forall n | n >= m ensures !EarlyRound(s, limit, react, Anyone, n) { Settled(s, limit, react, m, n); }
      assert QuietFrom(s, limit, react, m);
    }
    if exists m :: QuietFrom(s, limit, react, m) {
      var m :| QuietFrom(s, limit, react, m);
      QuietEnds(s, limit, react, m);
    }
  }

  /** A round is not early when it starts timers with positive delays and intervals only. */
  lemma PatientRound(s: State, limit: int, react: nat -> seq<Command>, n: nat)
    requires Base(s, limit) && forall k | 0 <= k < |react(n)| :: react(n)[k].Start? ==> react(n)[k].msecs > 0
    requires var q := After(s, limit, react, n).q; q != [] && q[0].h.Cyclic? ==> q[0].h.interval > 0
    ensures !EarlyRound(s, limit, react, Anyone, n)
  {
    RunKeeps(s, limit, react, n);
    var t := After(s, limit, react, n);
    if Due(t, limit) {
      TakenKeeps(t, limit);
      Patient(Taken(t), react(n), limit);
    }
  }

  lemma {:induction false} Patient(s: State, cs: seq<Command>, limit: int)
    requires Base(s, limit) && forall k | 0 <= k < |cs| :: cs[k].Start? ==> cs[k].msecs > 0
    ensures !StartsEarly(s, cs, Anyone, limit)
    decreases |cs|
  {
    if cs != [] {
      DoKeeps(s, cs[0], limit);
      Patient(Do(s, cs[0]), cs[1..], limit);
    }
  }

  /** Where it ends, every pending timer lies in the future. */
  lemma NothingDue(s: State, limit: int, react: nat -> seq<Command>, n: nat, i: nat)
    requires Base(s, limit) && Over(s, limit, react, n) && i < |After(s, limit, react, n).q|
    ensures After(s, limit, react, n).q[i].due > limit
  {
    RunKeeps(s, limit, react, n);
    assert i > 0 ==> InOrder(After(s, limit, react, n).q, 0, i);
  }

  /** The failing case: a handler that starts itself again with a delay of zero while the clock
      stands still keeps the call going for ever. */
  lemma {:induction false} ZeroDelayNeverEnds(now: int, id: int, react: nat -> seq<Command>, n: nat)
    requires forall k :: react(k) == [Start(0, OneShot(id))]
    ensures var s := State(now, [Entry(now, OneShot(id))]);
            After(s, now, react, n) == s && !Over(s, now, react, n)
  {
    if n > 0 {
      ZeroDelayNeverEnds(now, id, react, n - 1);
      ZeroDelayRestarts(now, id);
    }
  }

  lemma ZeroDelayRestarts(now: int, id: int)
    ensures var s := State(now, [Entry(now, OneShot(id))]);
            Due(s, now) && Fire(s, [Start(0, OneShot(id))]) == s
  {
    var s, c := State(now, [Entry(now, OneShot(id))]), Start(0, OneShot(id));
    assert s.q[1..] == [] && [c][1..] == [] && Insert([], s.q[0]) == s.q;
    var u := State(now, []);
    assert Perform(Do(u, c), []) == Do(u, c) == s;
    assert Perform(u, [c]) == Perform(Do(u, [c][0]), [c][1..]);
  }

  // ----- order

  predicate From(q: Queue, b: int, i: nat)
    requires i < |q|
  {
    q[i].due >= b
  }

  ghost predicate AllFrom(q: Queue, b: int) { forall i | 0 <= i < |q| :: From(q, b, i) }

  lemma InsertFrom(q: Queue, e: Entry, b: int)
    requires AllFrom(q, b) && e.due >= b
    ensures AllFrom(Insert(q, e), b)
  {
    var k, r := Place(q, e.due), Insert(q, e);
    forall i | 0 <= i < |r| ensures From(r, b, i) {
      if i != k { assert From(q, b, if i < k then i else i - 1); }
    }
  }

  lemma DoFrom(s: State, c: Command, b: int)
    requires AllFrom(s.q, b) && b <= s.now
    ensures AllFrom(Do(s, c).q, b) && b <= Do(s, c).now
  {
    match c
    case Start(msecs, h) => InsertFrom(s.q, Entry(s.now + msecs, h), b);
    case Stop(h) =>
      var k, r := Find(s.q, h), Cancel(s.q, h);
      forall i | 0 <= i < |r| ensures From(r, b, i) { assert From(s.q, b, if i < k then i else i + 1); }
    case Work(ms) =>
  }

  lemma {:induction false} PerformFrom(s: State, cs: seq<Command>, b: int)
    requires AllFrom(s.q, b) && b <= s.now
    ensures AllFrom(Perform(s, cs).q, b) && b <= Perform(s, cs).now
    decreases |cs|
  {
    if cs != [] {
      DoFrom(s, cs[0], b);
      PerformFrom(Do(s, cs[0]), cs[1..], b);
    }
  }

  lemma TailFrom(q: Queue)
    requires Sorted(q) && q != []
    ensures AllFrom(q[1..], q[0].due)
  {
    forall i | 0 <= i < |q[1..]| ensures From(q[1..], q[0].due, i) { assert InOrder(q, 0, i + 1); }
  }

  /** What is left after a round is not due before the timer that fired in it. */
  lemma FiresInOrder(s: State, r: seq<Command>, limit: int)
    requires Base(s, limit) && Due(s, limit)
    ensures AllFrom(Fire(s, r).q, s.q[0].due)
  {
    TailFrom(s.q);
    PerformFrom(Taken(s), r, s.q[0].due);
    RearmFrom(Perform(Taken(s), r), s.q[0]);
  }

  lemma RearmFrom(t: State, e: Entry)
    requires AllFrom(t.q, e.due) && e.due <= t.now
    ensures AllFrom(Rearm(t, e).q, e.due)
  {
    if e.h.Cyclic? { InsertFrom(t.q, Entry(NextDue(e.due, e.h.interval, t.now), e.h), e.due); }
  }

  /** Over the whole call, whatever the handlers do: what fires in a later round is not due before
      what fired earlier. */
  lemma {:induction false} RunInOrder(s: State, limit: int, react: nat -> seq<Command>, m: nat, n: nat)
    requires Base(s, limit) && m < n && Due(After(s, limit, react, m), limit)
    ensures AllFrom(After(s, limit, react, n).q, After(s, limit, react, m).q[0].due)
  {
    var b, t := After(s, limit, react, m).q[0].due, After(s, limit, react, n - 1);
    RunKeeps(s, limit, react, n - 1);
    if m < n - 1 {
      RunInOrder(s, limit, react, m, n - 1);
    }
    RoundFrom(t, react(n - 1), limit, b);
  }

  lemma RoundFrom(s: State, r: seq<Command>, limit: int, b: int)
    requires Base(s, limit) && (AllFrom(s.q, b) || (Due(s, limit) && b == s.q[0].due))
    ensures AllFrom(if Due(s, limit) then Fire(s, r).q else s.q, b)
  {
    if Due(s, limit) {
      assert AllFrom(s.q, b) ==> From(s.q, b, 0);
      FiresInOrder(s, r, limit);
      FromLower(Fire(s, r).q, s.q[0].due, b);
    }
  }

  lemma FromLower(q: Queue, c: int, b: int)
    requires AllFrom(q, c) && b <= c
    ensures AllFrom(q, b)
  {
    forall i | 0 <= i < |q| ensures From(q, b, i) { assert From(q, c, i); }
  }

  // ----- completeness

  function DueOnce(id: int, limit: int): Entry -> nat { (e: Entry) => if e.h.id == id && e.due <= limit then 1 else 0 }

  /** How many entries with this id are due. */
  function DueCount(q: Queue, id: int, limit: int): nat { Sum(q, DueOnce(id, limit)) }

  predicate Spares(c: Command, id: int) { c.Stop? ==> c.h.id != id }

  ghost predicate AllSpare(cs: seq<Command>, id: int) { forall k | 0 <= k < |cs| :: Spares(cs[k], id) }

  /** No handler cancels a timer with this id. */
  ghost predicate NeverStops(react: nat -> seq<Command>, id: int) { forall n :: AllSpare(react(n), id) }

  lemma {:induction false} PerformDue(s: State, cs: seq<Command>, id: int, limit: int)
    requires AllSpare(cs, id)
    ensures DueCount(Perform(s, cs).q, id, limit) >= DueCount(s.q, id, limit)
    decreases |cs|
  {
    if cs != [] {
      assert Spares(cs[0], id);
      match cs[0] {
        case Start(msecs, h) => InsertSum(s.q, Entry(s.now + msecs, h), DueOnce(id, limit));
        case Stop(h) => CancelSum(s.q, h, DueOnce(id, limit));
        case Work(ms) =>
      }
      PerformDue(Do(s, cs[0]), cs[1..], id, limit);
    }
  }

  lemma FireDue(s: State, r: seq<Command>, id: int, limit: int)
    requires Due(s, limit) && AllSpare(r, id)
    ensures DueCount(Fire(s, r).q, id, limit) + (if s.q[0].h.id == id then 1 else 0) >= DueCount(s.q, id, limit)
  {
    PerformDue(Taken(s), r, id, limit);
    var t, e := Perform(Taken(s), r), s.q[0];
    if e.h.Cyclic? { InsertSum(t.q, Entry(NextDue(e.due, e.h.interval, t.now), e.h), DueOnce(id, limit)); }
  }

  lemma {:induction false} FiredOrDue(s: State, limit: int, react: nat -> seq<Command>, id: int, n: nat)
    requires NeverStops(react, id)
    ensures Firings(s, limit, react, Only(id), n) + DueCount(After(s, limit, react, n).q, id, limit)
            >= DueCount(s.q, id, limit)
  {
    if n > 0 {
      FiredOrDue(s, limit, react, id, n - 1);
      assert AllSpare(react(n - 1), id);
      var t := After(s, limit, react, n - 1);
      if Due(t, limit) { FireDue(t, react(n - 1), id, limit); }
    }
  }

  lemma {:induction false} NoneDue(q: Queue, id: int, limit: int)
    requires forall i | 0 <= i < |q| :: q[i].due > limit
    ensures DueCount(q, id, limit) == 0
  {
    if q != [] { NoneDue(q[1..], id, limit); }
  }

  /** Every entry that is due when the call starts, and that no handler cancels, fires in it: there
      are at least as many firings of an id as entries. */
  lemma DueTimersFire(s: State, limit: int, react: nat -> seq<Command>, id: int, n: nat)
    requires Base(s, limit) && NeverStops(react, id) && Over(s, limit, react, n)
    ensures Firings(s, limit, react, Only(id), n) >= DueCount(s.q, id, limit)
  {
    var q := After(s, limit, react, n).q;
    forall i | 0 <= i < |q| ensures q[i].due > limit { NothingDue(s, limit, react, n, i); }
    NoneDue(q, id, limit);
    FiredOrDue(s, limit, react, id, n);
  }

  /** For one-shot timers that no handler cancels or starts to be due at once it is exactly as many. */
  lemma OneShotsFireOnce(s: State, limit: int, react: nat -> seq<Command>, id: int, n: nat)
    requires Base(s, limit) && NeverStops(react, id) && Over(s, limit, react, n)
    requires forall i | 0 <= i < |s.q| && s.q[i].h.id == id :: s.q[i].h.OneShot?
    requires forall k | 0 <= k < n :: !EarlyRound(s, limit, react, Only(id), k)
    ensures Firings(s, limit, react, Only(id), n) == DueCount(s.q, id, limit)
  {
    DueTimersFire(s, limit, react, id, n);
    FiringsBounded(s, limit, react, Only(id), 0, n);
    OneShotTotal(s.q, id, limit);
  }

  lemma {:induction false} OneShotTotal(q: Queue, id: int, limit: int)
    requires forall i | 0 <= i < |q| && q[i].h.id == id :: q[i].h.OneShot?
    ensures Total(q, Only(id), limit) == DueCount(q, id, limit)
  {
    if q != [] { OneShotTotal(q[1..], id, limit); }
  }

  // ----- drift

  /** The entries with this id, in order. */
  function Of(q: Queue, id: int): Queue {
    if q == [] then [] else OneOf(q[0], id) + Of(q[1..], id)
  }

  function OneOf(e: Entry, id: int): Queue { if e.h.id == id then [e] else [] }

  lemma {:induction false} OfCut(q: Queue, k: nat, id: int)
    requires k <= |q|
    ensures Of(q, id) == Of(q[..k], id) + Of(q[k..], id)
    decreases k
  {
    if k == 0 {
      assert q[..0] == [] && q[0..] == q;
    } else {
      OfCut(q[1..], k - 1, id);
      assert q[1..][..k - 1] == q[..k][1..] && q[1..][k - 1..] == q[k..];
      Regroup(OneOf(q[0], id), Of(q[..k][1..], id), Of(q[k..], id));
    }
  }

  lemma Regroup(a: Queue, b: Queue, c: Queue)
    ensures a + (b + c) == (a + b) + c
  {
  }

  lemma InsertOf(q: Queue, e: Entry, id: int)
    ensures e.h.id != id ==> Of(Insert(q, e), id) == Of(q, id)
    ensures e.h.id == id && Of(q, id) == [] ==> Of(Insert(q, e), id) == [e]
  {
    var k, r := Place(q, e.due), Insert(q, e);
    OfCut(r, k, id);
    OfCut(q, k, id);
    assert r[..k] == q[..k] && r[k] == e && r[k..][1..] == q[k..];
  }

  lemma CancelOf(q: Queue, h: Handler, id: int)
    requires h.id != id
    ensures Of(Cancel(q, h), id) == Of(q, id)
  {
    var k, r := Find(q, h), Cancel(q, h);
    if k < |q| {
      OfCut(r, k, id);
      OfCut(q, k, id);
      assert r[..k] == q[..k] && q[k..][1..] == q[k + 1..] && r[k..] == q[k + 1..];
    }
  }

  /** The command has nothing to do with the timer. */
  predicate Ignores(c: Command, id: int) { c.Start? || c.Stop? ==> c.h.id != id }

  ghost predicate AllIgnore(cs: seq<Command>, id: int) { forall k | 0 <= k < |cs| :: Ignores(cs[k], id) }

  lemma {:induction false} PerformOf(s: State, cs: seq<Command>, id: int)
    requires AllIgnore(cs, id)
    ensures Of(Perform(s, cs).q, id) == Of(s.q, id)
    decreases |cs|
  {
    if cs != [] {
      assert Ignores(cs[0], id);
      match cs[0] {
        case Start(msecs, h) => InsertOf(s.q, Entry(s.now + msecs, h), id);
        case Stop(h) => CancelOf(s.q, h, id);
        case Work(ms) =>
      }
      PerformOf(Do(s, cs[0]), cs[1..], id);
    }
  }

  /** When the timer fires, its handler returns before the next firing is due. */
  predicate OnTime(t: State, r: seq<Command>, id: int, limit: int) {
    Due(t, limit) && t.q[0].h.id == id && t.q[0].h.Cyclic? ==>
      Perform(Taken(t), r).now <= t.q[0].due + t.q[0].h.interval
  }

  lemma FireOf(t: State, r: seq<Command>, id: int, e: Entry, limit: int)
    requires Of(t.q, id) == [e] && e.h.Cyclic? && Due(t, limit) && AllIgnore(r, id)
    ensures t.q[0].h.id != id ==> Of(Fire(t, r).q, id) == [e]
    ensures t.q[0].h.id == id ==>
              && t.q[0] == e
              && Of(Fire(t, r).q, id) == [Entry(NextDue(e.due, e.h.interval, Perform(Taken(t), r).now), e.h)]
  {
    var f, u := t.q[0], Perform(Taken(t), r);
    PerformOf(Taken(t), r, id);
    assert Of(t.q, id) == (if f.h.id == id then [f] else []) + Of(Taken(t).q, id);
    if f.h.id == id { assert f == Of(t.q, id)[0] == e && |Of(Taken(t).q, id)| == 0; }
    if f.h.Cyclic? { InsertOf(u.q, Entry(NextDue(f.due, f.h.interval, u.now), f.h), id); }
  }

  /** One call: what the application does before it, the reactions of the handlers, and how many
      rounds the loop takes. */
  datatype Call = Call(before: seq<Command>, react: nat -> seq<Command>, rounds: nat)

  function Begun(s: State, c: Call): State { Perform(s, c.before) }

  function RoundOf(s: State, c: Call, n: nat): State { var b := Begun(s, c); After(b, b.now, c.react, n) }

  function FiredIn(s: State, c: Call, id: int, n: nat): nat {
    var b := Begun(s, c); Firings(b, b.now, c.react, Only(id), n)
  }

  predicate RoundOnTime(s: State, c: Call, id: int, n: nat) {
    OnTime(RoundOf(s, c, n), c.react(n), id, Begun(s, c).now)
  }

  ghost predicate CallOnTime(s: State, c: Call, id: int, n: nat) { forall k | 0 <= k < n :: RoundOnTime(s, c, id, k) }

  ghost predicate LeavesAlone(c: Call, id: int) { AllIgnore(c.before, id) && forall n :: AllIgnore(c.react(n), id) }

  /** The one entry of the timer is due at least `k` intervals after `d`, and no later if and only if
      the timer has been on time. */
  ghost predicate Kept(q: Queue, id: int, d: int, iv: nat, k: nat, onTime: bool) {
    exists x :: KeptAt(q, id, d, iv, k, onTime, x)
  }

  predicate KeptAt(q: Queue, id: int, d: int, iv: nat, k: nat, onTime: bool, x: int) {
    Of(q, id) == [Entry(x, Cyclic(id, iv))] && d + k * iv <= x && (x == d + k * iv <==> onTime)
  }

  ghost predicate CallKept(s: State, c: Call, id: int, d: int, iv: nat, k: nat, before: bool, n: nat) {
    Kept(RoundOf(s, c, n).q, id, d, iv, k + FiredIn(s, c, id, n), before && CallOnTime(s, c, id, n))
  }

  lemma {:induction false} CallDrift(s: State, c: Call, id: int, d: int, iv: nat, k: nat, before: bool, n: nat)
    requires LeavesAlone(c, id) && Kept(s.q, id, d, iv, k, before)
    ensures CallKept(s, c, id, d, iv, k, before, n)
  {
    if n == 0 {
      PerformOf(s, c.before, id);
      var x :| KeptAt(s.q, id, d, iv, k, before, x);
      assert KeptAt(RoundOf(s, c, 0).q, id, d, iv, k + 0, before && CallOnTime(s, c, id, 0), x);
    } else {
      CallDrift(s, c, id, d, iv, k, before, n - 1);
      CallDriftStep(s, c, id, d, iv, k, before, n - 1);
    }
  }

  lemma CallDriftStep(s: State, c: Call, id: int, d: int, iv: nat, k: nat, before: bool, n: nat)
    requires LeavesAlone(c, id) && CallKept(s, c, id, d, iv, k, before, n)
    ensures CallKept(s, c, id, d, iv, k, before, n + 1)
  {
    var j, was := k + FiredIn(s, c, id, n), before && CallOnTime(s, c, id, n);
    var x :| KeptAt(RoundOf(s, c, n).q, id, d, iv, j, was, x);
    RoundDrift(RoundOf(s, c, n), c.react(n), id, d, iv, j, was, Begun(s, c).now, x);
    OnTimeSoFar(s, c, id, n);
  }

  lemma OnTimeSoFar(s: State, c: Call, id: int, n: nat)
    ensures CallOnTime(s, c, id, n + 1) <==> CallOnTime(s, c, id, n) && RoundOnTime(s, c, id, n)
  {
  }

  lemma RoundDrift(t: State, r: seq<Command>, id: int, d: int, iv: nat, k: nat, was: bool, limit: int, x: int)
    requires AllIgnore(r, id) && KeptAt(t.q, id, d, iv, k, was, x)
    ensures var fired := Due(t, limit) && t.q[0].h.id == id;
            Kept(if Due(t, limit) then Fire(t, r).q else t.q, id, d, iv, if fired then k + 1 else k,
                 was && OnTime(t, r, id, limit))
  {
    if Due(t, limit) {
      FireOf(t, r, id, Entry(x, Cyclic(id, iv)), limit);
      if t.q[0].h.id == id {
        var y := NextDue(x, iv, Perform(Taken(t), r).now);
        Later(d, k, iv, x, y);
        assert KeptAt(Fire(t, r).q, id, d, iv, k + 1, was && OnTime(t, r, id, limit), y);
      } else {
        assert KeptAt(Fire(t, r).q, id, d, iv, k, was && OnTime(t, r, id, limit), x);
      }
    } else {
      assert KeptAt(t.q, id, d, iv, k, was && OnTime(t, r, id, limit), x);
    }
  }

  lemma Later(d: int, k: nat, iv: nat, x: int, y: int)
    requires d + k * iv <= x && x + iv <= y
    ensures d + (k + 1) * iv <= y && (y == d + (k + 1) * iv <==> x == d + k * iv && y == x + iv)
  {
    assert (k + 1) * iv == k * iv + iv;
  }

  /** Successive calls. */
  function Calls(s: State, cs: seq<Call>): State
    decreases |cs|
  {
    if cs == [] then s else Calls(RoundOf(s, cs[0], cs[0].rounds), cs[1..])
  }

  function FiredInAll(s: State, cs: seq<Call>, id: int): nat
    decreases |cs|
  {
    if cs == [] then 0
    else FiredIn(s, cs[0], id, cs[0].rounds) + FiredInAll(RoundOf(s, cs[0], cs[0].rounds), cs[1..], id)
  }

  ghost predicate AlwaysOnTime(s: State, cs: seq<Call>, id: int)
    decreases |cs|
  {
    cs == [] || (CallOnTime(s, cs[0], id, cs[0].rounds)
                 && AlwaysOnTime(RoundOf(s, cs[0], cs[0].rounds), cs[1..], id))
  }

  ghost predicate AllLeaveAlone(cs: seq<Call>, id: int) { forall k | 0 <= k < |cs| :: LeavesAlone(cs[k], id) }

  lemma {:induction false} CallsDrift(s: State, cs: seq<Call>, id: int, d: int, iv: nat, k: nat, before: bool)
    requires AllLeaveAlone(cs, id) && Kept(s.q, id, d, iv, k, before)
    ensures Kept(Calls(s, cs).q, id, d, iv, k + FiredInAll(s, cs, id), before && AlwaysOnTime(s, cs, id))
    decreases |cs|
  {
    if cs != [] {
      assert LeavesAlone(cs[0], id);
      var n := cs[0].rounds;
      CallDrift(s, cs[0], id, d, iv, k, before, n);
      CallsDrift(RoundOf(s, cs[0], n), cs[1..], id, d, iv, k + FiredIn(s, cs[0], id, n),
                 before && CallOnTime(s, cs[0], id, n));
    }
  }

  /** No drift, over any number of calls: a cyclic timer that is left alone always has one entry, and
      after `k` firings it is due exactly `k` intervals after its first due time if and only if every
      firing was handled before the next one was due; otherwise it is later. */
  lemma NoDrift(s: State, cs: seq<Call>, id: int, d: int, iv: nat)
    requires Of(s.q, id) == [Entry(d, Cyclic(id, iv))] && AllLeaveAlone(cs, id)
    ensures var p, k := Of(Calls(s, cs).q, id), FiredInAll(s, cs, id);
            && |p| == 1 && p[0].h == Cyclic(id, iv) && d + k * iv <= p[0].due
            && (p[0].due == d + k * iv <==> AlwaysOnTime(s, cs, id))
  {
    assert KeptAt(s.q, id, d, iv, 0, true, d);
    CallsDrift(s, cs, id, d, iv, 0, true);
  }

  /** The timer fires in round `n` of a call. */
  predicate FiresAt(s: State, c: Call, id: int, n: nat) {
    var t := RoundOf(s, c, n); Due(t, Begun(s, c).now) && t.q[0].h.id == id
  }

  /** A cyclic timer that is handled in time is due again one interval after it was due, one that is
      handled too late one interval after its handler has returned. */
  lemma LateRestarts(s: State, c: Call, id: int, d: int, iv: nat, n: nat)
    requires LeavesAlone(c, id) && Of(RoundOf(s, c, n).q, id) == [Entry(d, Cyclic(id, iv))] && FiresAt(s, c, id, n)
    ensures var u := RoundOf(s, c, n + 1);
            Of(u.q, id) == [Entry((if RoundOnTime(s, c, id, n) then d else u.now) + iv, Cyclic(id, iv))]
  {
    FireOf(RoundOf(s, c, n), c.react(n), id, Entry(d, Cyclic(id, iv)), Begun(s, c).now);
  }

  // ----- when a one-shot timer fires

  lemma {:induction false} OfMember(q: Queue, id: int, e: Entry)
    requires Of(q, id) == [e]
    ensures exists i :: 0 <= i < |q| && q[i] == e
  {
    if q[0].h.id != id {
      OfMember(q[1..], id, e);
      var i :| 0 <= i < |q[1..]| && q[1..][i] == e;
      assert q[i + 1] == e;
    } else {
      assert Of(q, id)[0] == q[0];
    }
  }

  /** Of a one-shot timer: it is pending still, or it has fired, once, and not too early. */
  predicate Shot(q: Queue, id: int, d: int, fired: nat, began: int) {
    if fired == 0 then Of(q, id) == [Entry(d, OneShot(id))] else fired == 1 && d <= began && Of(q, id) == []
  }

  lemma FireShot(t: State, r: seq<Command>, id: int, d: int, fired: nat, limit: int)
    requires AllIgnore(r, id) && Due(t, limit) && Shot(t.q, id, d, fired, limit)
    ensures Shot(Fire(t, r).q, id, d, fired + (if t.q[0].h.id == id then 1 else 0), limit)
  {
    var f, u := t.q[0], Perform(Taken(t), r);
    PerformOf(Taken(t), r, id);
    assert Of(t.q, id) == OneOf(f, id) + Of(Taken(t).q, id);
    if f.h.id == id {
      assert Of(t.q, id)[0] == f;
    } else if f.h.Cyclic? {
      InsertOf(u.q, Entry(NextDue(f.due, f.h.interval, u.now), f.h), id);
    }
  }

  lemma {:induction false} ShotRounds(s: State, c: Call, id: int, d: int, n: nat)
    requires LeavesAlone(c, id) && Of(s.q, id) == [Entry(d, OneShot(id))]
    ensures Shot(RoundOf(s, c, n).q, id, d, FiredIn(s, c, id, n), Begun(s, c).now)
  {
    if n == 0 {
      PerformOf(s, c.before, id);
    } else {
      ShotRounds(s, c, id, d, n - 1);
      var t, b := RoundOf(s, c, n - 1), Begun(s, c);
      if Due(t, b.now) {
        FireShot(t, c.react(n - 1), id, d, FiredIn(s, c, id, n - 1), b.now);
      }
    }
  }

  /** The call has come to its end. */
  predicate Ended(s: State, c: Call) { Over(Begun(s, c), Begun(s, c).now, c.react, c.rounds) }

  lemma ShotCall(s: State, c: Call, id: int, d: int)
    requires Sorted(s.q) && LeavesAlone(c, id) && Of(s.q, id) == [Entry(d, OneShot(id))] && Ended(s, c)
    ensures FiredIn(s, c, id, c.rounds) == if d <= Begun(s, c).now then 1 else 0
  {
    ShotRounds(s, c, id, d, c.rounds);
    var b, u := Begun(s, c), RoundOf(s, c, c.rounds);
    BegunSorted(s, c);
    if FiredIn(s, c, id, c.rounds) == 0 {
      OfMember(u.q, id, Entry(d, OneShot(id)));
      var i :| 0 <= i < |u.q| && u.q[i] == Entry(d, OneShot(id));
      NothingDue(b, b.now, c.react, c.rounds, i);
    }
  }

  lemma BegunSorted(s: State, c: Call)
    requires Sorted(s.q)
    ensures Base(Begun(s, c), Begun(s, c).now) && Sorted(RoundOf(s, c, c.rounds).q)
  {
    PerformKeeps(s, c.before, s.now);
    RunKeeps(Begun(s, c), Begun(s, c).now, c.react, c.rounds);
  }

  lemma {:induction false} NoShot(s: State, c: Call, id: int, n: nat)
    requires LeavesAlone(c, id) && Of(s.q, id) == []
    ensures Of(RoundOf(s, c, n).q, id) == [] && FiredIn(s, c, id, n) == 0
  {
    if n == 0 {
      PerformOf(s, c.before, id);
    } else {
      NoShot(s, c, id, n - 1);
      var t := RoundOf(s, c, n - 1);
      if Due(t, Begun(s, c).now) { FireNone(t, c.react(n - 1), id); }
    }
  }

  lemma FireNone(t: State, r: seq<Command>, id: int)
    requires AllIgnore(r, id) && t.q != [] && Of(t.q, id) == []
    ensures Of(Fire(t, r).q, id) == [] && t.q[0].h.id != id
  {
    var f, u := t.q[0], Perform(Taken(t), r);
    PerformOf(Taken(t), r, id);
    assert Of(t.q, id) == OneOf(f, id) + Of(Taken(t).q, id);
    if f.h.Cyclic? { InsertOf(u.q, Entry(NextDue(f.due, f.h.interval, u.now), f.h), id); }
  }

  lemma {:induction false} NoShots(s: State, cs: seq<Call>, id: int)
    requires AllLeaveAlone(cs, id) && Of(s.q, id) == []
    ensures FiredInAll(s, cs, id) == 0
    decreases |cs|
  {
    if cs != [] {
      assert LeavesAlone(cs[0], id);
      NoShot(s, cs[0], id, cs[0].rounds);
      NoShots(RoundOf(s, cs[0], cs[0].rounds), cs[1..], id);
    }
  }

  /** One of the calls begins at `d` or later. */
  predicate Reaches(s: State, cs: seq<Call>, d: int)
    decreases |cs|
  {
    cs != [] && (d <= Begun(s, cs[0]).now || Reaches(RoundOf(s, cs[0], cs[0].rounds), cs[1..], d))
  }

  predicate AllEnd(s: State, cs: seq<Call>)
    decreases |cs|
  {
    cs == [] || (Ended(s, cs[0]) && AllEnd(RoundOf(s, cs[0], cs[0].rounds), cs[1..]))
  }

  lemma {:induction false} ShotCalls(s: State, cs: seq<Call>, id: int, d: int)
    requires Sorted(s.q) && AllLeaveAlone(cs, id) && Of(s.q, id) == [Entry(d, OneShot(id))]
    ensures !Reaches(s, cs, d) ==> FiredInAll(s, cs, id) == 0
    ensures AllEnd(s, cs) ==> FiredInAll(s, cs, id) == if Reaches(s, cs, d) then 1 else 0
    decreases |cs|
  {
    if cs != [] {
      var c := cs[0];
      assert LeavesAlone(c, id);
      var t := RoundOf(s, c, c.rounds);
      BegunSorted(s, c);
      ShotRounds(s, c, id, d, c.rounds);
      if FiredIn(s, c, id, c.rounds) == 0 { ShotCalls(t, cs[1..], id, d); } else { NoShots(t, cs[1..], id); }
      if Ended(s, c) { ShotCall(s, c, id, d); }
    }
  }

  /** A one-shot timer started with a delay, over any calls that follow and leave it alone: it does not
      fire as long as none has begun at or after the moment it is due; and if the calls end, it fires
      exactly once, in the first that does. */
  lemma FiresWhenDue(s: State, msecs: nat, id: int, cs: seq<Call>)
    requires Sorted(s.q) && Of(s.q, id) == [] && AllLeaveAlone(cs, id)
    ensures var t := Do(s, Start(msecs, OneShot(id)));
            && (!Reaches(t, cs, s.now + msecs) ==> FiredInAll(t, cs, id) == 0)
            && (AllEnd(t, cs) ==> FiredInAll(t, cs, id) == if Reaches(t, cs, s.now + msecs) then 1 else 0)
  {
    var e := Entry(s.now + msecs, OneShot(id));
    InsertOf(s.q, e, id);
    InsertSorted(s.q, e);
    ShotCalls(Do(s, Start(msecs, OneShot(id))), cs, id, s.now + msecs);
  }

  lemma CancelOwn(q: Queue, id: int, e: Entry)
    requires Of(q, id) == [e]
    ensures Of(Cancel(q, e.h), id) == []
  {
    var k, r := Find(q, e.h), Cancel(q, e.h);
    OfMember(q, id, e);
    OfCut(q, k, id);
    OfCut(r, k, id);
    assert r[..k] == q[..k] && q[k..][1..] == q[k + 1..] && r[k..] == q[k + 1..];
    OfOwner(q, id, e);
    assert |Of(q, id)| == |Of(q[..k], id)| + 1 + |Of(q[k + 1..], id)|;
  }

  lemma {:induction false} OfOwner(q: Queue, id: int, e: Entry)
    requires e in Of(q, id)
    ensures e.h.id == id
  {
    if e !in OneOf(q[0], id) { OfOwner(q[1..], id, e); }
  }

  /** Cancelled in time, it never fires. */
  lemma CancelledNeverFires(s: State, id: int, d: int, cs: seq<Call>)
    requires Of(s.q, id) == [Entry(d, OneShot(id))] && AllLeaveAlone(cs, id)
    ensures FiredInAll(Do(s, Stop(OneShot(id))), cs, id) == 0
  {
    CancelOwn(s.q, id, Entry(d, OneShot(id)));
    NoShots(Do(s, Stop(OneShot(id))), cs, id);
  }
}
