/** timeouts.c itself: the same timer list with 32-bit times that wrap around.

    Every time is stored modulo 2^32 and compared by the sign of a difference. The class
    carries the true, unbounded due times along and shows that each operation does to the
    list what the operations of `TimerQueue` do to the true times, as long as the times that
    are compared lie less than 2^31 ms apart. */
module Timeouts {
  import opened Basics
  import opened TimerQueue

  const MAX_TIMEOUT: int := 0x7fff_ffff
  const QUARTER: int := 0x3fff_ffff      // LWIP_UINT32_MAX / 4, the longest delay
  const INFINITE: int := 0xffff_ffff     // SYS_TIMEOUTS_SLEEPTIME_INFINITE

  predicate TimeLessThan(t: int, compareTo: int) { U32(t - compareTo) > MAX_TIMEOUT }

  /** When the 32-bit comparison tells two true times apart: with the later time first if the
      difference is at most 2^31 - 1 modulo 2^32, with the earlier one first if it is at most 2^31. */
  lemma FaithfulIff(a: int, b: int)
    ensures (TimeLessThan(U32(a), U32(b)) <==> a < b) <==>
            if a >= b then U32(a - b) <= MAX_TIMEOUT else U32(b - a - 1) <= MAX_TIMEOUT
  {
    WrapDifference(a, b);
    WrapNegative(b - a);
  }

  lemma WrapNegative(d: int)
    ensures U32(-d) + U32(d - 1) == TWO32 - 1
  {
    assert -d == (-1 - (d - 1) / TWO32) * TWO32 + (TWO32 - 1 - (d - 1) % TWO32);
    WrapBy(TWO32 - 1 - (d - 1) % TWO32, -1 - (d - 1) / TWO32);
  }

  /** In particular, of times less than 2^32 apart, exactly on a half-open window of 2^32. */
  lemma Faithful(a: int, b: int)
    requires a - b < TWO32 && b - a < TWO32
    ensures (TimeLessThan(U32(a), U32(b)) <==> a < b) <==> -MAX_TIMEOUT - 1 <= a - b <= MAX_TIMEOUT
  {
    FaithfulIff(a, b);
  }

  // ----- windows of true time

  predicate Within(q: Queue, lo: int, hi: int, i: nat)
    requires i < |q|
  {
    lo <= q[i].due <= hi
  }

  /** All pending deadlines lie in [lo, hi]. */
  ghost predicate Window(q: Queue, lo: int, hi: int) {
    forall i | 0 <= i < |q| :: Within(q, lo, hi, i)
  }

  lemma InsertWindow(q: Queue, e: Entry, lo: int, hi: int)
    requires Window(q, lo, hi) && lo <= e.due <= hi
    ensures Window(Insert(q, e), lo, hi)
  {
    var k, r := Place(q, e.due), Insert(q, e);
    forall i | 0 <= i < |r| ensures Within(r, lo, hi, i) {
      if i != k { assert Within(q, lo, hi, if i < k then i else i - 1); }
    }
  }

  lemma CancelWindow(q: Queue, h: Handler, lo: int, hi: int)
    requires Window(q, lo, hi)
    ensures Window(Cancel(q, h), lo, hi)
  {
    var k, r := Find(q, h), Cancel(q, h);
    forall i | 0 <= i < |r| ensures Within(r, lo, hi, i) {
      assert Within(q, lo, hi, if i < k then i else i + 1);
    }
  }

  lemma TailWindow(q: Queue, lo: int, hi: int)
    requires Window(q, lo, hi) && q != []
    ensures Window(q[1..], lo, hi)
  {
    forall i | 0 <= i < |q[1..]| ensures Within(q[1..], lo, hi, i) { assert Within(q, lo, hi, i + 1); }
  }

  // ----- rebasing

  function Rebase(q: Queue, now: int): (r: Queue)
    ensures |r| == |q|
  {
    seq(|q|, i requires 0 <= i < |q| => Entry(q[i].due - q[0].due + now, q[i].h))
  }

  /** Rebasing moves the next deadline to the present and keeps every gap, hence the order. */
  lemma RebaseKeepsGaps(q: Queue, now: int)
    requires Sorted(q)
    ensures Sorted(Rebase(q, now)) && (q != [] ==> Rebase(q, now)[0].due == now)
    ensures forall i, j | 0 <= i < |q| && 0 <= j < |q| ::
              && Rebase(q, now)[i].due - Rebase(q, now)[j].due == q[i].due - q[j].due
              && Rebase(q, now)[i].h == q[i].h
  {
    var r := Rebase(q, now);
    forall i, j | 0 <= i < j < |r| ensures InOrder(r, i, j) { assert InOrder(q, i, j); }
  }

  // ----- one call

  /** How long a handler takes. */
  function Worked(cs: seq<Command>): nat {
    if cs == [] then 0 else (if cs[0].Work? then cs[0].ms else 0) + Worked(cs[1..])
  }

  /** How long the handlers of the first `n` rounds take. */
  function Elapsed(react: nat -> seq<Command>, n: nat): nat {
    if n == 0 then 0 else Elapsed(react, n - 1) + Worked(react(n - 1))
  }

  /** The handlers called in the first `n` rounds, in order. */
  function Called(s: State, limit: int, react: nat -> seq<Command>, n: nat): seq<Handler> {
    if n == 0 then []
    else
      var t := After(s, limit, react, n - 1);
      Called(s, limit, react, n - 1) + (if Due(t, limit) then [t.q[0].h] else [])
  }

  function HowMany(hs: seq<Handler>, who: Who): nat {
    if hs == [] then 0
    else HowMany(hs[..|hs| - 1], who) + (if Concerns(who, hs[|hs| - 1]) then 1 else 0)
  }

  lemma OneMoreCalled(hs: seq<Handler>, h: Handler, who: Who)
    ensures HowMany(hs + [h], who) == HowMany(hs, who) + if Concerns(who, h) then 1 else 0
  {
    assert (hs + [h])[..|hs|] == hs;
  }

  /** These are all that fire. */
  lemma {:induction false} CalledCounts(s: State, limit: int, react: nat -> seq<Command>, who: Who, n: nat)
    ensures HowMany(Called(s, limit, react, n), who) == Firings(s, limit, react, who, n)
    ensures |Called(s, limit, react, n)| == Firings(s, limit, react, Anyone, n)
  {
    if n > 0 {
      CalledCounts(s, limit, react, who, n - 1);
      var t, c := After(s, limit, react, n - 1), Called(s, limit, react, n - 1);
      if Due(t, limit) { OneMoreCalled(c, t.q[0].h, who); } else { assert c + [] == c; }
    }
  }

  predicate Allowed(c: Command) {
    c.Start? ==> c.msecs <= QUARTER && (c.h.Cyclic? ==> c.h.interval <= QUARTER)
  }

  ghost predicate AllAllowed(cs: seq<Command>) { forall k | 0 <= k < |cs| :: Allowed(cs[k]) }

  /** Round `n` starts timers with admissible delays, and up to its end `spent` ms have passed at most. */
  ghost predicate InTime(react: nat -> seq<Command>, spent: nat, n: nat) {
    AllAllowed(react(n)) && Elapsed(react, n + 1) <= spent
  }

  /** Every round of the call is like that. */
  ghost predicate WithinTime(s: State, limit: int, react: nat -> seq<Command>, spent: nat) {
    forall n | !Over(s, limit, react, n) :: InTime(react, spent, n)
  }

  predicate ShortAt(q: Queue, i: nat)
    requires i < |q|
  {
    q[i].h.Cyclic? ==> q[i].h.interval <= QUARTER
  }

  ghost predicate Short(q: Queue) { forall i | 0 <= i < |q| :: ShortAt(q, i) }

  lemma InsertShort(q: Queue, e: Entry)
    requires Short(q) && (e.h.Cyclic? ==> e.h.interval <= QUARTER)
    ensures Short(Insert(q, e))
  {
    var k, r := Place(q, e.due), Insert(q, e);
    forall i | 0 <= i < |r| ensures ShortAt(r, i) {
      if i != k { assert ShortAt(q, if i < k then i else i - 1); }
    }
  }

  lemma CancelShort(q: Queue, h: Handler)
    requires Short(q)
    ensures Short(Cancel(q, h))
  {
    var k, r := Find(q, h), Cancel(q, h);
    forall i | 0 <= i < |r| ensures ShortAt(r, i) { assert ShortAt(q, if i < k then i else i + 1); }
  }

  lemma {:induction false} CalledSettled(s: State, limit: int, react: nat -> seq<Command>, m: nat, n: nat)
    requires m <= n && Over(s, limit, react, m)
    ensures Called(s, limit, react, n) == Called(s, limit, react, m)
  {
    if m < n {
      CalledSettled(s, limit, react, m, n - 1);
      Settled(s, limit, react, m, n - 1);
    }
  }

  lemma {:induction false} PlaceUnique(q: Queue, due: int, k: nat)
    requires k <= |q| && (forall i | 0 <= i < k :: q[i].due <= due) && (k < |q| ==> due < q[k].due)
    ensures k == Place(q, due)
  {
    if k > 0 { PlaceUnique(q[1..], due, k - 1); }
  }

  // ----- the list

  datatype Timeo = Timeo(time: int, h: Handler)

  predicate Stands(list: seq<Timeo>, q: Queue, i: nat)
    requires i < |list| == |q|
  {
    list[i] == Timeo(U32(q[i].due), q[i].h)
  }

  ghost predicate Encodes(list: seq<Timeo>, q: Queue) {
    |list| == |q| && forall i | 0 <= i < |q| :: Stands(list, q, i)
  }

  lemma InsertEncodes(list: seq<Timeo>, q: Queue, e: Entry, k: nat)
    requires Encodes(list, q) && k == Place(q, e.due)
    ensures Encodes(list[..k] + [Timeo(U32(e.due), e.h)] + list[k..], Insert(q, e))
  {
    var l, r := list[..k] + [Timeo(U32(e.due), e.h)] + list[k..], Insert(q, e);
    forall i | 0 <= i < |r| ensures Stands(l, r, i) {
      if i != k { assert Stands(list, q, if i < k then i else i - 1); }
    }
  }

  lemma CancelEncodes(list: seq<Timeo>, q: Queue, k: nat)
    requires Encodes(list, q) && k < |q| && k == Find(q, q[k].h)
    ensures Encodes(list[..k] + list[k + 1..], Cancel(q, q[k].h))
  {
    var l, r := list[..k] + list[k + 1..], Cancel(q, q[k].h);
    forall i | 0 <= i < |r| ensures Stands(l, r, i) { assert Stands(list, q, if i < k then i else i + 1); }
  }

  lemma TailEncodes(list: seq<Timeo>, q: Queue)
    requires Encodes(list, q) && q != []
    ensures Encodes(list[1..], q[1..])
  {
    forall i | 0 <= i < |q[1..]| ensures Stands(list[1..], q[1..], i) { assert Stands(list, q, i + 1); }
  }

  /** The walk of sys_timeout_abs: the comparison against entry `i` is faithful. */
  lemma ComparesAt(list: seq<Timeo>, q: Queue, due: int, lo: int, hi: int, i: nat)
    requires Encodes(list, q) && Window(q, lo, hi) && lo <= due <= hi <= lo + MAX_TIMEOUT && i < |q|
    ensures TimeLessThan(U32(due), list[i].time) <==> due < q[i].due
  {
    assert Stands(list, q, i) && Within(q, lo, hi, i);
    Faithful(due, q[i].due);
  }

  class TimerList {
    var nextTimeout: seq<Timeo>
    var currentDue: int            // current_timeout_due_time
    var now: int                   // true time; the code reads it through SysNow
    ghost var q: Queue             // the list with true due times

    ghost predicate Valid()
      reads this
    {
      Encodes(nextTimeout, q) && Sorted(q)
    }

    ghost function State(): State
      reads this
    {
      TimerQueue.State(now, q)
    }

    constructor (time: int)
      ensures Valid() && q == [] && now == time
    {
      nextTimeout, currentDue, now, q := [], 0, time, [];
    }

    method SysNow() returns (r: int)
      ensures r == U32(now)
    {
      r := U32(now);
    }

    /** sys_timeout_abs. */
    method TimeoutAbs(time: int, h: Handler, ghost due: int, ghost lo: int, ghost hi: int)
      requires Valid() && time == U32(due)
      requires Window(q, lo, hi) && lo <= due <= hi <= lo + MAX_TIMEOUT
      modifies `nextTimeout, `q
      ensures Valid() && q == Insert(old(q), Entry(due, h)) && Window(q, lo, hi)
    {
      var k := 0;
      if nextTimeout != [] {
        ComparesAt(nextTimeout, q, due, lo, hi, 0);
        if !TimeLessThan(time, nextTimeout[0].time) {
          k := 1;
          while k < |nextTimeout| && !TimeLessThan(time, nextTimeout[k].time)
            invariant 1 <= k <= |nextTimeout| && nextTimeout == old(nextTimeout) && q == old(q)
            invariant forall i | 0 <= i < k :: q[i].due <= due
          {
            ComparesAt(nextTimeout, q, due, lo, hi, k);
            k := k + 1;
          }
          if k < |nextTimeout| { ComparesAt(nextTimeout, q, due, lo, hi, k); }
        }
      }
      PlaceUnique(q, due, k);
      InsertEncodes(nextTimeout, q, Entry(due, h), k);
      InsertSorted(q, Entry(due, h));
      InsertWindow(q, Entry(due, h), lo, hi);
      nextTimeout := nextTimeout[..k] + [Timeo(time, h)] + nextTimeout[k..];
      q := Insert(q, Entry(due, h));
    }

    /** sys_timeout. */
    method Timeout(msecs: nat, h: Handler, ghost lo: int, ghost hi: int)
      requires Valid() && msecs <= QUARTER
      requires Window(q, lo, hi) && lo <= now && now + msecs <= hi <= lo + MAX_TIMEOUT
      modifies `nextTimeout, `q
      ensures Valid() && State() == Do(old(State()), Start(msecs, h)) && Window(q, lo, hi)
      ensures multiset(q) == multiset(old(q)) + multiset{Entry(now + msecs, h)}
    {
      InsertExact(q, Entry(now + msecs, h));
      var clock := SysNow();
      WrapSum(now, msecs);
      TimeoutAbs(U32(clock + msecs), h, now + msecs, lo, hi);
    }

    /** sys_untimeout. */
    method Untimeout(h: Handler)
      requires Valid()
      modifies `nextTimeout, `q
      ensures Valid() && State() == Do(old(State()), Stop(h))
      ensures forall i | IsFirst(old(q), h, i) :: q == old(q)[..i] + old(q)[i + 1..]
      ensures (forall i | 0 <= i < |old(q)| :: old(q)[i].h != h) ==> q == old(q)
    {
      var k := 0;
      while k < |nextTimeout| && nextTimeout[k].h != h
        invariant k <= |nextTimeout| && nextTimeout == old(nextTimeout) && q == old(q)
        invariant forall i | 0 <= i < k :: q[i].h != h
      {
        assert Stands(nextTimeout, q, k);
        k := k + 1;
      }
      FindUnique(q, h, k) by {
        assert k < |q| ==> Stands(nextTimeout, q, k);
      }
      CancelSorted(q, h);
      if k < |nextTimeout| {
        CancelEncodes(nextTimeout, q, k);
        nextTimeout := nextTimeout[..k] + nextTimeout[k + 1..];
      }
      forall i | IsFirst(q, h, i) ensures Cancel(q, h) == q[..i] + q[i + 1..] { CancelExact(q, h, i); }
      q := Cancel(q, h);
    }

    /** sys_restart_timeouts. */
    method RestartTimeouts()
      requires Valid()
      modifies `nextTimeout, `q
      ensures Valid() && q == Rebase(old(q), now)
    {
      if nextTimeout == [] {
        assert q == [] == Rebase(q, now);
        return;
      }
      var clock := SysNow();
      var base := nextTimeout[0].time;
      var i := 0;
      ghost var list, r := nextTimeout, Rebase(q, now);
      while i < |nextTimeout|
        invariant i <= |nextTimeout| == |list|
        invariant forall j | 0 <= j < i :: Stands(nextTimeout, r, j)
        invariant nextTimeout[i..] == list[i..]
        invariant q == old(q)
      {
        assert Stands(list, q, i) && Stands(list, q, 0) && nextTimeout[i] == nextTimeout[i..][0] == list[i];
        RebaseWraps(q[i].due, q[0].due, now);
        ghost var before := nextTimeout;
        nextTimeout := nextTimeout[i := nextTimeout[i].(time := U32(U32(nextTimeout[i].time - base) + clock))];
        forall j | 0 <= j <= i ensures Stands(nextTimeout, r, j) { assert j < i ==> Stands(before, r, j); }
        i := i + 1;
      }
      RebaseKeepsGaps(q, now);
      q := r;
    }

    /** sys_timeouts_sleeptime: the time until the next deadline, 0 when it has passed. */
    method SleepTime() returns (r: int)
      requires Valid()
      requires q != [] ==> -MAX_TIMEOUT - 1 <= q[0].due - now <= MAX_TIMEOUT
      ensures r == if q == [] then INFINITE else if q[0].due < now then 0 else q[0].due - now
    {
      if nextTimeout == [] { return INFINITE; }
      var clock := SysNow();
      assert Stands(nextTimeout, q, 0);
      Faithful(q[0].due, now);
      if TimeLessThan(nextTimeout[0].time, clock) {
        r := 0;
      } else {
        WrapDifference(q[0].due, now);
        r := U32(nextTimeout[0].time - clock);
      }
    }

    method DoCommand(c: Command, ghost lo: int, ghost hi: int)
      requires Valid() && Short(q) && Allowed(c)
      requires Window(q, lo, hi) && lo <= now && now + Worked([c]) + QUARTER <= hi <= lo + MAX_TIMEOUT
      modifies `nextTimeout, `q, `now
      ensures Valid() && Short(q) && Window(q, lo, hi)
      ensures State() == Do(old(State()), c) && now == old(now) + Worked([c])
    {
      match c
      case Start(msecs, h) =>
        InsertShort(q, Entry(now + msecs, h));
        Timeout(msecs, h, lo, hi);
      case Stop(h) =>
        CancelShort(q, h);
        CancelWindow(q, h, lo, hi);
        Untimeout(h);
      case Work(ms) =>
        now := now + ms;
    }

    /** What happens inside a handler. */
    method RunHandler(r: seq<Command>, ghost lo: int, ghost hi: int)
      requires Valid() && Short(q) && AllAllowed(r)
      requires Window(q, lo, hi) && lo <= now && now + Worked(r) + QUARTER <= hi <= lo + MAX_TIMEOUT
      modifies `nextTimeout, `q, `now
      ensures Valid() && Short(q) && Window(q, lo, hi)
      ensures State() == Perform(old(State()), r) && now == old(now) + Worked(r)
    {
      ghost var s := State();
      var i := 0;
      while i < |r|
        invariant i <= |r| && Valid() && Short(q) && Window(q, lo, hi)
        invariant lo <= now && now + Worked(r[i..]) == old(now) + Worked(r)
        invariant Perform(State(), r[i..]) == Perform(s, r)
      {
        assert Allowed(r[i]);
        PerformStep(State(), r, i);
        DoCommand(r[i], lo, hi);
        i := i + 1;
      }
    }

    /** The second half of lwip_cyclic_timer, after the handler has returned. */
    method Again(h: Handler, ghost due: int, ghost lo: int, ghost hi: int)
      requires Valid() && Short(q) && h.Cyclic? && h.interval <= QUARTER && currentDue == U32(due)
      requires Window(q, lo, hi) && lo <= due <= now && now + QUARTER <= hi <= lo + MAX_TIMEOUT
      modifies `nextTimeout, `q
      ensures Valid() && Short(q) && Window(q, lo, hi) && State() == Rearm(old(State()), Entry(due, h))
    {
      var clock := SysNow();
      var next := U32(currentDue + h.interval);
      WrapSum(due, h.interval);
      Faithful(due + h.interval, now);
      InsertShort(q, Entry(NextDue(due, h.interval, now), h));
      if TimeLessThan(next, clock) {
        WrapSum(now, h.interval);
        TimeoutAbs(U32(clock + h.interval), h, now + h.interval, lo, hi);
      } else {
        TimeoutAbs(next, h, due + h.interval, lo, hi);
      }
    }

    /** Take the head off the list. */
    method TakeHead(ghost lo: int, ghost hi: int) returns (h: Handler, ghost due: int)
      requires Valid() && Short(q) && q != [] && Window(q, lo, hi)
      modifies `nextTimeout, `q, `currentDue
      ensures Valid() && Short(q) && Window(q, lo, hi) && State() == Taken(old(State()))
      ensures Entry(due, h) == old(q[0]) && currentDue == U32(due) && lo <= due
      ensures h.Cyclic? ==> h.interval <= QUARTER
    {
      due := q[0].due;
      assert Stands(nextTimeout, q, 0) && Within(q, lo, hi, 0) && ShortAt(q, 0);
      h, currentDue := nextTimeout[0].h, nextTimeout[0].time;
      TailOk(nextTimeout, q, lo, hi);
      nextTimeout, q := nextTimeout[1..], q[1..];
    }

    /** One round of sys_check_timeouts: the head, known to be due, is taken off and handled. */
    method FireHead(r: seq<Command>, ghost lo: int, ghost hi: int) returns (h: Handler)
      requires Valid() && Short(q) && q != [] && AllAllowed(r)
      requires Window(q, lo, hi) && q[0].due <= now && now + Worked(r) + QUARTER <= hi <= lo + MAX_TIMEOUT
      modifies this
      ensures Valid() && Short(q) && Window(q, lo, hi) && h == old(q[0].h)
      ensures State() == Fire(old(State()), r) && now == old(now) + Worked(r)
    {
      ghost var due;
      h, due := TakeHead(lo, hi);
      RunHandler(r, lo, hi);
      if h.Cyclic? {
        Again(h, due, lo, hi);
      }
    }

    /** The two tests at the top of the loop. */
    method HeadDue(clock: int, ghost limit: int, ghost lo: int, ghost hi: int) returns (due: bool)
      requires Valid() && clock == U32(limit)
      requires Window(q, lo, hi) && lo <= limit <= hi <= lo + MAX_TIMEOUT
      ensures due == Due(State(), limit)
    {
      if nextTimeout == [] { return false; }
      assert Stands(nextTimeout, q, 0) && Within(q, lo, hi, 0);
      Faithful(limit, q[0].due);
      due := !TimeLessThan(clock, nextTimeout[0].time);
    }

    /** The call that started in `s` has come to round `n`. */
    ghost predicate AtRound(s: State, react: nat -> seq<Command>, lo: int, spent: nat, n: nat)
      reads this
    {
      && Valid() && Short(q) && Window(q, lo, s.now + spent + QUARTER)
      && State() == After(s, s.now, react, n) && now == s.now + Elapsed(react, n)
    }

    /** One iteration of the loop. */
    method Round(clock: int, react: nat -> seq<Command>, n: nat, ghost s: State, ghost lo: int, ghost spent: nat)
      returns (due: bool, h: seq<Handler>)
      requires clock == U32(s.now) && AtRound(s, react, lo, spent, n) && WithinTime(s, s.now, react, spent)
      requires lo <= s.now && s.now - lo + spent <= 0x4000_0000
      modifies this
      ensures due == !Over(s, s.now, react, n) && AtRound(s, react, lo, spent, if due then n + 1 else n)
      ensures Called(s, s.now, react, n + 1) == Called(s, s.now, react, n) + h
    {
      ghost var hi := s.now + spent + QUARTER;
      due := HeadDue(clock, s.now, lo, hi);
      if !due { return due, []; }
      assert InTime(react, spent, n);
      var first := FireHead(react(n), lo, hi);
      h := [first];
    }

    /** sys_check_timeouts. The handlers take `spent` ms at most in the whole call, and the
        oldest pending deadline is so little overdue that all times stay within 2^31 ms. */
    method CheckTimeouts(react: nat -> seq<Command>, ghost lo: int, ghost spent: nat)
      returns (called: seq<Handler>)
      requires Valid() && Short(q) && Ends(State(), now, react) && WithinTime(State(), now, react, spent)
      requires lo <= now && Window(q, lo, now + spent + QUARTER) && now - lo + spent <= 0x4000_0000
      modifies this
      ensures Valid()
      ensures forall n | Over(old(State()), old(now), react, n) ::
                && State() == After(old(State()), old(now), react, n)
                && called == Called(old(State()), old(now), react, n)
    {
      var clock := SysNow();
      ghost var s := State();
      ghost var end: nat :| Over(s, s.now, react, end);
      var round, due, h := 0, true, [];
      called := [];
      while due
        invariant AtRound(s, react, lo, spent, round) && called == Called(s, s.now, react, round)
        invariant if due then round <= end else Over(s, s.now, react, round)
        decreases due, end - round
      {
        due, h := Round(clock, react, round, s, lo, spent);
        if due { called, round := called + h, round + 1; }
      }
      FinishedOnce(s, s.now, react, round);
    }
  }

  lemma {:induction false} FindUnique(q: Queue, h: Handler, k: nat)
    requires k <= |q| && (forall i | 0 <= i < k :: q[i].h != h) && (k < |q| ==> q[k].h == h)
    ensures k == Find(q, h)
  {
    if k > 0 { FindUnique(q[1..], h, k - 1); }
  }

  lemma PerformStep(s: State, cs: seq<Command>, i: nat)
    requires i < |cs|
    ensures Perform(s, cs[i..]) == Perform(Do(s, cs[i]), cs[i + 1..])
    ensures Worked(cs[i..]) == Worked([cs[i]]) + Worked(cs[i + 1..])
  {
    assert cs[i..][1..] == cs[i + 1..] && [cs[i]][1..] == [];
  }

  lemma RebaseWraps(due: int, base: int, now: int)
    ensures U32(U32(U32(due) - U32(base)) + U32(now)) == U32(due - base + now)
  {
    WrapDifference(due, base);
    WrapSum(due - base, U32(now));
    WrapSum(now, due - base);
  }

  lemma TailOk(list: seq<Timeo>, q: Queue, lo: int, hi: int)
    requires Encodes(list, q) && q != [] && Sorted(q) && Short(q) && Window(q, lo, hi)
    ensures Encodes(list[1..], q[1..]) && Sorted(q[1..]) && Short(q[1..]) && Window(q[1..], lo, hi)
  {
    TailEncodes(list, q);
    TailWindow(q, lo, hi);
    var r := q[1..];
    forall i, j | 0 <= i < j < |r| ensures InOrder(r, i, j) { assert InOrder(q, i + 1, j + 1); }
    forall i | 0 <= i < |r| ensures ShortAt(r, i) { assert ShortAt(q, i + 1); }
  }

  lemma Finished(s: State, limit: int, react: nat -> seq<Command>, m: nat, n: nat)
    requires Over(s, limit, react, m) && Over(s, limit, react, n)
    ensures After(s, limit, react, m) == After(s, limit, react, n)
    ensures Called(s, limit, react, m) == Called(s, limit, react, n)
  {
    if m <= n {
      Settled(s, limit, react, m, n);
      CalledSettled(s, limit, react, m, n);
    } else {
      Settled(s, limit, react, n, m);
      CalledSettled(s, limit, react, n, m);
    }
  }

  lemma FinishedOnce(s: State, limit: int, react: nat -> seq<Command>, m: nat)
    requires Over(s, limit, react, m)
    ensures forall n | Over(s, limit, react, n) ::
              && After(s, limit, react, m) == After(s, limit, react, n)
              && Called(s, limit, react, m) == Called(s, limit, react, n)
  {
    forall n | Over(s, limit, react, n)
      ensures After(s, limit, react, m) == After(s, limit, react, n)
      ensures Called(s, limit, react, m) == Called(s, limit, react, n)
    {
      Finished(s, limit, react, m, n);
    }
  }
}
