/** The two TCP timer functions of tcp.c: walks over the list of active connections during
    which application callbacks may change that very list.

    Control blocks (PCBs) are named by their addresses, so an address can be freed and
    allocated again. Which PCBs a tick wants to remove or to call back is left open, and so is
    what the callbacks do: register, abort, park and allocate PCBs in any order. */
module TcpTimer {
  import opened IdList

  type Pcb = Id

  datatype Command =
    | Register(p: Pcb)     // TCP_REG_ACTIVE, as in tcp_connect
    | Abort(p: Pcb)        // tcp_abandon: off its list and freed
    | Park(p: Pcb)         // TCP_RMV_ACTIVE without freeing, as on the way to TIME_WAIT
    | Alloc(p: Pcb)        // tcp_alloc returned this address

  /** What a tick does with one PCB. */
  datatype Verdict =
    | Remove(commands: seq<Command>)     // drop it and call the error callback
    | Call(commands: seq<Command>)       // call the poll or receive callback
    | Quiet

  /** The active list, the tick number each PCB was last handled in, the addresses freed since
      the tick began, and the flag tcp_active_pcbs_changed. */
  datatype Table = Table(active: seq<Pcb>, stamps: map<Pcb, int>, gone: set<Pcb>, changed: bool)

  predicate Known(active: seq<Pcb>, stamps: map<Pcb, int>, i: nat)
    requires i < |active|
  {
    active[i] in stamps
  }

  ghost predicate Sound(t: Table) {
    Distinct(t.active) && forall i | 0 <= i < |t.active| :: Known(t.active, t.stamps, i)
  }

  /** TCP_RMV_ACTIVE; the flag is set whether or not the PCB was on the list. */
  function Unlink(t: Table, p: Pcb): Table { t.(active := Without(t.active, p), changed := true) }

  function Forget(t: Table, p: Pcb): Table { t.(stamps := t.stamps - {p}, gone := t.gone + {p}) }

  /** One call from inside a callback; calls that name no such PCB have no effect. */
  function Do(t: Table, ctr: int, c: Command): Table {
    match c
    case Register(p) =>
      if p in t.stamps && p !in t.active then t.(active := [p] + t.active, changed := true) else t
    case Abort(p) =>
      if p !in t.stamps then t else if p in t.active then Forget(Unlink(t, p), p) else Forget(t, p)
    case Park(p) => Unlink(t, p)
    case Alloc(p) => if p in t.stamps then t else t.(stamps := t.stamps[p := ctr])
  }

  lemma UnlinkSound(t: Table, p: Pcb)
    requires Sound(t)
    ensures Sound(Unlink(t, p)) && p !in Unlink(t, p).active
  {
    var u := Unlink(t, p);
    WithoutDistinct(t.active, p);
    forall i | 0 <= i < |u.active| ensures Known(u.active, u.stamps, i) {
      if u.active[i] != p {
        WithoutMembers(t.active, p, u.active[i]);
        var j :| 0 <= j < |t.active| && t.active[j] == u.active[i];
        assert Known(t.active, t.stamps, j);
      }
    }
  }

  lemma DoSound(t: Table, ctr: int, c: Command)
    requires Sound(t)
    ensures Sound(Do(t, ctr, c))
    ensures Do(t, ctr, c).changed || Do(t, ctr, c).active == t.active
    ensures t.changed ==> Do(t, ctr, c).changed
  {
    var u := Do(t, ctr, c);
    match c
    case Register(p) =>
      if u != t {
        PushDistinct(t.active, p);
        forall i | 0 <= i < |u.active| ensures Known(u.active, u.stamps, i) {
          assert i > 0 ==> Known(t.active, t.stamps, i - 1);
        }
      }
    case Abort(p) =>
      UnlinkSound(t, p);
      var v := if p in t.active then Unlink(t, p) else t;
      forall i | 0 <= i < |v.active| && u != t ensures Known(u.active, u.stamps, i) {
        assert Known(v.active, v.stamps, i) && v.active[i] in v.active;
      }
    case Park(p) => UnlinkSound(t, p);
    case Alloc(p) =>
      forall i | 0 <= i < |u.active| ensures Known(u.active, u.stamps, i) { assert Known(t.active, t.stamps, i); }
  }

  // ----- what has been done since the tick began

  /** A PCB that still carries an old stamp has not been touched since the tick began, and one
      that has vanished has been freed. */
  predicate Untouched(first: map<Pcb, int>, stamps: map<Pcb, int>, gone: set<Pcb>, ctr: int, p: Pcb) {
    && (p in stamps && stamps[p] != ctr ==> p in first && first[p] == stamps[p] && p !in gone)
    && (p in first && p !in stamps ==> p in gone)
  }

  /** A PCB that has lasted since the tick began and got its stamp in it has been processed. */
  predicate Served(first: map<Pcb, int>, stamps: map<Pcb, int>, gone: set<Pcb>, ctr: int, done: seq<Pcb>, p: Pcb) {
    p in stamps && p in first && p !in gone && first[p] != ctr && stamps[p] == ctr ==> p in done
  }

  /** A processed PCB started with an old stamp and no longer carries one. */
  predicate Earned(first: map<Pcb, int>, stamps: map<Pcb, int>, ctr: int, done: seq<Pcb>, i: nat)
    requires i < |done|
  {
    && done[i] in first && first[done[i]] != ctr
    && (done[i] in stamps ==> stamps[done[i]] == ctr)
  }

  ghost predicate Tracks(first: map<Pcb, int>, t: Table, ctr: int, done: seq<Pcb>) {
    && Distinct(done)
    && (forall p :: Untouched(first, t.stamps, t.gone, ctr, p))
    && (forall p :: Served(first, t.stamps, t.gone, ctr, done, p))
    && (forall i | 0 <= i < |done| :: Earned(first, t.stamps, ctr, done, i))
  }

  /** PCBs, on any list or none, that the tick could still process. */
  ghost function Late(t: Table, ctr: int): set<Pcb> {
    set p | p in t.stamps && t.stamps[p] != ctr
  }

  lemma DoTracks(first: map<Pcb, int>, t: Table, ctr: int, done: seq<Pcb>, c: Command)
    requires Tracks(first, t, ctr, done)
    ensures Tracks(first, Do(t, ctr, c), ctr, done) && Late(Do(t, ctr, c), ctr) <= Late(t, ctr)
  {
    var u := Do(t, ctr, c);
    forall p ensures Untouched(first, u.stamps, u.gone, ctr, p) { assert Untouched(first, t.stamps, t.gone, ctr, p); }
    forall p ensures Served(first, u.stamps, u.gone, ctr, done, p) {
      assert Served(first, t.stamps, t.gone, ctr, done, p) && Untouched(first, t.stamps, t.gone, ctr, p);
    }
    forall i | 0 <= i < |done| ensures Earned(first, u.stamps, ctr, done, i) {
      assert Earned(first, t.stamps, ctr, done, i);
    }
  }

  /** A tick that starts a new number tracks trivially: nothing is processed yet. */
  lemma StartTracks(t: Table, ctr: int)
    requires t.gone == {}
    ensures Tracks(t.stamps, t, ctr, [])
  {
  }

  function Stamp(t: Table, ctr: int, p: Pcb): Table { t.(stamps := t.stamps[p := ctr]) }

  lemma StampTracks(first: map<Pcb, int>, t: Table, ctr: int, done: seq<Pcb>, p: Pcb)
    requires Tracks(first, t, ctr, done) && p in t.stamps && t.stamps[p] != ctr
    ensures Tracks(first, Stamp(t, ctr, p), ctr, done + [p])
    ensures Late(Stamp(t, ctr, p), ctr) < Late(t, ctr)
  {
    var u, d := Stamp(t, ctr, p), done + [p];
    assert Untouched(first, t.stamps, t.gone, ctr, p);
    forall x ensures Untouched(first, u.stamps, u.gone, ctr, x) { assert Untouched(first, t.stamps, t.gone, ctr, x); }
    forall x ensures Served(first, u.stamps, u.gone, ctr, d, x) {
      assert Served(first, t.stamps, t.gone, ctr, done, x);
      assert x == p ==> d[|done|] == x;
    }
    forall i | 0 <= i < |d| ensures Earned(first, u.stamps, ctr, d, i) {
      assert i < |done| ==> Earned(first, t.stamps, ctr, done, i);
    }
    forall i, j | 0 <= i < j < |d| ensures Apart(d, i, j) {
      assert if j < |done| then Apart(done, i, j) else Earned(first, t.stamps, ctr, done, i);
    }
    assert p in Late(t, ctr) && p !in Late(u, ctr);
  }

  lemma StampSound(t: Table, ctr: int, p: Pcb)
    requires Sound(t) && p in t.stamps
    ensures Sound(Stamp(t, ctr, p))
  {
    forall i | 0 <= i < |t.active| ensures Known(t.active, Stamp(t, ctr, p).stamps, i) {
      assert Known(t.active, t.stamps, i);
    }
  }

  predicate Current(active: seq<Pcb>, stamps: map<Pcb, int>, ctr: int, i: nat)
    requires i < |active| && Known(active, stamps, i)
  {
    stamps[active[i]] == ctr
  }

  /** The first `n` PCBs of the list carry the number of this tick. */
  ghost predicate Passed(t: Table, ctr: int, n: nat)
    requires Sound(t) && n <= |t.active|
  {
    forall i | 0 <= i < n :: Known(t.active, t.stamps, i) && Current(t.active, t.stamps, ctr, i)
  }

  lemma StampPassed(t: Table, ctr: int, n: nat)
    requires Sound(t) && n < |t.active| && Passed(t, ctr, n)
    ensures var u := Stamp(t, ctr, t.active[n]); Sound(u) && Passed(u, ctr, n + 1)
  {
    var u := Stamp(t, ctr, t.active[n]);
    assert Known(t.active, t.stamps, n);
    StampSound(t, ctr, t.active[n]);
    forall i | 0 <= i < n + 1 ensures Known(u.active, u.stamps, i) && Current(u.active, u.stamps, ctr, i) {
      assert Known(u.active, u.stamps, i);
      assert i < n ==> Known(t.active, t.stamps, i) && Current(t.active, t.stamps, ctr, i);
    }
  }

  /** Callbacks that leave the list alone leave the walk where it was. */
  lemma DoPassed(t: Table, ctr: int, n: nat, c: Command)
    requires Sound(t) && n <= |t.active| && Passed(t, ctr, n) && !Do(t, ctr, c).changed
    ensures var u := Do(t, ctr, c); Sound(u) && u.active == t.active && Passed(u, ctr, n)
  {
    DoSound(t, ctr, c);
    var u := Do(t, ctr, c);
    forall i | 0 <= i < n ensures Known(u.active, u.stamps, i) && Current(u.active, u.stamps, ctr, i) {
      assert Known(u.active, u.stamps, i) && Known(t.active, t.stamps, i) && Current(t.active, t.stamps, ctr, i);
    }
  }

  lemma UnlinkPassed(t: Table, ctr: int, n: nat)
    requires Sound(t) && n < |t.active| && Passed(t, ctr, n)
    ensures var u := Table(t.active[..n] + t.active[n + 1..], t.stamps - {t.active[n]}, t.gone + {t.active[n]},
                           t.changed);
            Sound(u) && Passed(u, ctr, n)
  {
    var p := t.active[n];
    var u := Table(t.active[..n] + t.active[n + 1..], t.stamps - {p}, t.gone + {p}, t.changed);
    forall i, j | 0 <= i < j < |u.active| ensures Apart(u.active, i, j) {
      assert Apart(t.active, if i < n then i else i + 1, if j < n then j else j + 1);
    }
    forall i | 0 <= i < |u.active| ensures Known(u.active, u.stamps, i) {
      assert Known(t.active, t.stamps, if i < n then i else i + 1);
      assert if i < n then Apart(t.active, i, n) else Apart(t.active, n, i + 1);
    }
    forall i | 0 <= i < n ensures Known(u.active, u.stamps, i) && Current(u.active, u.stamps, ctr, i) {
      assert Known(u.active, u.stamps, i) && Known(t.active, t.stamps, i) && Current(t.active, t.stamps, ctr, i);
    }
  }

  lemma ForgetTracks(first: map<Pcb, int>, t: Table, ctr: int, done: seq<Pcb>, p: Pcb, active: seq<Pcb>)
    requires Tracks(first, t, ctr, done)
    ensures var u := Forget(t, p).(active := active);
            Tracks(first, u, ctr, done) && Late(u, ctr) <= Late(t, ctr)
  {
    var u := Forget(t, p).(active := active);
    forall x ensures Untouched(first, u.stamps, u.gone, ctr, x) { assert Untouched(first, t.stamps, t.gone, ctr, x); }
    forall x ensures Served(first, u.stamps, u.gone, ctr, done, x) {
      assert Served(first, t.stamps, t.gone, ctr, done, x);
    }
    forall i | 0 <= i < |done| ensures Earned(first, u.stamps, ctr, done, i) {
      assert Earned(first, t.stamps, ctr, done, i);
    }
  }

  /** What the contracts below promise of a whole tick. */
  ghost predicate TickDone(first: map<Pcb, int>, t: Table, ctr: int, done: seq<Pcb>) {
    && Sound(t)
    // each PCB is processed at most once, and only one that carried another number
    && Distinct(done) && (forall i | 0 <= i < |done| :: done[i] in first && first[done[i]] != ctr)
    // nothing on the list has been missed
    && Passed(t, ctr, |t.active|)
    // a PCB that was there all the time is processed exactly if it carried another number
    && (forall p | p in t.active && p in first && p !in t.gone :: p in done <==> first[p] != ctr)
  }

  lemma TickEnds(first: map<Pcb, int>, t: Table, ctr: int, done: seq<Pcb>)
    requires Sound(t) && Tracks(first, t, ctr, done) && Passed(t, ctr, |t.active|)
    ensures TickDone(first, t, ctr, done)
  {
    forall i | 0 <= i < |done| ensures done[i] in first && first[done[i]] != ctr {
      assert Earned(first, t.stamps, ctr, done, i);
    }
    forall p | p in t.active && p in first && p !in t.gone ensures p in done <==> first[p] != ctr {
      var k :| 0 <= k < |t.active| && t.active[k] == p;
      assert Known(t.active, t.stamps, k) && Current(t.active, t.stamps, ctr, k);
      assert Served(first, t.stamps, t.gone, ctr, done, p);
    }
  }

  /** From one tick to the next no PCB is skipped: all carry the last number, and the 8-bit
      counter has moved on. */
  lemma NobodySkipped(t: Table, ctr: int, p: Pcb)
    requires 0 <= ctr < 256 && Sound(t) && Passed(t, ctr, |t.active|) && p in t.active
    ensures p in t.stamps && t.stamps[p] != (ctr + 1) % 256
  {
    var k :| 0 <= k < |t.active| && t.active[k] == p;
    assert Known(t.active, t.stamps, k) && Current(t.active, t.stamps, ctr, k);
  }

  /** tcp_timer_ctr, 8 bits. */
  function NextCtr(ctr: int): int { (ctr + 1) % 256 }

  /** So the next tick processes whoever is on the list and lasts. */
  lemma AllReached(mid: Table, ctr: int, t: Table, done: seq<Pcb>)
    requires 0 <= ctr < 256 && Sound(mid) && Passed(mid, ctr, |mid.active|)
    requires TickDone(mid.stamps, t, NextCtr(ctr), done)
    ensures forall p | p in mid.active && p in t.active && p !in t.gone :: p in done
  {
    forall p | p in mid.active && p in t.active && p !in t.gone ensures p in done { NobodySkipped(mid, ctr, p); }
  }

  // ----- whose doing it was

  function Commands(v: Verdict): seq<Command> {
    match v case Remove(cs) => cs case Call(cs) => cs case Quiet => []
  }

  /** PCBs that were freed, registered, parked and allocated. */
  datatype Causes = Causes(freed: set<Pcb>, registered: set<Pcb>, parked: set<Pcb>, made: set<Pcb>)

  function With(c: Causes, d: Command): Causes {
    match d
    case Abort(p) => c.(freed := c.freed + {p})
    case Register(p) => c.(registered := c.registered + {p})
    case Park(p) => c.(parked := c.parked + {p})
    case Alloc(p) => c.(made := c.made + {p})
  }

  function WithAll(c: Causes, cs: seq<Command>): Causes {
    if cs == [] then c else With(WithAll(c, cs[..|cs| - 1]), cs[|cs| - 1])
  }

  function WithVerdict(c: Causes, v: Verdict, p: Pcb): Causes {
    WithAll(if v.Remove? then c.(freed := c.freed + {p}) else c, Commands(v))
  }

  /** What the verdicts on the processed PCBs, in this order, can have brought about. */
  function CausesOf(done: seq<Pcb>, verdicts: nat -> Verdict): Causes {
    if done == [] then Causes({}, {}, {}, {})
    else
      var n := |done| - 1;
      WithVerdict(CausesOf(done[..n], verdicts), verdicts(n), done[n])
  }

  predicate AccountAt(was: seq<Pcb>, t: Table, c: Causes, p: Pcb) {
    && (p in t.gone ==> p in c.freed)
    && (p in t.active && p !in was ==> p in c.registered)
    && (p in was && p !in t.active ==> p in c.freed || p in c.parked)
  }

  /** Nothing was freed, came onto the list or went from it without a cause. */
  ghost predicate Accounts(was: seq<Pcb>, t: Table, c: Causes) { forall p :: AccountAt(was, t, c, p) }

  lemma DoAccounts(was: seq<Pcb>, t: Table, ctr: int, c: Causes, d: Command)
    requires Accounts(was, t, c)
    ensures Accounts(was, Do(t, ctr, d), With(c, d)) && t.gone <= Do(t, ctr, d).gone
  {
    var u := Do(t, ctr, d);
    forall p ensures AccountAt(was, u, With(c, d), p) {
      assert AccountAt(was, t, c, p);
      if d.Abort? || d.Park? { if p != d.p { WithoutMembers(t.active, d.p, p); } }
    }
  }

  lemma MoreCauses(c: Causes, cs: seq<Command>, i: nat)
    requires i < |cs|
    ensures WithAll(c, cs[..i + 1]) == With(WithAll(c, cs[..i]), cs[i])
  {
    assert cs[..i + 1][..i] == cs[..i];
  }

  lemma CausesMore(done: seq<Pcb>, verdicts: nat -> Verdict, p: Pcb)
    ensures CausesOf(done + [p], verdicts) == WithVerdict(CausesOf(done, verdicts), verdicts(|done|), p)
  {
    assert (done + [p])[..|done|] == done;
  }

  lemma SameAccounts(was: seq<Pcb>, t: Table, u: Table, c: Causes)
    requires Accounts(was, t, c) && u.active == t.active && u.gone == t.gone
    ensures Accounts(was, u, c)
  {
    forall p ensures AccountAt(was, u, c, p) { assert AccountAt(was, t, c, p); }
  }

  lemma DropAccounts(was: seq<Pcb>, t: Table, u: Table, c: Causes, i: nat)
    requires Accounts(was, t, c) && i < |t.active|
    requires u.active == t.active[..i] + t.active[i + 1..] && u.gone == t.gone + {t.active[i]}
    ensures Accounts(was, u, c.(freed := c.freed + {t.active[i]}))
  {
    forall p ensures AccountAt(was, u, c.(freed := c.freed + {t.active[i]}), p) {
      assert AccountAt(was, t, c, p);
      if p in t.active && p != t.active[i] {
        var j :| 0 <= j < |t.active| && t.active[j] == p;
        assert u.active[if j < i then j else j - 1] == p;
      }
    }
  }

  /** A PCB that was to be removed is gone. */
  predicate RemovedAt(done: seq<Pcb>, verdicts: nat -> Verdict, gone: set<Pcb>, i: nat)
    requires i < |done|
  {
    verdicts(i).Remove? ==> done[i] in gone
  }

  /** The verdicts were carried out: whoever was to be removed is gone, and nothing was freed, came onto
      the list or went from it except by a verdict or a command of a callback. */
  ghost predicate CarriedOut(was: seq<Pcb>, t: Table, done: seq<Pcb>, verdicts: nat -> Verdict) {
    && (forall i | 0 <= i < |done| :: RemovedAt(done, verdicts, t.gone, i))
    && Accounts(was, t, CausesOf(done, verdicts))
  }

  /** One more verdict was carried out. */
  lemma ActedCarriedOut(was: seq<Pcb>, t: Table, u: Table, done: seq<Pcb>, verdicts: nat -> Verdict, p: Pcb)
    requires CarriedOut(was, t, done, verdicts) && t.gone <= u.gone && (verdicts(|done|).Remove? ==> p in u.gone)
    requires Accounts(was, u, WithVerdict(CausesOf(done, verdicts), verdicts(|done|), p))
    ensures CarriedOut(was, u, done + [p], verdicts)
  {
    CausesMore(done, verdicts, p);
    forall i | 0 <= i < |done + [p]| ensures RemovedAt(done + [p], verdicts, u.gone, i) {
      assert i < |done| ==> RemovedAt(done, verdicts, t.gone, i);
    }
  }

  // ----- the tick as a sequence of states

  function DoAll(t: Table, ctr: int, cs: seq<Command>): Table {
    if cs == [] then t else Do(DoAll(t, ctr, cs[..|cs| - 1]), ctr, cs[|cs| - 1])
  }

  lemma DoMore(t: Table, ctr: int, cs: seq<Command>, i: nat)
    requires i < |cs|
    ensures DoAll(t, ctr, cs[..i + 1]) == Do(DoAll(t, ctr, cs[..i]), ctr, cs[i])
  {
    assert cs[..i + 1][..i] == cs[..i];
  }

  /** A verdict on `p`, carried out; the flag is cleared before a callback. */
  function Act(t: Table, ctr: int, p: Pcb, v: Verdict): Table {
    match v
    case Remove(cs) => DoAll(Forget(t, p).(active := Without(t.active, p), changed := false), ctr, cs)
    case Call(cs) => DoAll(t.(changed := false), ctr, cs)
    case Quiet => t
  }

  /** `p` is the first PCB on the list that does not carry the number of this tick. */
  ghost predicate FirstLate(t: Table, ctr: int, p: Pcb) {
    Sound(t) && exists i | 0 <= i < |t.active| :: LateAt(t, ctr, p, i)
  }

  ghost predicate LateAt(t: Table, ctr: int, p: Pcb, i: nat)
    requires Sound(t) && i < |t.active|
  {
    t.active[i] == p && Passed(t, ctr, i) && p in t.stamps && t.stamps[p] != ctr
  }

  /** One PCB after the other, always the first on the list that is still late, is stamped and dealt with as
      its verdict says. */
  ghost predicate TickAt(ctr: int, done: seq<Pcb>, verdicts: nat -> Verdict, ts: seq<Table>, n: nat)
    requires n < |done| && |ts| == |done| + 1
  {
    FirstLate(ts[n], ctr, done[n]) && ts[n + 1] == Act(Stamp(ts[n], ctr, done[n]), ctr, done[n], verdicts(n))
  }

  ghost predicate Ticks(t: Table, ctr: int, done: seq<Pcb>, verdicts: nat -> Verdict, ts: seq<Table>) {
    && |ts| == |done| + 1 && ts[0] == t
    && forall n {:trigger TickAt(ctr, done, verdicts, ts, n)} | 0 <= n < |done| :: TickAt(ctr, done, verdicts, ts, n)
  }

  ghost predicate TicksTo(t: Table, u: Table, ctr: int, done: seq<Pcb>, verdicts: nat -> Verdict, ts: seq<Table>) {
    Ticks(t, ctr, done, verdicts, ts) && ts[|done|] == u
  }

  /** A whole tick, from `t` to `u`. */
  ghost predicate Ticked(t: Table, u: Table, ctr: int, done: seq<Pcb>, verdicts: nat -> Verdict) {
    && TickDone(t.stamps, u, ctr, done) && CarriedOut(t.active, u, done, verdicts)
    && exists ts :: TicksTo(t.(gone := {}), u, ctr, done, verdicts, ts)
  }

  lemma OneMoreTick(t: Table, ctr: int, done: seq<Pcb>, verdicts: nat -> Verdict, ts: seq<Table>, p: Pcb, i: nat)
    requires Ticks(t, ctr, done, verdicts, ts)
    requires Sound(ts[|done|]) && i < |ts[|done|].active| && LateAt(ts[|done|], ctr, p, i)
    ensures var u := Act(Stamp(ts[|done|], ctr, p), ctr, p, verdicts(|done|));
            Ticks(t, ctr, done + [p], verdicts, ts + [u])
  {
    var ds, us := done + [p], ts + [Act(Stamp(ts[|done|], ctr, p), ctr, p, verdicts(|done|))];
    forall n | 0 <= n < |ds| ensures TickAt(ctr, ds, verdicts, us, n) {
      assert n < |done| ==> TickAt(ctr, done, verdicts, ts, n);
    }
  }

  // ----- every command is carried out

  /** What is left of the commands so far at the PCB `p`, `first` being the PCBs there were at first. One
      that was freed is gone; one that was registered is on the list, and one that was parked or freed
      is not, unless there was a command to the contrary; one that was allocated exists or is gone again. */
  predicate ObeyAt(first: map<Pcb, int>, t: Table, c: Causes, p: Pcb) {
    && (p in first ==> p in t.stamps || p in t.gone) && (p in t.gone ==> p in c.freed)
    && (p in first && p in c.freed ==> p in t.gone)
    && (p in first && p in c.registered ==> p in t.active || p in c.freed || p in c.parked)
    && ((p in c.parked || p in c.freed) && p !in c.registered ==> p !in t.active)
    && (p in c.made ==> p in t.stamps || p in t.gone)
  }

  ghost predicate Obeys(first: map<Pcb, int>, t: Table, c: Causes) {
    Sound(t) && forall p :: ObeyAt(first, t, c, p)
  }

  lemma DoObeys(first: map<Pcb, int>, t: Table, ctr: int, c: Causes, d: Command)
    requires Obeys(first, t, c)
    ensures Obeys(first, Do(t, ctr, d), With(c, d))
  {
    var u := Do(t, ctr, d);
    DoSound(t, ctr, d);
    forall p ensures ObeyAt(first, u, With(c, d), p) {
      assert ObeyAt(first, t, c, p);
      if d.Abort? || d.Park? {
        if p != d.p { WithoutMembers(t.active, d.p, p); } else { WithoutDistinct(t.active, p); OnList(t, p); }
      }
    }
  }

  lemma OnList(t: Table, p: Pcb)
    requires Sound(t)
    ensures p in t.active ==> p in t.stamps
  {
    if p in t.active {
      var i :| 0 <= i < |t.active| && t.active[i] == p;
      assert Known(t.active, t.stamps, i);
    }
  }

  lemma {:induction false} DoAllObeys(first: map<Pcb, int>, t: Table, ctr: int, c: Causes, cs: seq<Command>)
    requires Obeys(first, t, c)
    ensures Obeys(first, DoAll(t, ctr, cs), WithAll(c, cs))
    decreases |cs|
  {
    if cs != [] {
      var r := cs[..|cs| - 1];
      DoAllObeys(first, t, ctr, c, r);
      DoObeys(first, DoAll(t, ctr, r), ctr, WithAll(c, r), cs[|cs| - 1]);
    }
  }

  lemma FlagObeys(first: map<Pcb, int>, t: Table, u: Table, c: Causes)
    requires Obeys(first, t, c) && u.active == t.active && u.stamps.Keys == t.stamps.Keys && u.gone == t.gone
    ensures Obeys(first, u, c)
  {
    forall i | 0 <= i < |u.active| ensures Known(u.active, u.stamps, i) {
      assert Known(t.active, t.stamps, i) && t.active[i] in t.stamps.Keys;
    }
    forall p ensures ObeyAt(first, u, c, p) {
      assert ObeyAt(first, t, c, p);
      assert (p in u.stamps <==> p in u.stamps.Keys) && (p in t.stamps <==> p in t.stamps.Keys);
    }
  }

  lemma ActObeys(first: map<Pcb, int>, t: Table, ctr: int, c: Causes, p: Pcb, v: Verdict)
    requires Obeys(first, t, c) && p in t.active
    ensures Obeys(first, Act(t, ctr, p, v), WithVerdict(c, v, p))
  {
    match v
    case Remove(cs) =>
      OnList(t, p);
      var u := Do(t, ctr, Abort(p));
      DoObeys(first, t, ctr, c, Abort(p));
      FlagObeys(first, u, u.(changed := false), With(c, Abort(p)));
      DoAllObeys(first, u.(changed := false), ctr, With(c, Abort(p)), cs);
    case Call(cs) =>
      FlagObeys(first, t, t.(changed := false), c);
      DoAllObeys(first, t.(changed := false), ctr, c, cs);
    case Quiet =>
  }

  lemma {:induction false} TicksObey(t: Table, ctr: int, done: seq<Pcb>, verdicts: nat -> Verdict, ts: seq<Table>,
                                     n: nat)
    requires Sound(t) && t.gone == {} && Ticks(t, ctr, done, verdicts, ts) && n <= |done|
    ensures Obeys(t.stamps, ts[n], CausesOf(done[..n], verdicts))
  {
    if n == 0 {
      forall p ensures ObeyAt(t.stamps, t, Causes({}, {}, {}, {}), p) { }
    } else {
      TicksObey(t, ctr, done, verdicts, ts, n - 1);
      assert TickAt(ctr, done, verdicts, ts, n - 1);
      TickObeys(t.stamps, ts[n - 1], ctr, CausesOf(done[..n - 1], verdicts), done[n - 1], verdicts(n - 1));
      CausesMore(done[..n - 1], verdicts, done[n - 1]);
      assert done[..n - 1] + [done[n - 1]] == done[..n];
    }
  }

  lemma TickObeys(first: map<Pcb, int>, t: Table, ctr: int, c: Causes, p: Pcb, v: Verdict)
    requires Obeys(first, t, c) && FirstLate(t, ctr, p)
    ensures Obeys(first, Act(Stamp(t, ctr, p), ctr, p, v), WithVerdict(c, v, p))
  {
    var i :| 0 <= i < |t.active| && LateAt(t, ctr, p, i);
    FlagObeys(first, t, Stamp(t, ctr, p), c);
    ActObeys(first, Stamp(t, ctr, p), ctr, c, p, v);
  }

  /** What came of one command of a tick. */
  predicate Effective(t: Table, u: Table, c: Causes, d: Command) {
    match d
    case Abort(p) => (p in t.stamps ==> p in u.gone) && (p !in u.active || p in c.registered)
    case Register(p) => p in t.stamps ==> p in u.active || p in c.freed || p in c.parked
    case Park(p) => p !in u.active || p in c.registered
    case Alloc(p) => p in u.stamps || p in u.gone
  }

  /** Every command of every callback that a tick calls is carried out, and stands unless another command of
      the tick concerns the same PCB. */
  lemma TickCarriesOut(t: Table, u: Table, ctr: int, done: seq<Pcb>, verdicts: nat -> Verdict, n: nat, k: nat)
    requires Sound(t) && Ticked(t, u, ctr, done, verdicts) && n < |done| && k < |Commands(verdicts(n))|
    ensures Effective(t, u, CausesOf(done, verdicts), Commands(verdicts(n))[k])
  {
    var ts :| TicksTo(t.(gone := {}), u, ctr, done, verdicts, ts);
    TicksObey(t.(gone := {}), ctr, done, verdicts, ts, |done|);
    assert done[..|done|] == done;
    var d := Commands(verdicts(n))[k];
    CommandCounts(done, verdicts, n, k);
    assert ObeyAt(t.stamps, u, CausesOf(done, verdicts), d.p);
  }

  predicate Counts(c: Causes, d: Command) {
    match d
    case Abort(p) => p in c.freed
    case Register(p) => p in c.registered
    case Park(p) => p in c.parked
    case Alloc(p) => p in c.made
  }

  lemma {:induction false} AllCounted(c: Causes, cs: seq<Command>, d: Command)
    requires d in cs || Counts(c, d)
    ensures Counts(WithAll(c, cs), d)
    decreases |cs|
  {
    if cs != [] {
      var r := cs[..|cs| - 1];
      if cs[|cs| - 1] != d {
        assert cs == r + [cs[|cs| - 1]];
        AllCounted(c, r, d);
      }
    }
  }

  lemma {:induction false} CommandCounts(done: seq<Pcb>, verdicts: nat -> Verdict, n: nat, k: nat)
    requires n < |done| && k < |Commands(verdicts(n))|
    ensures Counts(CausesOf(done, verdicts), Commands(verdicts(n))[k])
    decreases |done|
  {
    var m, d := |done| - 1, Commands(verdicts(n))[k];
    if n < m { CommandCounts(done[..m], verdicts, n, k); }
    var c := CausesOf(done[..m], verdicts);
    AllCounted(if verdicts(m).Remove? then c.(freed := c.freed + {done[m]}) else c, Commands(verdicts(m)), d);
  }

  /** A tick without removals and commands changes nothing but the numbers. */
  lemma QuietTick(t: Table, u: Table, ctr: int, done: seq<Pcb>, verdicts: nat -> Verdict)
    requires Ticked(t, u, ctr, done, verdicts)
    requires forall n | 0 <= n < |done| :: !verdicts(n).Remove? && Commands(verdicts(n)) == []
    ensures u.active == t.active && u.stamps.Keys == t.stamps.Keys && u.gone == {}
  {
    var ts :| TicksTo(t.(gone := {}), u, ctr, done, verdicts, ts);
    QuietTicks(t.(gone := {}), ctr, done, verdicts, ts, |done|);
  }

  lemma {:induction false} QuietTicks(t: Table, ctr: int, done: seq<Pcb>, verdicts: nat -> Verdict, ts: seq<Table>,
                                      n: nat)
    requires Ticks(t, ctr, done, verdicts, ts) && n <= |done|
    requires forall n | 0 <= n < |done| :: !verdicts(n).Remove? && Commands(verdicts(n)) == []
    ensures ts[n].active == t.active && ts[n].stamps.Keys == t.stamps.Keys && ts[n].gone == t.gone
  {
    if n > 0 {
      QuietTicks(t, ctr, done, verdicts, ts, n - 1);
      assert TickAt(ctr, done, verdicts, ts, n - 1);
      var u, p, v := ts[n - 1], done[n - 1], verdicts(n - 1);
      assert Commands(v) == [] && p in u.stamps.Keys;
      assert Stamp(u, ctr, p).stamps.Keys == u.stamps.Keys;
    }
  }

  lemma WithoutAt(s: seq<Pcb>, i: nat)
    requires Distinct(s) && i < |s|
    ensures Without(s, s[i]) == s[..i] + s[i + 1..]
  {
    forall j | 0 <= j < i ensures s[..i][j] != s[i] { assert Apart(s, j, i); }
    PositionUnique(s, s[i], i);
  }

  function FastVerdicts(refused: nat -> bool, callbacks: nat -> seq<Command>): nat -> Verdict {
    (n: nat) => if refused(n) then Call(callbacks(n)) else Quiet
  }

  /** In a fast tick exactly the PCBs with refused data are called back: without any, nothing changes, and
      what the callbacks of the others ask for is carried out. */
  lemma FastExact(t: Table, u: Table, ctr: int, done: seq<Pcb>, refused: nat -> bool, callbacks: nat -> seq<Command>)
    requires Sound(t) && Ticked(t, u, ctr, done, FastVerdicts(refused, callbacks))
    ensures (forall n | 0 <= n < |done| :: !refused(n)) ==>
              u.active == t.active && u.stamps.Keys == t.stamps.Keys && u.gone == {}
    ensures forall n, k | 0 <= n < |done| && refused(n) && 0 <= k < |callbacks(n)| ::
              Effective(t, u, CausesOf(done, FastVerdicts(refused, callbacks)), callbacks(n)[k])
  {
    var verdicts := FastVerdicts(refused, callbacks);
    if forall n | 0 <= n < |done| :: !refused(n) { QuietTick(t, u, ctr, done, verdicts); }
    forall n, k | 0 <= n < |done| && refused(n) && 0 <= k < |callbacks(n)|
      ensures Effective(t, u, CausesOf(done, verdicts), callbacks(n)[k])
    {
      TickCarriesOut(t, u, ctr, done, verdicts, n, k);
    }
  }

  class Timers {
    var active: seq<Pcb>            // tcp_active_pcbs
    var stamps: map<Pcb, int>       // last_timer of every PCB there is
    var changed: bool               // tcp_active_pcbs_changed
    var ctr: int                    // tcp_timer_ctr, 8 bits
    var timer: int                  // tcp_timer, 8 bits
    ghost var gone: set<Pcb>        // freed since the tick began

    ghost function Value(): Table
      reads this
    {
      Table(active, stamps, gone, changed)
    }

    ghost predicate Valid()
      reads this
    {
      Sound(Value()) && 0 <= ctr < 256 && 0 <= timer < 256
    }

    constructor ()
      ensures Valid() && active == [] && stamps == map[]
    {
      active, stamps, changed, ctr, timer, gone := [], map[], false, 0, 0, {};
    }

    /** TCP_RMV_ACTIVE. */
    method RmvActive(p: Pcb)
      requires Valid()
      modifies `active, `changed
      ensures Value() == Unlink(old(Value()), p)
    {
      active := Rmv(active, p);
      changed := true;
    }

    method Execute(c: Command)
      requires Valid()
      modifies `active, `stamps, `changed, `gone
      ensures Valid() && Value() == Do(old(Value()), ctr, c)
    {
      DoSound(Value(), ctr, c);
      match c
      case Register(p) =>
        if p in stamps && p !in active {
          active := [p] + active;
          changed := true;
        }
      case Abort(p) =>
        if p in stamps {
          if p in active { RmvActive(p); }
          stamps := stamps - {p};
          gone := gone + {p};
        }
      case Park(p) => RmvActive(p);
      case Alloc(p) => if p !in stamps { stamps := stamps[p := ctr]; }
    }

    /** An application callback, called after the flag has been cleared. */
    method Callback(cs: seq<Command>, ghost first: map<Pcb, int>, ghost done: seq<Pcb>, ghost n: nat,
                    ghost was: seq<Pcb>, ghost c: Causes)
      requires Valid() && Tracks(first, Value(), ctr, done) && n <= |active| && Passed(Value(), ctr, n)
      requires Accounts(was, Value(), c)
      modifies `active, `stamps, `changed, `gone
      ensures Valid() && Tracks(first, Value(), ctr, done) && Late(Value(), ctr) <= old(Late(Value(), ctr))
      ensures Accounts(was, Value(), WithAll(c, cs)) && old(gone) <= gone
      ensures Value() == DoAll(old(Value()).(changed := false), ctr, cs)
      ensures changed || (active == old(active) && Passed(Value(), ctr, n))
    {
      ghost var before := Value();
      changed := false;
      ghost var late := Late(Value(), ctr);
      SameAccounts(was, before, Value(), c);
      assert cs[..0] == [];
      var i := 0;
      while i < |cs|
        invariant i <= |cs|
        invariant Valid() && Tracks(first, Value(), ctr, done) && Late(Value(), ctr) <= late
        invariant changed || (active == old(active) && Passed(Value(), ctr, n))
        invariant Accounts(was, Value(), WithAll(c, cs[..i])) && old(gone) <= gone
        invariant Value() == DoAll(before.(changed := false), ctr, cs[..i])
      {
        DoMore(before.(changed := false), ctr, cs, i);
        DoAccounts(was, Value(), ctr, WithAll(c, cs[..i]), cs[i]);
        MoreCauses(c, cs, i);
        DoTracks(first, Value(), ctr, done, cs[i]);
        DoSound(Value(), ctr, cs[i]);
        if !changed && !Do(Value(), ctr, cs[i]).changed { DoPassed(Value(), ctr, n, cs[i]); }
        Execute(cs[i]);
        i := i + 1;
      }
      assert cs[..|cs|] == cs;
    }

    /** Stamp the PCB at position `i`, unless it carries the number already. */
    method Visit(i: nat, ghost first: map<Pcb, int>, ghost done: seq<Pcb>) returns (due: bool)
      requires Valid() && i < |active| && Tracks(first, Value(), ctr, done) && Passed(Value(), ctr, i)
      modifies `stamps
      ensures Valid() && Passed(Value(), ctr, i + 1)
      ensures due ==> LateAt(old(Value()), ctr, active[i], i) && Value() == Stamp(old(Value()), ctr, active[i])
      ensures due ==> && Tracks(first, Value(), ctr, done + [active[i]])
                        && Late(Value(), ctr) < old(Late(Value(), ctr))
      ensures !due ==> stamps == old(stamps)
    {
      assert Known(active, stamps, i);
      due := stamps[active[i]] != ctr;
      StampPassed(Value(), ctr, i);
      if due {
        StampTracks(first, Value(), ctr, done, active[i]);
        stamps := stamps[active[i] := ctr];
      } else {
        assert stamps == stamps[active[i] := ctr];
      }
    }

    /** The removal branch: unlink the PCB at position `i`, free it, call the error callback. */
    method DropAt(i: nat, cs: seq<Command>, ghost first: map<Pcb, int>, ghost done: seq<Pcb>, ghost was: seq<Pcb>,
                  ghost c: Causes)
      requires Valid() && i < |active| && Tracks(first, Value(), ctr, done) && Passed(Value(), ctr, i)
      requires Accounts(was, Value(), c)
      modifies `active, `stamps, `changed, `gone
      ensures Valid() && Tracks(first, Value(), ctr, done) && Late(Value(), ctr) <= old(Late(Value(), ctr))
      ensures Accounts(was, Value(), WithVerdict(c, Remove(cs), old(active[i]))) && old(gone) + {old(active[i])} <= gone
      ensures Value() == Act(old(Value()), ctr, old(active[i]), Remove(cs))
      ensures changed || (i <= |active| && Passed(Value(), ctr, i))
    {
      var p := active[i];
      ghost var before := Value();
      WithoutAt(active, i);
      UnlinkPassed(Value(), ctr, i);
      ForgetTracks(first, Value(), ctr, done, p, active[..i] + active[i + 1..]);
      active := active[..i] + active[i + 1..];
      stamps := stamps - {p};
      gone := gone + {p};
      DropAccounts(was, before, Value(), c, i);
      Callback(cs, first, done, i, was, c.(freed := c.freed + {p}));
    }

    /** What is done with a PCB that has just been stamped; `next` is where the walk goes on. */
    method Process(i: nat, v: Verdict, ghost first: map<Pcb, int>, ghost done: seq<Pcb>, ghost was: seq<Pcb>,
                   ghost c: Causes) returns (next: nat)
      requires Valid() && i < |active| && Passed(Value(), ctr, i + 1) && Tracks(first, Value(), ctr, done)
      requires Accounts(was, Value(), c)
      modifies `active, `stamps, `changed, `gone
      ensures Valid() && next <= |active| && Passed(Value(), ctr, next) && Tracks(first, Value(), ctr, done)
      ensures Late(Value(), ctr) <= old(Late(Value(), ctr))
      ensures Accounts(was, Value(), WithVerdict(c, v, old(active[i])))
      ensures old(gone) <= gone && (v.Remove? ==> old(active[i]) in gone)
      ensures Value() == Act(old(Value()), ctr, old(active[i]), v)
    {
      next := i + 1;
      match v
      case Remove(cs) =>
        PassedLess(Value(), ctr, i);
        DropAt(i, cs, first, done, was, c);
        next := if changed then 0 else i;
      case Call(cs) =>
        Callback(cs, first, done, i + 1, was, c);
        if changed { next := 0; }
      case Quiet =>
    }

    /** The walk over the active list: every PCB that does not carry the number yet is stamped and
        processed, and the walk begins again when a callback has changed the list. */
    method Walk(verdicts: nat -> Verdict) returns (done: seq<Pcb>)
      requires Valid() && gone == {}
      modifies `active, `stamps, `changed, `gone
      ensures Valid() && Ticked(old(Value()), Value(), ctr, done, verdicts)
    {
      ghost var first, was, ts := stamps, active, [Value()];
      done := [];
      StartTracks(Value(), ctr);
      assert CarriedOut(was, Value(), done, verdicts) by { NothingYet(Value(), verdicts); }
      var i: nat := 0;
      while i < |active|
        invariant Valid() && i <= |active| && Passed(Value(), ctr, i)
        invariant Tracks(first, Value(), ctr, done) && CarriedOut(was, Value(), done, verdicts)
        invariant Ticks(old(Value()), ctr, done, verdicts, ts) && ts[|done|] == Value()
        decreases Late(Value(), ctr), |active| - i
      {
        ghost var before, at := Value(), i;
        var due := Visit(i, first, done);
        if due {
          var p := active[i];
          SameAccounts(was, before, Value(), CausesOf(done, verdicts));
          i := Process(i, verdicts(|done|), first, done + [p], was, CausesOf(done, verdicts));
          ActedCarriedOut(was, before, Value(), done, verdicts, p);
          OneMoreTick(old(Value()), ctr, done, verdicts, ts, p, at);
          done, ts := done + [p], ts + [Value()];
        } else {
          i := i + 1;
        }
      }
      TickEnds(first, Value(), ctr, done);
      assert TicksTo(old(Value()), Value(), ctr, done, verdicts, ts);
    }

    /** tcp_slowtmr, the walk over the active list. */
    method SlowTimer(verdicts: nat -> Verdict) returns (done: seq<Pcb>)
      requires Valid()
      modifies `active, `stamps, `changed, `ctr, `gone
      ensures Valid() && ctr == NextCtr(old(ctr)) && Ticked(old(Value()), Value(), ctr, done, verdicts)
    {
      ctr := (ctr + 1) % 256;
      gone := {};
      done := Walk(verdicts);
    }

    /** tcp_fasttmr: the only callback is the one that is offered refused data again. */
    method FastTimer(refused: nat -> bool, callbacks: nat -> seq<Command>) returns (done: seq<Pcb>)
      requires Valid()
      modifies `active, `stamps, `changed, `ctr, `gone
      ensures Valid() && ctr == NextCtr(old(ctr))
      ensures Ticked(old(Value()), Value(), ctr, done, FastVerdicts(refused, callbacks))
    {
      ctr := (ctr + 1) % 256;
      gone := {};
      done := Walk(FastVerdicts(refused, callbacks));
    }

    /** tcp_tmr: the fast timer, and the slow one on every other call; `mid` is the state between the two.
        A PCB that is on the list there and lasts is always processed by the slow one. */
    method Tmr(refused: nat -> bool, callbacks: nat -> seq<Command>, verdicts: nat -> Verdict)
      returns (fast: seq<Pcb>, slow: seq<Pcb>, ghost mid: Table)
      requires Valid()
      modifies this
      ensures Valid() && timer == (old(timer) + 1) % 256
      ensures Ticked(old(Value()), mid, NextCtr(old(ctr)), fast, FastVerdicts(refused, callbacks))
      ensures timer % 2 == 0 ==> slow == [] && Value() == mid && ctr == NextCtr(old(ctr))
      ensures timer % 2 == 1 ==> && ctr == NextCtr(NextCtr(old(ctr))) && Ticked(mid, Value(), ctr, slow, verdicts)
                                 && forall p | p in mid.active && p in active && p !in gone :: p in slow
    {
      fast := FastTimer(refused, callbacks);
      slow, mid := [], Value();
      timer := (timer + 1) % 256;
      if timer % 2 == 1 {
        ghost var was := ctr;
        slow := SlowTimer(verdicts);
        AllReached(mid, was, Value(), slow);
      }
    }
  }

  lemma NothingYet(t: Table, verdicts: nat -> Verdict)
    requires t.gone == {}
    ensures CarriedOut(t.active, t, [], verdicts)
  {
    forall p ensures AccountAt(t.active, t, CausesOf([], verdicts), p) { }
  }

  lemma PassedLess(t: Table, ctr: int, n: nat)
    requires Sound(t) && n < |t.active| && Passed(t, ctr, n + 1)
    ensures Passed(t, ctr, n)
  {
  }
}
