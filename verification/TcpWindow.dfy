/** The receive window of a TCP control block (tcp.c, with the steps of tcp_in.c and
    tcp_out.c that move it).

    First over unbounded sequence numbers, where every run can be reasoned about; then as
    the control block's 32-bit fields, whose wrapping comparisons are shown to agree. */
module TcpWindow {
  import opened Basics

  /** Configuration of a connection: TCP_WND_MAX, TCP_WND and the segment size. */
  datatype Config = Config(max: nat, tcpWnd: nat, mss: nat) {
    /** The least increase of the window worth announcing. */
    function Step(): nat { if tcpWnd / 2 < mss then tcpWnd / 2 else mss }
  }

  /** rcv_nxt, rcv_wnd, rcv_ann_wnd and rcv_ann_right_edge, as true positions. */
  datatype Rcv = Rcv(nxt: int, wnd: int, ann: int, edge: int) {
    /** The first byte that does not fit the buffer. */
    function TrueEdge(): int { nxt + wnd }
  }

  predicate Sound(c: Config, s: Rcv) {
    && 0 <= s.wnd <= c.max
    && s.edge <= s.TrueEdge()
    && 0 <= s.ann <= s.wnd && s.edge <= s.nxt + s.ann
  }

  /** tcp_update_rcv_ann_wnd. */
  function Update(c: Config, s: Rcv): Rcv {
    if s.TrueEdge() >= s.edge + c.Step() then s.(ann := s.wnd)
    else if s.nxt > s.edge then s.(ann := 0)
    else s.(ann := s.edge - s.nxt)
  }

  /** The value it returns: by how much an announcement would move the edge. */
  function Inflation(c: Config, s: Rcv): int {
    if s.TrueEdge() >= s.edge + c.Step() then s.TrueEdge() - s.edge else 0
  }

  function Saturate(n: int, max: int): int { if n > max then max else n }

  datatype Event =
    | Receive(n: nat)       // tcp_receive takes n in-sequence bytes (or the FIN)
    | Recved(len: nat)      // the application has consumed len bytes
    | Send                  // a segment goes out and announces the window
    | FinDelivered          // the close event gives back the byte the FIN took

  /** tcp_receive cuts a segment down to the window. */
  predicate Enabled(s: Rcv, e: Event) { e.Receive? ==> e.n <= s.wnd }

  function Next(c: Config, s: Rcv, e: Event): Rcv {
    match e
    case Receive(n) => Update(c, s.(nxt := s.nxt + n, wnd := s.wnd - n))
    case Recved(len) => Update(c, s.(wnd := Saturate(s.wnd + len, c.max)))
    case Send => s.(edge := s.nxt + s.ann)
    case FinDelivered => s.(wnd := Saturate(s.wnd + 1, c.max))
  }

  predicate Run(c: Config, s: Rcv, es: seq<Event>)
    decreases |es|
  {
    es == [] || (Enabled(s, es[0]) && Run(c, Next(c, s, es[0]), es[1..]))
  }

  function Last(c: Config, s: Rcv, es: seq<Event>): Rcv
    decreases |es|
  {
    if es == [] then s else Last(c, Next(c, s, es[0]), es[1..])
  }

  /** The state in which a connection starts: nothing announced yet. */
  predicate Initial(c: Config, s: Rcv) {
    s.wnd == s.ann == c.max && s.edge == s.nxt
  }

  lemma StepSound(c: Config, s: Rcv, e: Event)
    requires Sound(c, s) && Enabled(s, e)
    ensures Sound(c, Next(c, s, e))
    ensures s.edge <= Next(c, s, e).edge && s.nxt <= Next(c, s, e).nxt && s.TrueEdge() <= Next(c, s, e).TrueEdge()
  {
  }

  /** In every run the announced right edge never moves left, never passes the true edge, and
      the window never exceeds its maximum. */
  lemma {:induction false} RunSound(c: Config, s: Rcv, es: seq<Event>)
    requires Sound(c, s) && Run(c, s, es)
    ensures Sound(c, Last(c, s, es)) && s.edge <= Last(c, s, es).edge
    decreases |es|
  {
    if es != [] {
      StepSound(c, s, es[0]);
      RunSound(c, Next(c, s, es[0]), es[1..]);
    }
  }

  lemma InitialSound(c: Config, s: Rcv)
    requires Initial(c, s)
    ensures Sound(c, s)
  {
  }

  /** Whatever has been announced can be received: data up to the announced edge is never
      cut off, in any run after the announcement that receives no more than that. */
  lemma {:induction false} AnnouncedIsReceivable(c: Config, s: Rcv, es: seq<Event>)
    requires Sound(c, s) && Run(c, s, es)
    ensures s.edge - Last(c, s, es).nxt <= Last(c, s, es).wnd
    decreases |es|
  {
    RunSound(c, s, es);
  }

  /** The edge the next segment announces stays where it was, or moves by at least Step(), or the
      peer has sent beyond the old edge and gets a zero window. */
  predicate NotSilly(c: Config, s: Rcv) {
    || s.nxt + s.ann == s.edge || s.nxt + s.ann >= s.edge + c.Step()
    || (s.ann == 0 && s.edge < s.nxt)
  }

  /** No silly windows (section 3.8.6.2.2 of RFC 9293) in any run. */
  lemma {:induction false} RunNotSilly(c: Config, s: Rcv, es: seq<Event>)
    requires Sound(c, s) && NotSilly(c, s) && Run(c, s, es)
    ensures NotSilly(c, Last(c, s, es))
    decreases |es|
  {
    if es != [] {
      StepSound(c, s, es[0]);
      RunNotSilly(c, Next(c, s, es[0]), es[1..]);
    }
  }

  /** An update moves the edge by less than Step() exactly if the peer has overrun the old edge and
      the room behind it is still below Step(); the window is zero then. */
  lemma SmallMoveIffOverrun(c: Config, s: Rcv)
    requires 0 <= s.wnd && s.edge <= s.TrueEdge()
    ensures var t := Update(c, s);
            && (s.edge < t.nxt + t.ann < s.edge + c.Step() <==> s.edge < s.nxt && s.TrueEdge() < s.edge + c.Step())
            && (s.edge < s.nxt && s.TrueEdge() < s.edge + c.Step() ==> t.ann == 0)
  {
  }

  /** The reported increase is exactly how far the next announcement moves the edge, whatever the
      peer's own overrun has not moved it already. */
  lemma InflationExact(c: Config, s: Rcv)
    requires 0 <= s.wnd && s.edge <= s.TrueEdge()
    ensures Inflation(c, s) == 0 || Inflation(c, s) >= c.Step()
    ensures Update(c, s).nxt + Update(c, s).ann == Max(s.edge + Inflation(c, s), s.nxt)
  {
  }

  // ----- the window is the room that is left

  function Received(es: seq<Event>): nat
    decreases |es|
  {
    if es == [] then 0 else (if es[0].Receive? then es[0].n else 0) + Received(es[1..])
  }

  /** What an event gives back: what the application has consumed, and the byte of a delivered FIN. */
  function Given(e: Event): nat {
    match e case Recved(len) => len case FinDelivered => 1 case _ => 0
  }

  function AllGiven(es: seq<Event>): nat
    decreases |es|
  {
    if es == [] then 0 else Given(es[0]) + AllGiven(es[1..])
  }

  /** The bytes received and not yet given back, `r` of them from before. What is given back in excess
      does not count. */
  function Owed(es: seq<Event>, r: nat): nat
    decreases |es|
  {
    if es == [] then r
    else Owed(es[1..], Max((if es[0].Receive? then r + es[0].n else r) - Given(es[0]), 0))
  }

  /** At no time is more given back than was received. */
  predicate Honest(es: seq<Event>, r: nat)
    decreases |es|
  {
    es == [] || (Given(es[0]) <= (if es[0].Receive? then r + es[0].n else r)
                 && Honest(es[1..], (if es[0].Receive? then r + es[0].n else r) - Given(es[0])))
  }

  lemma {:induction false} OwedBalance(es: seq<Event>, r: nat)
    requires Honest(es, r)
    ensures Owed(es, r) == r + Received(es) - AllGiven(es)
    decreases |es|
  {
    if es != [] { OwedBalance(es[1..], (if es[0].Receive? then r + es[0].n else r) - Given(es[0])); }
  }

  lemma {:induction false} OwedIsUsed(c: Config, s: Rcv, es: seq<Event>, r: nat)
    requires Run(c, s, es) && s.wnd == c.max - r
    ensures Last(c, s, es).wnd == c.max - Owed(es, r) && Last(c, s, es).nxt == s.nxt + Received(es)
    decreases |es|
  {
    if es != [] {
      OwedIsUsed(c, Next(c, s, es[0]), es[1..], Max((if es[0].Receive? then r + es[0].n else r) - Given(es[0]), 0));
    }
  }

  /** In every run the window is its maximum less what was received and not yet given back. */
  lemma WindowIsRoom(c: Config, s: Rcv, es: seq<Event>)
    requires Initial(c, s) && Run(c, s, es)
    ensures var t := Last(c, s, es);
            && t.wnd == c.max - Owed(es, 0) && t.nxt == s.nxt + Received(es)
            && (Honest(es, 0) ==> t.wnd == c.max - (Received(es) - AllGiven(es)))
  {
    OwedIsUsed(c, s, es, 0);
    if Honest(es, 0) { OwedBalance(es, 0); }
  }

  /** How far the true edge is ahead of the announced one. */
  function Ahead(s: Rcv): int { s.TrueEdge() - s.edge }

  lemma {:induction false} LastStep(c: Config, s: Rcv, es: seq<Event>, e: Event)
    requires Run(c, s, es + [e])
    ensures Run(c, s, es) && Enabled(Last(c, s, es), e) && Last(c, s, es + [e]) == Next(c, Last(c, s, es), e)
    decreases |es|
  {
    if es == [] {
      assert (es + [e])[1..] == [];
    } else {
      assert (es + [e])[1..] == es[1..] + [e];
      LastStep(c, Next(c, s, es[0]), es[1..], e);
    }
  }

  /** After every reception and every tcp_recved: room that is worth announcing is announced in full,
      and with less the announced edge stays, or follows the peer that has overrun it. */
  lemma RoomIsAnnounced(c: Config, s: Rcv, es: seq<Event>, e: Event)
    requires Run(c, s, es + [e]) && (e.Receive? || e.Recved?)
    ensures var t := Last(c, s, es + [e]);
            t.nxt + t.ann == if Ahead(t) >= c.Step() then t.TrueEdge() else Max(t.edge, t.nxt)
    ensures Last(c, s, es + [e]).edge == Last(c, s, es).edge
  {
    LastStep(c, s, es, e);
  }

  /** A segment announces what there is to announce. */
  lemma SendAnnounces(c: Config, s: Rcv, es: seq<Event>)
    requires Run(c, s, es + [Send])
    ensures var t, u := Last(c, s, es), Last(c, s, es + [Send]); u.edge == t.nxt + t.ann && u == t.(edge := u.edge)
  {
    LastStep(c, s, es, Send);
  }

  /** The window opens again: when all that was received has been given back it is at its maximum, the
      update reports the whole increase, and the next segment announces it, if it is worth it. */
  lemma Reopens(c: Config, s: Rcv, es: seq<Event>, len: nat)
    requires Initial(c, s) && Run(c, s, es) && Owed(es, 0) <= len
    ensures var t := Next(c, Last(c, s, es), Recved(len));
            && t.wnd == c.max && t.TrueEdge() == s.nxt + Received(es) + c.max
            && (Ahead(t) >= c.Step() ==> && Inflation(c, t) == Ahead(t) && t.ann == c.max
                                         && Next(c, t, Send).edge == t.nxt + c.max)
  {
    WindowIsRoom(c, s, es);
  }

  // ----- window scaling

  /** The right edge the peer computes from a segment: the 16-bit window field counts units of
      2^scale. */
  function WireEdge(s: Rcv, unit: nat): int
    requires unit > 0
  {
    s.nxt + Min(s.ann / unit, 0xFFFF) * unit
  }

  /** Of two segments sent in a run from the start of a connection, the later one does not show
      the peer a smaller edge. */
  predicate EdgeKept(c: Config, s: Rcv, es: seq<Event>, i: nat, j: nat, unit: nat)
    requires unit > 0 && i <= j < |es|
  {
    es[i].Send? && es[j].Send? ==> WireEdge(Last(c, s, es[..i]), unit) <= WireEdge(Last(c, s, es[..j]), unit)
  }

  ghost predicate WireNeverMovesLeft(c: Config, unit: nat)
    requires unit > 0
  {
    forall s, es, i, j | Initial(c, s) && Run(c, s, es) && 0 <= i < j < |es| :: EdgeKept(c, s, es, i, j, unit)
  }

  /** The edge on the wire never moves left exactly if windows are not scaled, or the unit is so
      large that no window is ever shown. */
  lemma WireShrinksIffScaled(c: Config, unit: nat)
    requires unit > 0
    ensures WireNeverMovesLeft(c, unit) <==> unit == 1 || unit > c.max
  {
    if unit == 1 || unit > c.max {
      forall s, es, i, j | Initial(c, s) && Run(c, s, es) && 0 <= i < j < |es| ensures EdgeKept(c, s, es, i, j, unit) {
        SendsInOrder(c, s, es, i, j, unit);
      }
    } else {
      ShrinkExample(c, unit);
    }
  }

  lemma SendsInOrder(c: Config, s: Rcv, es: seq<Event>, i: nat, j: nat, unit: nat)
    requires Initial(c, s) && Run(c, s, es) && i < j < |es| && (unit == 1 || unit > c.max)
    ensures EdgeKept(c, s, es, i, j, unit)
  {
    if es[i].Send? {
      var t, u := Last(c, s, es[..i]), Last(c, s, es[..j]);
      InitialSound(c, s);
      RunParts(c, s, es, j);
      RunParts(c, s, es[..j], i);
      assert es[..j][..i] == es[..i] && es[..j][i..] == es[i..j] && es[i..j][0] == es[i];
      RunSound(c, s, es[..i]);
      RunSound(c, s, es[..j]);
      assert Run(c, Next(c, t, es[i]), es[i..j][1..]) && u == Last(c, Next(c, t, es[i]), es[i..j][1..]);
      AnnouncedKept(c, Next(c, t, es[i]), es[i..j][1..]);
      PlainEdge(c, t, unit);
      PlainEdge(c, u, unit);
    }
  }

  lemma PlainEdge(c: Config, s: Rcv, unit: nat)
    requires Sound(c, s)
    ensures unit == 1 ==> WireEdge(s, unit) == s.nxt + Min(s.ann, 0xFFFF)
    ensures unit > c.max ==> WireEdge(s, unit) == s.nxt
  {
    if unit > c.max { NoUnits(s.ann, unit); }
  }

  lemma NoUnits(a: nat, unit: nat)
    requires a < unit
    ensures a / unit == 0
  {
  }

  lemma {:induction false} RunParts(c: Config, s: Rcv, es: seq<Event>, i: nat)
    requires Run(c, s, es) && i <= |es|
    ensures Run(c, s, es[..i]) && Run(c, Last(c, s, es[..i]), es[i..])
    ensures Last(c, Last(c, s, es[..i]), es[i..]) == Last(c, s, es)
    decreases |es|
  {
    if i == 0 {
      assert es[..0] == [] && es[0..] == es;
    } else {
      assert es[..i][0] == es[0] && es[..i][1..] == es[1..][..i - 1] && es[1..][i - 1..] == es[i..];
      RunParts(c, Next(c, s, es[0]), es[1..], i - 1);
    }
  }

  /** With scaling: announce, receive all but one unit, announce one unit, receive one byte, and the
      next segment takes back all but one byte of that unit. */
  lemma ShrinkExample(c: Config, unit: nat)
    requires 1 < unit <= c.max
    ensures var s, es := Rcv(0, c.max, c.max, 0), [Send, Receive(c.max - unit), Send, Receive(1), Send];
            Initial(c, s) && Run(c, s, es) && !EdgeKept(c, s, es, 2, 4, unit)
  {
    var r := c.max - unit;
    var s0, s1 := Rcv(0, c.max, c.max, 0), Rcv(0, c.max, c.max, c.max);
    var s2, s3 := Rcv(r, unit, unit, c.max), Rcv(r + 1, unit - 1, unit - 1, c.max);
    var es := [Send, Receive(r), Send, Receive(1), Send];
    assert Next(c, s0, es[0]) == s1 && Next(c, s1, es[1]) == s2 && Next(c, s2, es[2]) == s2;
    assert Next(c, s2, es[3]) == s3 && Next(c, s3, es[4]) == s3;
    FiveSteps(c, s0, es);
    assert WireEdge(s2, unit) == r + unit && WireEdge(s3, unit) == r + 1 by {
      assert unit / unit == 1 && (unit - 1) / unit == 0;
    }
  }

  lemma FiveSteps(c: Config, s: Rcv, es: seq<Event>)
    requires |es| == 5
    ensures var s1 := Next(c, s, es[0]);
            var s2 := Next(c, s1, es[1]);
            var s3 := Next(c, s2, es[2]);
            var s4 := Next(c, s3, es[3]);
            && Last(c, s, es[..2]) == s2 && Last(c, s, es[..4]) == s4
            && (Run(c, s, es) <==>
                && Enabled(s, es[0]) && Enabled(s1, es[1]) && Enabled(s2, es[2]) && Enabled(s3, es[3])
                && Enabled(s4, es[4]))
  {
    var s1 := Next(c, s, es[0]);
    var s2 := Next(c, s1, es[1]);
    var s3 := Next(c, s2, es[2]);
    var s4 := Next(c, s3, es[3]);
    TwoSteps(c, s, es[..2]);
    TwoSteps(c, s2, es[2..4]);
    assert es[..4][1..][1..] == es[2..4];
    assert Last(c, s, es[..4]) == Last(c, s2, es[2..4]) by {
      assert Last(c, s1, es[..4][1..]) == Last(c, s2, es[2..4]);
    }
    assert es[1..][1..] == es[2..] && es[2..][1..] == es[3..] && es[3..][1..] == es[4..] && es[4..][1..] == [];
    assert Run(c, s4, es[4..]) <==> Enabled(s4, es[4]);
    assert Run(c, s3, es[3..]) <==> Enabled(s3, es[3]) && Run(c, s4, es[4..]);
    assert Run(c, s2, es[2..]) <==> Enabled(s2, es[2]) && Run(c, s3, es[3..]);
    assert Run(c, s1, es[1..]) <==> Enabled(s1, es[1]) && Run(c, s2, es[2..]);
  }

  lemma TwoSteps(c: Config, s: Rcv, es: seq<Event>)
    requires |es| == 2
    ensures Last(c, s, es) == Next(c, Next(c, s, es[0]), es[1])
  {
    assert es[1..][1..] == [];
    assert Last(c, Next(c, s, es[0]), es[1..]) == Next(c, Next(c, s, es[0]), es[1]);
  }

  /** nxt + ann, the edge the next segment announces, never moves left either. */
  lemma {:induction false} AnnouncedKept(c: Config, s: Rcv, es: seq<Event>)
    requires Sound(c, s) && NotSilly(c, s) && Run(c, s, es)
    ensures s.nxt + s.ann <= Last(c, s, es).nxt + Last(c, s, es).ann && s.nxt <= Last(c, s, es).nxt
    decreases |es|
  {
    if es != [] {
      StepSound(c, s, es[0]);
      RunNotSilly(c, s, [es[0]]);
      AnnouncedKept(c, Next(c, s, es[0]), es[1..]);
    }
  }

  // ----- the 32-bit fields

  const HALF: int := 0x8000_0000

  /** TCP_SEQ_LT; TCP_SEQ_GEQ is its negation and TCP_SEQ_GT swaps the arguments. */
  predicate SeqLt(a: int, b: int) { U32(a - b) >= HALF }

  /** The wrapping comparison agrees with the true order within half the number space. */
  lemma SeqLtFaithful(x: int, y: int)
    requires -HALF <= x - y < HALF
    ensures SeqLt(U32(x), U32(y)) <==> x < y
  {
    WrapDifference(x, y);
  }

  /** Each wrapped computation of tcp_update_rcv_ann_wnd gives the true result. */
  lemma UpdateWraps(c: Config, s: Rcv)
    requires 0 <= s.wnd < HALF && c.Step() < HALF && s.edge <= s.TrueEdge() && s.TrueEdge() - s.edge < HALF
    ensures var right := U32(U32(s.nxt) + s.wnd);
            && (SeqLt(right, U32(U32(s.edge) + c.Step())) <==> s.TrueEdge() < s.edge + c.Step())
            && U32(right - U32(s.edge)) == s.TrueEdge() - s.edge
            && (SeqLt(U32(s.edge), U32(s.nxt)) <==> s.nxt > s.edge)
            && (s.nxt <= s.edge ==> U32(U32(s.edge) - U32(s.nxt)) == s.edge - s.nxt)
  {
    WrapSum(s.nxt, s.wnd);
    WrapSum(s.edge, c.Step());
    SeqLtFaithful(s.TrueEdge(), s.edge + c.Step());
    SeqLtFaithful(s.edge, s.nxt);
    DiffWraps(s.TrueEdge(), s.edge);
    if s.nxt <= s.edge { DiffWraps(s.edge, s.nxt); }
  }

  /** How many bytes were received since the last segment was sent, `r` of them before the run. */
  function Unanswered(es: seq<Event>, r: nat): nat
    decreases |es|
  {
    if es == [] then r
    else Unanswered(es[1..], match es[0] case Send => 0 case Receive(n) => r + n case _ => r)
  }

  lemma {:induction false} UnansweredBounds(c: Config, s: Rcv, es: seq<Event>, r: nat)
    requires Sound(c, s) && Run(c, s, es) && s.nxt - s.edge <= r
    ensures Last(c, s, es).nxt - Last(c, s, es).edge <= Unanswered(es, r)
    decreases |es|
  {
    if es != [] {
      StepSound(c, s, es[0]);
      UnansweredBounds(c, Next(c, s, es[0]), es[1..],
                       match es[0] case Send => 0 case Receive(n) => r + n case _ => r);
    }
  }

  /** The demand of the 32-bit methods below is met in every run in which less than 2^31 bytes, less one
      window, come in without any segment going out. */
  lemma AnnouncingHolds(c: Config, s: Rcv, es: seq<Event>, len: nat)
    requires Initial(c, s) && Run(c, s, es) && Unanswered(es, 0) + c.max < HALF
    ensures var t := Last(c, s, es);
            t.TrueEdge() - t.edge < HALF && Saturate(t.wnd + len, c.max) - t.wnd + t.TrueEdge() - t.edge < HALF
  {
    InitialSound(c, s);
    RunSound(c, s, es);
    UnansweredBounds(c, s, es, 0);
  }

  lemma DiffWraps(x: int, y: int)
    requires 0 <= x - y < TWO32
    ensures U32(U32(x) - U32(y)) == x - y
  {
    WrapDifference(x, y);
  }

  class RcvPcb {
    const cfg: Config
    const wndMod: int          // tcpwnd_size_t wraps at 2^16, or at 2^32 with window scaling
    const threshold: nat       // TCP_WND_UPDATE_THRESHOLD
    var rcvNxt: int
    var rcvWnd: int
    var rcvAnnWnd: int
    var rcvAnnRightEdge: int
    ghost var s: Rcv           // the same fields as true positions

    ghost predicate Represents()
      reads this
    {
      && (wndMod == 0x1_0000 || wndMod == TWO32) && cfg.max < wndMod && cfg.max < HALF && cfg.mss < 0x1_0000
      && rcvNxt == U32(s.nxt) && rcvWnd == s.wnd && rcvAnnWnd == s.ann && rcvAnnRightEdge == U32(s.edge)
    }

    /** Acknowledgements do go out: what could be announced stays less than half the sequence
        space ahead of what was. */
    ghost predicate Announcing()
      reads this
    {
      s.TrueEdge() - s.edge < HALF
    }

    ghost predicate Valid()
      reads this
    {
      Represents() && Sound(cfg, s)
    }

    /** tcp_update_rcv_ann_wnd. */
    method UpdateRcvAnnWnd() returns (inflation: int)
      requires Represents() && 0 <= s.wnd <= cfg.max && s.edge <= s.TrueEdge() && Announcing()
      modifies this`rcvAnnWnd, this`s
      ensures s == Update(cfg, old(s)) && inflation == Inflation(cfg, old(s)) && Valid()
      ensures inflation == (if Ahead(s) >= cfg.Step() then Ahead(s) else 0)
      ensures Ahead(s) >= cfg.Step() ==> rcvAnnWnd == rcvWnd
    {
      UpdateWraps(cfg, s);
      var newRightEdge := U32(rcvNxt + rcvWnd);
      if !SeqLt(newRightEdge, U32(rcvAnnRightEdge + cfg.Step())) {
        rcvAnnWnd := rcvWnd;
        inflation := U32(newRightEdge - rcvAnnRightEdge);
      } else {
        if SeqLt(rcvAnnRightEdge, rcvNxt) {
          rcvAnnWnd := 0;
        } else {
          var newRcvAnnWnd := U32(rcvAnnRightEdge - rcvNxt);
          assert wndMod == 0x1_0000 ==> newRcvAnnWnd <= 0xFFFF;
          rcvAnnWnd := newRcvAnnWnd;
        }
        inflation := 0;
      }
      s := Update(cfg, s);
    }

    /** tcp_recved. */
    method Recved(len: nat) returns (ackNow: bool)
      requires Valid() && len < 0x1_0000
      requires Saturate(s.wnd + len, cfg.max) - s.wnd + s.TrueEdge() - s.edge < HALF
      modifies this`rcvWnd, this`rcvAnnWnd, this`s
      ensures Valid() && s == Next(cfg, old(s), Event.Recved(len))
      ensures rcvWnd == Min(old(rcvWnd) + len, cfg.max)
      ensures Ahead(s) >= cfg.Step() ==> rcvAnnWnd == rcvWnd && (ackNow <==> Ahead(s) >= threshold)
      ensures Ahead(s) < cfg.Step() ==> (ackNow <==> threshold == 0)
    {
      var wnd := (rcvWnd + len) % wndMod;
      if wnd > cfg.max || wnd < rcvWnd {
        rcvWnd := cfg.max;
      } else {
        rcvWnd := wnd;
      }
      s := s.(wnd := Saturate(s.wnd + len, cfg.max));
      var inflation := UpdateRcvAnnWnd();
      ackNow := inflation >= threshold;
    }

    /** tcp_receive taking a segment that has been cut down to the window. */
    method Receive(n: nat)
      requires Valid() && Announcing() && n <= rcvWnd
      modifies this`rcvNxt, this`rcvWnd, this`rcvAnnWnd, this`s
      ensures Valid() && s == Next(cfg, old(s), Event.Receive(n))
      ensures rcvNxt == U32(old(rcvNxt) + n) && rcvWnd == old(rcvWnd) - n
    {
      WrapSum(s.nxt, n);
      rcvNxt := U32(rcvNxt + n);
      rcvWnd := rcvWnd - n;
      s := s.(nxt := s.nxt + n, wnd := s.wnd - n);
      var inflation := UpdateRcvAnnWnd();
    }

    /** tcp_output_segment and tcp_output_alloc_header: a segment announces the window. */
    method Announce()
      requires Valid()
      modifies this`rcvAnnRightEdge, this`s
      ensures Valid() && s == Next(cfg, old(s), Event.Send) && rcvAnnRightEdge == U32(rcvNxt + rcvAnnWnd)
    {
      WrapSum(s.nxt, s.ann);
      rcvAnnRightEdge := U32(rcvNxt + rcvAnnWnd);
      s := s.(edge := s.nxt + s.ann);
    }

    /** The correction before the close event. */
    method DeliverFin()
      requires Valid()
      modifies this`rcvWnd, this`s
      ensures Valid() && s == Next(cfg, old(s), Event.FinDelivered) && rcvWnd == Min(old(rcvWnd) + 1, cfg.max)
    {
      if rcvWnd != cfg.max {
        rcvWnd := rcvWnd + 1;
      }
      s := s.(wnd := Saturate(s.wnd + 1, cfg.max));
    }
  }
}
