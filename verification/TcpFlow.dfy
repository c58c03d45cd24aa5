/** What becomes of received data: a connection as a value, and what segments and timer ticks do to it.

    Data is offered to the application in chunks that 16-bit totals can describe. What it refuses is
    held and offered again before anything else is processed. The functions here say what tcp_input and
    tcp_process_refused_data do, for any answers of the application; the lemmas say what that amounts
    to over whole runs. */
module TcpFlow {
  import opened Basics

  datatype Answer = Accept | Refuse | Abort

  datatype Result = ERR_OK | ERR_INPROGRESS | ERR_ABRT

  /** One call of the receive callback: the bytes, the total length it was told, and the answer. */
  datatype Offer = Offer(bytes: seq<byte>, totLen: int, answer: Answer)

  /** The bytes of the accepted offers, in order. */
  function Taken(offers: seq<Offer>): seq<byte> {
    if offers == [] then []
    else Took(offers[0]) + Taken(offers[1..])
  }

  function Took(o: Offer): seq<byte> { if o.answer == Accept then o.bytes else [] }

  lemma {:induction false} TakenMore(a: seq<Offer>, b: seq<Offer>)
    ensures Taken(a + b) == Taken(a) + Taken(b)
  {
    if a == [] {
      assert a + b == b;
    } else {
      var t := a[1..];
      TakenMore(t, b);
      assert Taken(a + b) == Took(a[0]) + (Taken(t) + Taken(b)) by { TakenFirst(a, b); }
      Regroup(Took(a[0]), Taken(t), Taken(b));
    }
  }

  lemma TakenFirst(a: seq<Offer>, b: seq<Offer>)
    requires a != []
    ensures Taken(a + b) == Took(a[0]) + Taken(a[1..] + b)
  {
    assert (a + b)[1..] == a[1..] + b;
  }

  lemma Regroup(a: seq<byte>, b: seq<byte>, c: seq<byte>)
    ensures a + (b + c) == (a + b) + c
  {
  }

  // ----- chunks

  /** How many pieces fit behind `n` bytes. */
  function Room(ps: seq<seq<byte>>, n: nat): (k: nat)
    ensures k <= |ps|
  {
    if ps == [] || n + |ps[0]| >= TWO16 then 0 else 1 + Room(ps[1..], n + |ps[0]|)
  }

  /** How many pieces the next chunk has. */
  function ChunkLen(ps: seq<seq<byte>>): (k: nat)
    requires ps != []
    ensures 0 < k <= |ps|
  {
    1 + Room(ps[1..], |ps[0]|)
  }

  lemma {:induction false} RoomUnique(ps: seq<seq<byte>>, n: nat, k: nat)
    requires k <= |ps| && (k > 0 ==> n + |Flatten(ps[..k])| < TWO16)
    requires k < |ps| ==> n + |Flatten(ps[..k])| + |ps[k]| >= TWO16
    ensures k == Room(ps, n)
  {
    if k == 0 {
      assert ps[..0] == [];
    } else {
      assert ps[..k][1..] == ps[1..][..k - 1];
      RoomUnique(ps[1..], n + |ps[0]|, k - 1);
    }
  }

  /** It is the longest front below 65536 bytes. */
  lemma ChunkUnique(ps: seq<seq<byte>>, k: nat)
    requires 0 < k <= |ps| && |Flatten(ps[..k])| < TWO16
    requires k < |ps| ==> |Flatten(ps[..k])| + |ps[k]| >= TWO16
    ensures k == ChunkLen(ps)
  {
    assert ps[..k][1..] == ps[1..][..k - 1];
    RoomUnique(ps[1..], |ps[0]|, k - 1);
  }

  lemma {:induction false} RoomFits(ps: seq<seq<byte>>, n: nat)
    requires n < TWO16
    ensures n + |Flatten(ps[..Room(ps, n)])| < TWO16
  {
    var k := Room(ps, n);
    if k == 0 {
      assert ps[..k] == [];
    } else {
      RoomFits(ps[1..], n + |ps[0]|);
      assert ps[..k][1..] == ps[1..][..k - 1];
    }
  }

  predicate Fits(ps: seq<seq<byte>>) { forall i | 0 <= i < |ps| :: |ps[i]| < TWO16 }

  /** The chunks in which the pieces are offered. */
  function Chunks(ps: seq<seq<byte>>): seq<seq<byte>>
    decreases |ps|
  {
    if ps == [] then [] else [Flatten(ps[..ChunkLen(ps)])] + Chunks(ps[ChunkLen(ps)..])
  }

  /** Together they are all the bytes, and each is below 65536 if the pieces are. */
  lemma {:induction false} ChunksWhole(ps: seq<seq<byte>>)
    ensures Flatten(Chunks(ps)) == Flatten(ps) && (Fits(ps) ==> Fits(Chunks(ps)))
    decreases |ps|
  {
    if ps != [] {
      var k := ChunkLen(ps);
      ChunksWhole(ps[k..]);
      FlattenSplit(ps, k);
      assert Chunks(ps)[1..] == Chunks(ps[k..]);
      if Fits(ps) {
        RoomFits(ps[1..], |ps[0]|);
        assert ps[..k][1..] == ps[1..][..k - 1];
      }
    }
  }

  // ----- offering

  /** What came of offering pieces: the last result, the calls made, and what is left to be held. */
  datatype Outcome = Outcome(result: Result, offers: seq<Offer>, left: seq<seq<byte>>)

  function TheOffer(ps: seq<seq<byte>>, answer: Answer): Offer
    requires ps != []
  {
    var bytes := Flatten(ps[..ChunkLen(ps)]); Offer(bytes, |bytes|, answer)
  }

  /** Chunk after chunk until one is not accepted. A refused one is held with all that follows it; an
      abort takes everything away. */
  function Offering(ps: seq<seq<byte>>, answers: nat -> Answer, round: nat): Outcome
    decreases |ps|
  {
    if ps == [] then Outcome(ERR_OK, [], [])
    else
      var o := TheOffer(ps, answers(round));
      match answers(round)
      case Accept => var r := Offering(ps[ChunkLen(ps)..], answers, round + 1); r.(offers := [o] + r.offers)
      case Refuse => Outcome(ERR_INPROGRESS, [o], ps)
      case Abort => Outcome(ERR_ABRT, [o], [])
  }

  /** How many of `n` answers are Accept before the first other one. */
  function Accepts(answers: nat -> Answer, round: nat, n: nat): (m: nat)
    ensures m <= n && forall j | round <= j < round + m :: answers(j) == Accept
    ensures m < n ==> answers(round + m) != Accept
    decreases n
  {
    if n == 0 || answers(round) != Accept then 0 else 1 + Accepts(answers, round + 1, n - 1)
  }

  predicate OfferAt(offers: seq<Offer>, cs: seq<seq<byte>>, answers: nat -> Answer, round: nat, i: nat)
    requires i < |offers| && i < |cs|
  {
    offers[i] == Offer(cs[i], |cs[i]|, answers(round + i))
  }

  function ResultOf(answer: Answer): Result {
    match answer case Accept => ERR_OK case Refuse => ERR_INPROGRESS case Abort => ERR_ABRT
  }

  /** Of the chunks `cs` the first `m` were accepted. These and the next one were offered, each with its
      exact length and answer; the result is that of the last answer; and exactly the chunks from a
      refused one on are held. */
  ghost predicate Exactly(cs: seq<seq<byte>>, m: nat, answers: nat -> Answer, round: nat, r: Outcome) {
    && m <= |cs| && |r.offers| == Min(m + 1, |cs|)
    && (forall i | 0 <= i < |r.offers| :: OfferAt(r.offers, cs, answers, round, i))
    && r.result == (if m == |cs| then ERR_OK else ResultOf(answers(round + m)))
    && Taken(r.offers) == Flatten(cs[..m])
    && Flatten(r.left) == (if r.result == ERR_INPROGRESS then Flatten(cs[m..]) else [])
    && (r.left == [] <==> r.result != ERR_INPROGRESS)
  }

  ghost predicate OfferedExactly(ps: seq<seq<byte>>, answers: nat -> Answer, round: nat) {
    Exactly(Chunks(ps), Accepts(answers, round, |Chunks(ps)|), answers, round, Offering(ps, answers, round))
  }

  /** Offering in closed form. */
  lemma {:induction false} OfferingExact(ps: seq<seq<byte>>, answers: nat -> Answer, round: nat)
    ensures OfferedExactly(ps, answers, round)
    decreases |ps|
  {
    if ps != [] {
      if answers(round) == Accept {
        OfferingExact(ps[ChunkLen(ps)..], answers, round + 1);
        AcceptedStep(ps, answers, round);
      } else {
        ChunksWhole(ps);
        NotAccepted(ps, answers, round);
      }
    }
  }

  lemma AcceptedStep(ps: seq<seq<byte>>, answers: nat -> Answer, round: nat)
    requires ps != [] && answers(round) == Accept && OfferedExactly(ps[ChunkLen(ps)..], answers, round + 1)
    ensures OfferedExactly(ps, answers, round)
  {
    var c, rest := Flatten(ps[..ChunkLen(ps)]), ps[ChunkLen(ps)..];
    var cs, r := Chunks(rest), Offering(rest, answers, round + 1);
    var m := Accepts(answers, round + 1, |cs|);
    OneMore(c, cs, m, answers, round, r);
    assert Chunks(ps) == [c] + cs && Accepts(answers, round, |[c] + cs|) == m + 1;
    assert Offering(ps, answers, round) == r.(offers := [Offer(c, |c|, Accept)] + r.offers);
  }

  lemma NotAccepted(ps: seq<seq<byte>>, answers: nat -> Answer, round: nat)
    requires ps != [] && answers(round) != Accept && Flatten(Chunks(ps)) == Flatten(ps)
    ensures Exactly(Chunks(ps), 0, answers, round, Offering(ps, answers, round))
  {
    var cs, r := Chunks(ps), Offering(ps, answers, round);
    assert cs[..0] == [] && cs[0..] == cs && r.offers[1..] == [];
    assert OfferAt(r.offers, cs, answers, round, 0);
  }

  lemma OneMore(c: seq<byte>, cs: seq<seq<byte>>, m: nat, answers: nat -> Answer, round: nat, r: Outcome)
    requires answers(round) == Accept && Exactly(cs, m, answers, round + 1, r)
    ensures Exactly([c] + cs, m + 1, answers, round, r.(offers := [Offer(c, |c|, Accept)] + r.offers))
  {
    var ds, q := [c] + cs, r.(offers := [Offer(c, |c|, Accept)] + r.offers);
    forall i | 0 <= i < |q.offers| ensures OfferAt(q.offers, ds, answers, round, i) {
      if i > 0 { assert OfferAt(r.offers, cs, answers, round + 1, i - 1); }
    }
    assert ds[..m + 1][1..] == cs[..m] && ds[m + 1..] == cs[m..] && q.offers[1..] == r.offers;
  }

  /** What was taken, followed by what is held, is what there was; after an abort, a front of it. */
  lemma OfferingConserves(ps: seq<seq<byte>>, answers: nat -> Answer, round: nat)
    ensures var r := Offering(ps, answers, round);
            && (r.result != ERR_ABRT ==> Taken(r.offers) + Flatten(r.left) == Flatten(ps))
            && Taken(r.offers) <= Flatten(ps) && (r.left == [] <==> r.result != ERR_INPROGRESS)
  {
    OfferingExact(ps, answers, round);
    ChunksWhole(ps);
    var cs := Chunks(ps);
    var m := Accepts(answers, round, |cs|);
    FlattenSplit(cs, m);
    assert m == |cs| ==> cs[m..] == [] && cs[..m] == cs;
  }

  // ----- a connection

  /** The pieces of refused_data, whether a FIN waits behind them, rcv_wnd and its maximum. The rest is
      history: the calls of the callback, all data that had to be delivered, how many FINs have arrived
      and after how many bytes the last one did, how often the end of the stream was announced and after
      how many bytes taken the last time. */
  datatype Flow = Flow(
    held: seq<seq<byte>>, ending: bool, wnd: int, wndMax: int,
    offers: seq<Offer>, arrived: seq<byte>, fins: nat, finAt: nat, closes: nat, closedAt: nat)

  datatype Step = Step(result: Result, flow: Flow)

  /** TCP_EVENT_CLOSED; the FIN's place in the window is returned before. */
  function Closed(f: Flow, abort: bool): Step {
    Step(if abort then ERR_ABRT else ERR_OK,
         f.(wnd := if f.wnd != f.wndMax then f.wnd + 1 else f.wnd, closes := f.closes + 1,
            closedAt := |Taken(f.offers)|))
  }

  /** A FIN has been received: it waits behind held data, or is announced. */
  function FinGot(f: Flow, abort: bool): Step {
    var g := f.(fins := f.fins + 1, finAt := |f.arrived|);
    if g.held != [] then Step(ERR_OK, g.(ending := true)) else Closed(g, abort)
  }

  /** New data while none is held. */
  function Delivered(f: Flow, ps: seq<seq<byte>>, rxClosed: bool, answers: nat -> Answer): Step {
    var g := f.(arrived := f.arrived + Flatten(ps));
    if rxClosed then Step(ERR_ABRT, g)
    else
      var r := Offering(ps, answers, 0);
      Step(r.result, g.(offers := f.offers + r.offers, held := r.left))
  }

  /** Held data once more; after the last of it the end of the stream, if that was waiting. */
  function Redelivered(f: Flow, answers: nat -> Answer, round: nat, abort: bool): Step {
    var r := Offering(f.held, answers, round);
    var g := f.(offers := f.offers + r.offers, held := r.left, ending := f.ending && r.left != []);
    if r.result == ERR_OK && f.held != [] && f.ending then Closed(g, abort) else Step(r.result, g)
  }

  /** One round of tcp_process_refused_data. */
  function Round(f: Flow, answer: Answer, abort: bool): Step
    requires f.held != []
  {
    var g, rest := f.(offers := f.offers + [TheOffer(f.held, answer)]), f.held[ChunkLen(f.held)..];
    match answer
    case Accept =>
      if rest == [] && f.ending then Closed(g.(held := [], ending := false), abort) else Step(ERR_OK, g.(held := rest))
    case Refuse => Step(ERR_INPROGRESS, g)
    case Abort => Step(ERR_ABRT, g.(held := [], ending := false))
  }

  /** The rounds, one after the other until one is not accepted, make up the redelivery. */
  lemma RoundStep(f: Flow, answers: nat -> Answer, round: nat, abort: bool)
    requires f.held != []
    ensures var s := Round(f, answers(round), abort);
            Redelivered(f, answers, round, abort)
            == if s.result == ERR_OK then Redelivered(s.flow, answers, round + 1, abort) else s
  {
    var o, rest := TheOffer(f.held, answers(round)), f.held[ChunkLen(f.held)..];
    if answers(round) == Accept {
      var r := Offering(rest, answers, round + 1);
      assert f.offers + ([o] + r.offers) == (f.offers + [o]) + r.offers && (f.offers + [o]) + [] == f.offers + [o];
      assert Offering(f.held, answers, round) == r.(offers := [o] + r.offers);
    }
  }

  /** What has been taken and what is held is everything that has arrived, in order; each FIN is waiting
      or was announced, the latter when exactly the bytes before it had been taken. */
  ghost predicate Sound(f: Flow) {
    && Taken(f.offers) + Flatten(f.held) == f.arrived
    && f.closes + (if f.ending then 1 else 0) == f.fins
    && (f.ending ==> f.held != [] && f.finAt == |f.arrived|)
    && (0 < f.closes == f.fins ==> f.closedAt == f.finAt)
  }

  /** Nothing of the history but the offers and the announcement differs. */
  predicate SameArrivals(f: Flow, g: Flow) {
    g.arrived == f.arrived && g.fins == f.fins && g.finAt == f.finAt
  }

  lemma OffersBalance(f: Flow, ps: seq<seq<byte>>, answers: nat -> Answer, round: nat)
    ensures var r := Offering(ps, answers, round);
            var taken := Taken(f.offers + r.offers);
            && (r.result != ERR_ABRT ==> taken + Flatten(r.left) == Taken(f.offers) + Flatten(ps))
            && taken <= Taken(f.offers) + Flatten(ps)
  {
    var r := Offering(ps, answers, round);
    OfferingConserves(ps, answers, round);
    TakenMore(f.offers, r.offers);
    Regroup(Taken(f.offers), Taken(r.offers), Flatten(r.left));
  }

  lemma RedeliveredSound(f: Flow, answers: nat -> Answer, abort: bool)
    requires Sound(f)
    ensures var r := Redelivered(f, answers, 0, abort);
            && (r.result != ERR_ABRT ==> Sound(r.flow)) && Taken(r.flow.offers) <= r.flow.arrived
            && SameArrivals(f, r.flow)
            && (r.result == ERR_OK ==> r.flow.held == [] && !r.flow.ending)
            && (r.result == ERR_INPROGRESS ==> f.held != [] && r.flow.held != [])
  {
    OffersBalance(f, f.held, answers, 0);
    OfferingConserves(f.held, answers, 0);
  }

  lemma DeliveredSound(f: Flow, ps: seq<seq<byte>>, rxClosed: bool, answers: nat -> Answer)
    requires Sound(f) && f.held == []
    ensures var r := Delivered(f, ps, rxClosed, answers);
            && (r.result != ERR_ABRT ==> Sound(r.flow)) && Taken(r.flow.offers) <= r.flow.arrived
            && r.flow.arrived == f.arrived + Flatten(ps) && !r.flow.ending
            && r.flow.fins == f.fins && r.flow.finAt == f.finAt
  {
    OffersBalance(f, ps, answers, 0);
    assert Taken(f.offers) + [] == Taken(f.offers);
  }

  lemma FinSound(f: Flow, abort: bool)
    requires Sound(f) && !f.ending
    ensures var r := FinGot(f, abort);
            && Sound(r.flow) && r.flow.arrived == f.arrived && r.flow.fins == f.fins + 1 && r.flow.finAt == |f.arrived|
  {
  }

  // ----- events

  /** What comes in: the data that has become deliverable with a segment, piece by piece, and whether
      a FIN has; or a tick of the fast timer. `again` answers for refused data, `answers` for new, and
      `abort` says that the announcement of the end is answered by an abort. */
  datatype Event =
    | Segment(pieces: seq<seq<byte>>, fin: bool, rxClosed: bool, again: nat -> Answer, answers: nat -> Answer,
              abort: bool)
    | Tick(again: nat -> Answer, abort: bool)

  function NonEmpty(ps: seq<seq<byte>>): seq<seq<byte>> {
    if ps == [] then [] else (if ps[0] == [] then [] else [ps[0]]) + NonEmpty(ps[1..])
  }

  lemma {:induction false} NonEmptySame(ps: seq<seq<byte>>)
    ensures Flatten(NonEmpty(ps)) == Flatten(ps) && (NonEmpty(ps) == [] <==> Flatten(ps) == [])
  {
    if ps != [] {
      NonEmptySame(ps[1..]);
      if ps[0] != [] {
        assert NonEmpty(ps)[1..] == NonEmpty(ps[1..]);
      } else {
        assert NonEmpty(ps) == NonEmpty(ps[1..]) && Flatten(ps) == Flatten(ps[1..]);
      }
    }
  }

  predicate Carries(e: Event) { e.Segment? && (e.fin || Flatten(e.pieces) != []) }

  /** The state after an event, whether the connection was aborted in it, and whether the segment was
      processed; it is not if the connection was aborted before, or if data is still refused. */
  datatype Moved = Moved(flow: Flow, aborted: bool, kept: bool)

  function Processed(f: Flow, e: Event): Moved
    requires e.Segment?
  {
    var d := if Flatten(e.pieces) == [] then Step(ERR_OK, f)
             else Delivered(f, NonEmpty(e.pieces), e.rxClosed, e.answers);
    if d.result == ERR_ABRT || !e.fin then Moved(d.flow, d.result == ERR_ABRT, true)
    else var g := FinGot(d.flow, e.abort); Moved(g.flow, g.result == ERR_ABRT, true)
  }

  /** tcp_input for a segment of this connection, and the part of tcp_fasttmr that concerns it. */
  function After(f: Flow, e: Event): Moved {
    var r := Redelivered(f, e.again, 0, e.abort);
    if r.result == ERR_ABRT then Moved(r.flow, true, false)
    else if e.Tick? then Moved(r.flow, false, true)
    else if r.flow.held != [] && Carries(e) then Moved(r.flow, false, false)
    else Processed(r.flow, e)
  }

  function Brought(e: Event, kept: bool): seq<byte> { if e.Segment? && kept then Flatten(e.pieces) else [] }

  function Ended(e: Event, kept: bool): nat { if e.Segment? && kept && e.fin then 1 else 0 }

  lemma ProcessedSound(f: Flow, e: Event)
    requires Sound(f) && e.Segment? && (Carries(e) ==> f.held == [])
    ensures var m := Processed(f, e);
            && Taken(m.flow.offers) <= m.flow.arrived && m.flow.arrived == f.arrived + Flatten(e.pieces)
            && (!m.aborted ==> Sound(m.flow) && m.flow.fins == f.fins + Ended(e, true)
                               && m.flow.finAt == if e.fin then |m.flow.arrived| else f.finAt)
  {
    NonEmptySame(e.pieces);
    if Flatten(e.pieces) == [] {
      assert f.arrived + [] == f.arrived;
      if e.fin { FinSound(f, e.abort); }
    } else {
      DeliveredSound(f, NonEmpty(e.pieces), e.rxClosed, e.answers);
      var d := Delivered(f, NonEmpty(e.pieces), e.rxClosed, e.answers);
      if e.fin && d.result != ERR_ABRT { FinSound(d.flow, e.abort); }
    }
  }

  /** One event keeps the balance, and exactly the data and the FIN of a processed segment have arrived. */
  lemma AfterSound(f: Flow, e: Event)
    requires Sound(f)
    ensures var m := After(f, e);
            && Taken(m.flow.offers) <= m.flow.arrived && m.flow.arrived == f.arrived + Brought(e, m.kept)
            && (!m.aborted ==> Sound(m.flow) && m.flow.fins == f.fins + Ended(e, m.kept)
                               && m.flow.finAt == if Ended(e, m.kept) == 1 then |m.flow.arrived| else f.finAt)
  {
    var r := Redelivered(f, e.again, 0, e.abort);
    RedeliveredSound(f, e.again, e.abort);
    assert f.arrived + [] == f.arrived;
    if r.result != ERR_ABRT && e.Segment? && !(r.flow.held != [] && Carries(e)) { ProcessedSound(r.flow, e); }
  }

  // ----- when a connection is aborted, and when a segment is dropped

  /** All chunks of the pieces are accepted, or one of them is answered by an abort first. */
  predicate AllAccepted(ps: seq<seq<byte>>, answers: nat -> Answer) {
    Accepts(answers, 0, |Chunks(ps)|) == |Chunks(ps)|
  }

  predicate AbortComes(ps: seq<seq<byte>>, answers: nat -> Answer) {
    var m := Accepts(answers, 0, |Chunks(ps)|); m < |Chunks(ps)| && answers(m) == Abort
  }

  lemma OfferingResult(ps: seq<seq<byte>>, answers: nat -> Answer)
    ensures var r := Offering(ps, answers, 0);
            && (r.result == ERR_OK <==> AllAccepted(ps, answers)) && (r.result == ERR_ABRT <==> AbortComes(ps, answers))
            && (r.left == [] <==> r.result != ERR_INPROGRESS)
  {
    OfferingExact(ps, answers, 0);
  }

  /** A segment is dropped, unless the connection is aborted, exactly if it has data or a FIN and the
      application has not accepted all that was held. */
  lemma KeptExactly(f: Flow, e: Event)
    requires e.Segment? && !After(f, e).aborted
    ensures After(f, e).kept <==> (Flatten(e.pieces) == [] && !e.fin) || AllAccepted(f.held, e.again)
  {
    OfferingResult(f.held, e.again);
  }

  /** Each announced end gives one byte of the window back. */
  predicate WindowFollows(f: Flow, g: Flow) {
    g.wndMax == f.wndMax && f.closes <= g.closes && g.wnd == Min(f.wnd + g.closes - f.closes, f.wndMax)
  }

  /** The window is otherwise left alone, and of an aborted connection nothing is held. */
  lemma AfterWindow(f: Flow, e: Event)
    requires Sound(f) && f.wnd <= f.wndMax
    ensures var m := After(f, e);
            WindowFollows(f, m.flow) && (m.aborted ==> m.flow.held == [] && !m.flow.ending)
  {
    var r := Redelivered(f, e.again, 0, e.abort);
    OfferingConserves(f.held, e.again, 0);
    if r.result != ERR_ABRT && e.Segment? && !(r.flow.held != [] && Carries(e)) {
      RedeliveredSound(f, e.again, e.abort);
      ProcessedWindow(r.flow, e);
    }
  }

  lemma ProcessedWindow(f: Flow, e: Event)
    requires Sound(f) && f.wnd <= f.wndMax && e.Segment? && (Carries(e) ==> f.held == [])
    ensures var m := Processed(f, e);
            WindowFollows(f, m.flow) && (m.aborted ==> m.flow.held == [] && !m.flow.ending)
  {
    if Flatten(e.pieces) != [] && !e.rxClosed { OfferingConserves(NonEmpty(e.pieces), e.answers, 0); }
  }

  predicate RedeliveryAborts(f: Flow, e: Event) {
    AbortComes(f.held, e.again) || (f.held != [] && f.ending && AllAccepted(f.held, e.again) && e.abort)
  }

  predicate ProcessingAborts(e: Event) {
    && e.Segment?
    && (if Flatten(e.pieces) == [] then e.fin && e.abort
        else
          || e.rxClosed || AbortComes(NonEmpty(e.pieces), e.answers)
          || (e.fin && AllAccepted(NonEmpty(e.pieces), e.answers) && e.abort))
  }

  /** The connection is aborted exactly if the application aborts it, when it is offered data or told
      the end, or if new data comes after the receiving side was closed. */
  lemma AbortedExactly(f: Flow, e: Event)
    ensures After(f, e).aborted <==>
            RedeliveryAborts(f, e) || (Carries(e) && AllAccepted(f.held, e.again) && ProcessingAborts(e))
  {
    var r := Redelivered(f, e.again, 0, e.abort);
    OfferingResult(f.held, e.again);
    if r.result != ERR_ABRT && Carries(e) && r.flow.held == [] { ProcessedAborts(r.flow, e); }
  }

  lemma ProcessedAborts(f: Flow, e: Event)
    requires Carries(e) && f.held == []
    ensures Processed(f, e).aborted <==> ProcessingAborts(e)
  {
    if Flatten(e.pieces) != [] { OfferingResult(NonEmpty(e.pieces), e.answers); }
  }

  // ----- runs

  datatype Running = Running(flow: Flow, aborted: bool)

  /** One event of a run; nothing happens any more after an abort. */
  function Advance(r: Running, e: Event): Moved {
    if r.aborted then Moved(r.flow, true, false) else After(r.flow, e)
  }

  /** Event `i` leads from state `i` to the next, and `kept` says whether it was kept. */
  predicate TraceAt(es: seq<Event>, rs: seq<Running>, kept: seq<bool>, i: nat)
    requires i < |es| == |kept| && |rs| == |es| + 1
  {
    Advance(rs[i], es[i]) == Moved(rs[i + 1].flow, rs[i + 1].aborted, kept[i])
  }

  /** The states of the run from `f`, one before each event and one at the end, and which events were kept. */
  ghost predicate Trace(f: Flow, es: seq<Event>, rs: seq<Running>, kept: seq<bool>) {
    && |kept| == |es| && |rs| == |es| + 1 && rs[0] == Running(f, false)
    && forall i {:trigger TraceAt(es, rs, kept, i)} | 0 <= i < |es| :: TraceAt(es, rs, kept, i)
  }

  /** The data of the segments that were processed among the first `n` events. */
  function AllBrought(es: seq<Event>, kept: seq<bool>, n: nat): seq<byte>
    requires n <= |es| == |kept|
  {
    if n == 0 then [] else AllBrought(es, kept, n - 1) + Brought(es[n - 1], kept[n - 1])
  }

  /** And how many FINs they had. */
  function AllEnded(es: seq<Event>, kept: seq<bool>, n: nat): nat
    requires n <= |es| == |kept|
  {
    if n == 0 then 0 else AllEnded(es, kept, n - 1) + Ended(es[n - 1], kept[n - 1])
  }

  ghost predicate New(f: Flow) { Sound(f) && f.offers == [] && f.arrived == [] && f.fins == 0 }

  ghost predicate DeliversAt(es: seq<Event>, rs: seq<Running>, kept: seq<bool>, n: nat)
    requires n <= |es| == |kept| && |rs| == |es| + 1
  {
    && Taken(rs[n].flow.offers) <= AllBrought(es, kept, n) == rs[n].flow.arrived
    && (!rs[n].aborted ==> Sound(rs[n].flow) && rs[n].flow.fins == AllEnded(es, kept, n))
  }

  /** What an event does to the balance, whatever the answers. */
  ghost predicate Effect(r: Running, e: Event, q: Running, kept: bool) {
    if r.aborted then q == r && !kept
    else
      && q.flow.arrived == r.flow.arrived + Brought(e, kept) && Taken(q.flow.offers) <= q.flow.arrived
      && (!q.aborted ==> Sound(q.flow) && q.flow.fins == r.flow.fins + Ended(e, kept)
                         && q.flow.finAt == if Ended(e, kept) == 1 then |q.flow.arrived| else r.flow.finAt)
  }

  ghost predicate EffectAt(es: seq<Event>, rs: seq<Running>, kept: seq<bool>, i: nat)
    requires i < |es| == |kept| && |rs| == |es| + 1
  {
    rs[i].aborted || Sound(rs[i].flow) ==> Effect(rs[i], es[i], rs[i + 1], kept[i])
  }

  ghost predicate Effects(f: Flow, es: seq<Event>, rs: seq<Running>, kept: seq<bool>) {
    && |kept| == |es| && |rs| == |es| + 1 && rs[0] == Running(f, false)
    && forall i {:trigger EffectAt(es, rs, kept, i)} | 0 <= i < |es| :: EffectAt(es, rs, kept, i)
  }

  lemma TraceEffects(f: Flow, es: seq<Event>, rs: seq<Running>, kept: seq<bool>)
    requires Trace(f, es, rs, kept)
    ensures Effects(f, es, rs, kept)
  {
    forall i | 0 <= i < |es| ensures EffectAt(es, rs, kept, i) {
      assert TraceAt(es, rs, kept, i);
      if !rs[i].aborted && Sound(rs[i].flow) { AfterSound(rs[i].flow, es[i]); }
    }
  }

  /** Over every run: what the application has taken, followed by what is held, is the data of all
      processed segments, in order; every FIN of theirs waits or was announced. After an abort, what was
      taken is a front of it. */
  lemma RunDelivers(f: Flow, es: seq<Event>, rs: seq<Running>, kept: seq<bool>, n: nat)
    requires New(f) && Trace(f, es, rs, kept) && n <= |es|
    ensures DeliversAt(es, rs, kept, n)
  {
    TraceEffects(f, es, rs, kept);
    Delivers(f, es, rs, kept, n);
  }

  /** And the window has grown by the announced ends alone. */
  lemma {:induction false} RunWindow(f: Flow, es: seq<Event>, rs: seq<Running>, kept: seq<bool>, n: nat)
    requires New(f) && f.wnd <= f.wndMax && Trace(f, es, rs, kept) && n <= |es|
    ensures WindowFollows(f, rs[n].flow) && (rs[n].aborted ==> rs[n].flow.held == [] && !rs[n].flow.ending)
  {
    if n > 0 {
      RunWindow(f, es, rs, kept, n - 1);
      assert TraceAt(es, rs, kept, n - 1);
      if !rs[n - 1].aborted {
        RunDelivers(f, es, rs, kept, n - 1);
        AfterWindow(rs[n - 1].flow, es[n - 1]);
      }
    }
  }

  lemma {:induction false} Delivers(f: Flow, es: seq<Event>, rs: seq<Running>, kept: seq<bool>, n: nat)
    requires New(f) && Effects(f, es, rs, kept) && n <= |es|
    ensures DeliversAt(es, rs, kept, n)
  {
    if n > 0 {
      Delivers(f, es, rs, kept, n - 1);
      assert EffectAt(es, rs, kept, n - 1);
      EventDelivers(es, rs, kept, n - 1);
    }
  }

  /** Event `i` of a run. */
  lemma EventDelivers(es: seq<Event>, rs: seq<Running>, kept: seq<bool>, i: nat)
    requires i < |es| == |kept| && |rs| == |es| + 1 && DeliversAt(es, rs, kept, i) && EffectAt(es, rs, kept, i)
    ensures DeliversAt(es, rs, kept, i + 1)
    ensures !rs[i + 1].aborted ==> !rs[i].aborted && FinAtAfter(es, rs, kept, i)
  {
    assert rs[i].flow.arrived + [] == rs[i].flow.arrived;
  }

  predicate FinAtAfter(es: seq<Event>, rs: seq<Running>, kept: seq<bool>, i: nat)
    requires i < |es| == |kept| && |rs| == |es| + 1
  {
    rs[i + 1].flow.finAt == if FinComes(es, kept, i) then |AllBrought(es, kept, i + 1)| else rs[i].flow.finAt
  }

  /** Event `i` is a segment with a FIN that was processed. */
  predicate FinComes(es: seq<Event>, kept: seq<bool>, i: nat)
    requires i < |es| == |kept|
  {
    Ended(es[i], kept[i]) == 1
  }

  /** Event `i` brought the last FIN among the first `n`. */
  ghost predicate LastFin(es: seq<Event>, kept: seq<bool>, i: nat, n: nat)
    requires i < n <= |es| == |kept|
  {
    FinComes(es, kept, i) && forall j {:trigger FinComes(es, kept, j)} | i < j < n :: !FinComes(es, kept, j)
  }

  /** Whichever event brought the last FIN: it is announced when exactly the bytes up to there had been
      taken, and until then it waits, and nothing comes after it. */
  lemma FinPlace(f: Flow, es: seq<Event>, rs: seq<Running>, kept: seq<bool>, i: nat, n: nat)
    requires New(f) && Trace(f, es, rs, kept) && i < n <= |es| && !rs[n].aborted && LastFin(es, kept, i, n)
    ensures var before := AllBrought(es, kept, i + 1);
            if rs[n].flow.ending then AllBrought(es, kept, n) == before else rs[n].flow.closedAt == |before|
  {
    assert rs[n].flow.finAt == |AllBrought(es, kept, i + 1)| by {
      TraceFinSteps(f, es, rs, kept);
      FinRemembered(es, rs, kept, i, n);
    }
    assert AllBrought(es, kept, i + 1) <= AllBrought(es, kept, n) by { BroughtGrows(es, kept, i + 1, n); }
    assert rs[n].flow.fins > 0 && Sound(rs[n].flow) && rs[n].flow.arrived == AllBrought(es, kept, n) by {
      EndedGrows(es, kept, i, n);
      RunDelivers(f, es, rs, kept, n);
    }
    FinWhere(rs[n].flow, AllBrought(es, kept, i + 1), AllBrought(es, kept, n));
  }

  lemma FinWhere(g: Flow, before: seq<byte>, whole: seq<byte>)
    requires Sound(g) && g.fins > 0 && g.finAt == |before| && before <= whole == g.arrived
    ensures if g.ending then whole == before else g.closedAt == |before|
  {
  }

  predicate FinStep(es: seq<Event>, rs: seq<Running>, kept: seq<bool>, i: nat)
    requires i < |es| == |kept| && |rs| == |es| + 1
  {
    !rs[i + 1].aborted ==> !rs[i].aborted && FinAtAfter(es, rs, kept, i)
  }

  ghost predicate FinSteps(es: seq<Event>, rs: seq<Running>, kept: seq<bool>)
    requires |es| == |kept| && |rs| == |es| + 1
  {
    forall i {:trigger FinStep(es, rs, kept, i)} | 0 <= i < |es| :: FinStep(es, rs, kept, i)
  }

  lemma TraceFinSteps(f: Flow, es: seq<Event>, rs: seq<Running>, kept: seq<bool>)
    requires New(f) && Trace(f, es, rs, kept)
    ensures FinSteps(es, rs, kept)
  {
    TraceEffects(f, es, rs, kept);
    forall i | 0 <= i < |es| ensures FinStep(es, rs, kept, i) {
      Delivers(f, es, rs, kept, i);
      assert EffectAt(es, rs, kept, i);
      EventDelivers(es, rs, kept, i);
    }
  }

  lemma {:induction false} FinRemembered(es: seq<Event>, rs: seq<Running>, kept: seq<bool>, i: nat, n: nat)
    requires |es| == |kept| && |rs| == |es| + 1 && FinSteps(es, rs, kept)
    requires i < n <= |es| && !rs[n].aborted && LastFin(es, kept, i, n)
    ensures rs[n].flow.finAt == |AllBrought(es, kept, i + 1)|
  {
    assert FinStep(es, rs, kept, n - 1);
    if i < n - 1 {
      assert !FinComes(es, kept, n - 1);
      FinRemembered(es, rs, kept, i, n - 1);
    }
  }

  lemma {:induction false} EndedGrows(es: seq<Event>, kept: seq<bool>, i: nat, n: nat)
    requires i < n <= |es| == |kept| && FinComes(es, kept, i)
    ensures AllEnded(es, kept, n) >= 1
  {
    if i < n - 1 { EndedGrows(es, kept, i, n - 1); }
  }

  lemma {:induction false} BroughtGrows(es: seq<Event>, kept: seq<bool>, m: nat, n: nat)
    requires m <= n <= |es| == |kept|
    ensures AllBrought(es, kept, m) <= AllBrought(es, kept, n)
  {
    if m < n { BroughtGrows(es, kept, m, n - 1); }
  }

  /** A run in which the application aborts nothing, and no data comes after it has closed the receiving
      side, is never aborted. */
  lemma {:induction false} RunUnharmed(f: Flow, es: seq<Event>, rs: seq<Running>, kept: seq<bool>, n: nat)
    requires Trace(f, es, rs, kept) && n <= |es| && forall i | 0 <= i < n :: Harmless(es[i])
    ensures !rs[n].aborted
  {
    if n > 0 {
      RunUnharmed(f, es, rs, kept, n - 1);
      assert TraceAt(es, rs, kept, n - 1) && Harmless(es[n - 1]);
      AbortedExactly(rs[n - 1].flow, es[n - 1]);
    }
  }

  /** In any run, a segment with data or a FIN that finds the connection alive and is not processed meets
      data that the application has refused before and does not accept now. */
  lemma DroppedOnlyRefused(f: Flow, es: seq<Event>, rs: seq<Running>, kept: seq<bool>, i: nat)
    requires Trace(f, es, rs, kept) && i < |es| && Carries(es[i]) && !rs[i + 1].aborted
    ensures !rs[i].aborted && (!kept[i] <==> !AllAccepted(rs[i].flow.held, es[i].again))
    ensures !kept[i] ==> rs[i].flow.held != [] && rs[i + 1].flow.held != []
  {
    assert TraceAt(es, rs, kept, i);
    KeptExactly(rs[i].flow, es[i]);
    OfferingResult(rs[i].flow.held, es[i].again);
  }

  ghost predicate NoAbort(answers: nat -> Answer) { forall n :: answers(n) != Abort }

  ghost predicate Harmless(e: Event) {
    !e.abort && NoAbort(e.again) && (e.Segment? ==> !e.rxClosed && NoAbort(e.answers))
  }
}
