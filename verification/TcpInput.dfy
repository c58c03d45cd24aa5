/** How data gets to the application: tcp_input around the delivery of TcpRefused, and runs of it over
    any sequence of segments and timer ticks, with any answers of the application. */
module TcpInput {
  import opened Basics
  import opened IdList
  import opened PbufRefs
  import opened PbufChain
  import opened PbufOps
  import opened TcpFlow
  import opened TcpRefused

  predicate Admissible(e: Event) { e.Segment? ==> Fits(e.pieces) }

  // ----- putting the pieces together

  predicate PlainAt(s: Store, path: seq<Id>, i: nat)
    requires i < |path|
  {
    path[i] in s && !s[path[i]].fin
  }

  /** No pbuf carries the FIN flag. */
  ghost predicate Plain(s: Store, path: seq<Id>) { forall i | 0 <= i < |path| :: PlainAt(s, path, i) }

  lemma PlainCarried(s: Store, hs: multiset<Id>, path: seq<Id>)
    requires Chain(s, path) && Totals(s, path) && Plain(s, path) && (path != [] ==> path[0] in hs)
    ensures Carried(s, hs, Head(path), path) && !FinOf(s, path)
  {
    forall i | 0 <= i < |path| ensures FinAt(s, path, i) { assert PlainAt(s, path, i); }
    assert path != [] ==> PlainAt(s, path, 0);
  }

  /** An address that is not in use. */
  method FindFree(s: Store) returns (x: Id)
    ensures x !in s
  {
    x := 0;
    while x in s
      invariant Upto(x) <= s.Keys
      decreases |s.Keys| - x
    {
      Room(s.Keys, x);
      x := x + 1;
    }
  }

  lemma Room(keys: set<Id>, x: Id)
    requires Upto(x) <= keys && x in keys
    ensures Upto(x + 1) <= keys && x < |keys|
  {
    Smaller(Upto(x + 1), keys);
  }

  lemma {:induction false} Smaller(a: set<Id>, b: set<Id>)
    requires a <= b
    ensures |a| <= |b|
  {
    if a != {} {
      var x :| x in a;
      Smaller(a - {x}, b - {x});
    }
  }

  /** A new pbuf at the end of the chain. */
  lemma AppendFacts(s: Store, t: Store, path: seq<Id>, x: Id, data: seq<byte>)
    requires Chain(s, path) && Totals(s, path) && Plain(s, path) && x !in s && t == s[x := Fresh(data)]
    ensures Chain(t, path) && Totals(t, path) && Plain(t, path + [x]) && Disjoint(path, [x])
    ensures Datas(t, path + [x]) == Datas(s, path) + [data]
  {
    forall i | 0 <= i < |path| ensures SameBody(s, t, path[i]) && PlainAt(t, path + [x], i) && path[i] != x {
      assert LinkAt(s, path, i) && PlainAt(s, path, i);
    }
    WholeSame(s, t, path);
    forall i, j | 0 <= i < |path| && 0 <= j < |[x]| ensures Differ(path, [x], i, j) { }
  }

  lemma PlainStays(s: Store, t: Store, path: seq<Id>)
    requires Plain(s, path) && FinsKept(s, t, None) && s.Keys == t.Keys
    ensures Plain(t, path)
  {
    forall i | 0 <= i < |path| ensures PlainAt(t, path, i) {
      assert PlainAt(s, path, i) && path[i] in t.Keys && FinKept(s, t, None, path[i]);
    }
  }

  /** One more piece: the first is recv_data, later ones are joined to it. */
  method Append(mem: Pbufs, recv: Option<Id>, data: seq<byte>, ghost path: seq<Id>)
    returns (r: Option<Id>, ghost path': seq<Id>)
    requires RefsOk(mem.store, mem.handles) && Chain(mem.store, path) && Totals(mem.store, path) && |data| < TWO16
    requires Plain(mem.store, path) && recv == Head(path) && (path != [] ==> path[0] in mem.handles)
    modifies mem
    ensures RefsOk(mem.store, mem.handles) && Chain(mem.store, path') && Totals(mem.store, path')
    ensures Plain(mem.store, path') && r == Head(path') && path' != [] && path'[0] in mem.handles
    ensures Datas(mem.store, path') == old(Datas(mem.store, path)) + [data]
  {
    ghost var s := mem.store;
    var x := FindFree(mem.store);
    r := mem.Alloc(Some(x), data);
    AppendFacts(s, mem.store, path, x, data);
    path' := path + [x];
    if recv.Some? {
      ghost var t := mem.store;
      mem.Cat(recv.value, x, path, [x]);
      PlainStays(t, mem.store, path');
      DatasSame(t, mem.store, path');
      r := recv;
    } else {
      assert path' == [x];
    }
  }

  /** tcp_receive: the segment and what was waiting for it become recv_data. */
  method Assemble(mem: Pbufs, pieces: seq<seq<byte>>) returns (recv: Option<Id>, ghost path: seq<Id>)
    requires RefsOk(mem.store, mem.handles) && Fits(pieces)
    modifies mem
    ensures RefsOk(mem.store, mem.handles) && Carried(mem.store, mem.handles, recv, path)
    ensures !FinOf(mem.store, path) && Datas(mem.store, path) == NonEmpty(pieces)
  {
    recv, path := None, [];
    var i := 0;
    while i < |pieces|
      invariant i <= |pieces| && RefsOk(mem.store, mem.handles) && Chain(mem.store, path) && Totals(mem.store, path)
      invariant Plain(mem.store, path) && recv == Head(path) && (path != [] ==> path[0] in mem.handles)
      invariant Datas(mem.store, path) == NonEmpty(pieces[..i])
    {
      NonEmptySnoc(pieces, i);
      if |pieces[i]| > 0 { recv, path := Append(mem, recv, pieces[i], path); }
      i := i + 1;
    }
    assert pieces[..|pieces|] == pieces;
    PlainCarried(mem.store, mem.handles, path);
  }

  lemma {:induction false} NonEmptySnoc(ps: seq<seq<byte>>, i: nat)
    requires i < |ps|
    ensures NonEmpty(ps[..i + 1]) == NonEmpty(ps[..i]) + (if ps[i] == [] then [] else [ps[i]])
    decreases i
  {
    if i == 0 {
      assert ps[..1] == [ps[0]] && ps[..1][1..] == [];
    } else {
      NonEmptySnoc(ps[1..], i - 1);
      assert ps[1..][..i] == ps[..i + 1][1..] && ps[1..][..i - 1] == ps[..i][1..];
    }
  }

  // ----- tcp_input

  /** One event: a segment of the connection, or the fast timer. */
  method Input(c: Connection, e: Event) returns (aborted: bool, ghost kept: bool)
    requires c.Valid() && Admissible(e)
    modifies c, c.mem
    ensures c.Valid() && Moved(c.Value(), aborted, kept) == After(old(c.Value()), e)
  {
    if e.Tick? {
      var result := c.ProcessRefused(e.again, e.abort);
      return result == ERR_ABRT, result != ERR_ABRT;
    }
    if c.refused.Some? {
      var result := c.ProcessRefused(e.again, e.abort);
      if result == ERR_ABRT || (c.refused.Some? && (e.fin || Flatten(e.pieces) != [])) {
        return result == ERR_ABRT, false;
      }
    } else {
      NothingHeld(c.Value(), e.again, 0, e.abort);
    }
    aborted := Process(c, e);
    kept := true;
  }

  /** What is done with a segment when no data is refused any more, or when it carries nothing. */
  method Process(c: Connection, e: Event) returns (aborted: bool)
    requires c.Valid() && e.Segment? && Fits(e.pieces) && (Carries(e) ==> c.refused.None?)
    modifies c, c.mem
    ensures c.Valid() && Moved(c.Value(), aborted, true) == Processed(old(c.Value()), e)
  {
    aborted := false;
    if Flatten(e.pieces) != [] { aborted := Take(c, e); }
    if !aborted && e.fin {
      var result := c.GotFin(e.abort);
      aborted := result == ERR_ABRT;
    }
  }

  method Take(c: Connection, e: Event) returns (aborted: bool)
    requires c.Valid() && c.refused.None? && e.Segment? && Fits(e.pieces) && Flatten(e.pieces) != []
    modifies c, c.mem
    ensures c.Valid()
    ensures var d := Delivered(old(c.Value()), NonEmpty(e.pieces), e.rxClosed, e.answers);
            c.Value() == d.flow && aborted == (d.result == ERR_ABRT)
  {
    assert c.path == [];
    NonEmptySame(e.pieces);
    ghost var path;
    var recv, result;
    recv, path := Assemble(c.mem, e.pieces);
    result := c.Deliver(recv.value, e.rxClosed, e.answers, path);
    aborted := result == ERR_ABRT;
  }

  // ----- runs

  /** A run goes through exactly the states of TcpFlow.Trace, to its end or to an abort. The lemmas there
      say what that means for the application: all data of the processed segments in order, no segment
      dropped but while data is refused, and the end of the stream announced in its place. */
  method Run(c: Connection, events: seq<Event>)
    returns (aborted: bool, ghost states: seq<Running>, ghost kept: seq<bool>)
    requires c.Valid() && forall i | 0 <= i < |events| :: Admissible(events[i])
    modifies c, c.mem
    ensures c.Valid() && Trace(old(c.Value()), events, states, kept)
    ensures states[|events|] == Running(c.Value(), aborted)
    ensures New(old(c.Value())) ==> DeliversAt(events, states, kept, |events|)
  {
    aborted, states, kept := false, [Running(c.Value(), false)], [];
    var i := 0;
    while i < |events|
      invariant i <= |events| && c.Valid() && |states| == i + 1 && states[i] == Running(c.Value(), aborted)
      invariant Trace(old(c.Value()), events[..i], states, kept)
    {
      ghost var k := false;
      if !aborted { aborted, k := Input(c, events[i]); }
      Extended(old(c.Value()), events, states, kept, i, Running(c.Value(), aborted), k);
      states, kept := states + [Running(c.Value(), aborted)], kept + [k];
      i := i + 1;
    }
    assert events[..|events|] == events;
    if New(old(c.Value())) { RunDelivers(old(c.Value()), events, states, kept, |events|); }
  }

  lemma Extended(f: Flow, es: seq<Event>, rs: seq<Running>, kept: seq<bool>, n: nat, r: Running, k: bool)
    requires n < |es| && |rs| == n + 1 && Trace(f, es[..n], rs, kept)
    requires Advance(rs[n], es[n]) == Moved(r.flow, r.aborted, k)
    ensures Trace(f, es[..n + 1], rs + [r], kept + [k])
  {
    var fs, qs, ks := es[..n + 1], rs + [r], kept + [k];
    forall i | 0 <= i < |fs| ensures TraceAt(fs, qs, ks, i) {
      assert i < n ==> TraceAt(es[..n], rs, kept, i);
    }
  }
}
