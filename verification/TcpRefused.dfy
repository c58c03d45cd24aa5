/** Data the application has refused, and its redelivery: tcp_process_refused_data of tcp.c with
    window scaling, where more than 64 KB can be held although totals are 16 bits wide.

    The held bytes are a pbuf chain. It is offered in chunks that 16-bit totals can describe; a
    refused chunk is put back in front of the rest. The answers of the application are arbitrary. */
module TcpRefused {
  import opened Basics
  import opened IdList
  import opened PbufRefs
  import opened PbufChain
  import opened PbufOps
  import opened TcpFlow

  /** The payloads of the pbufs of a path. */
  function Datas(s: Store, path: seq<Id>): (r: seq<seq<byte>>)
    ensures |r| == |path|
  {
    seq(|path|, i requires 0 <= i < |path| => DataOf(s, path[i]))
  }

  lemma {:induction false} FlatDatas(s: Store, path: seq<Id>)
    ensures Flat(s, path) == Flatten(Datas(s, path))
  {
    if path != [] {
      FlatDatas(s, path[1..]);
      assert Datas(s, path)[1..] == Datas(s, path[1..]);
    }
  }

  lemma DatasCut(s: Store, path: seq<Id>, k: nat)
    requires k <= |path|
    ensures Datas(s, path[..k]) == Datas(s, path)[..k] && Datas(s, path[k..]) == Datas(s, path)[k..]
  {
  }

  lemma DatasSame(s: Store, t: Store, path: seq<Id>)
    requires DatasKept(s, t)
    ensures Datas(s, path) == Datas(t, path)
  {
    forall i | 0 <= i < |path| ensures DataOf(s, path[i]) == DataOf(t, path[i]) { assert SameData(s, t, path[i]); }
  }

  lemma PartsDisjoint(path: seq<Id>, k: nat)
    requires Distinct(path) && k <= |path|
    ensures Disjoint(path[..k], path[k..])
  {
    forall i, j | 0 <= i < k && 0 <= j < |path[k..]| ensures Differ(path[..k], path[k..], i, j) {
      assert Apart(path, i, k + j);
    }
  }

  /** A pbuf behind the head carries the FIN flag only if the head does. */
  ghost predicate FinInFront(s: Store, path: seq<Id>) {
    forall i {:trigger FinAt(s, path, i)} | 0 <= i < |path| :: FinAt(s, path, i)
  }

  predicate FinAt(s: Store, path: seq<Id>, i: nat)
    requires i < |path|
  {
    path[i] in s && s[path[i]].fin ==> path[0] in s && s[path[0]].fin
  }

  /** Splitting hands the flag on to the rest, so it is still in front there. */
  lemma FinHandedOn(s: Store, t: Store, path: seq<Id>, k: nat)
    requires Chain(s, path) && FinInFront(s, path) && 0 < k < |path| && path[k] in t && path[k] in s && path[0] in s
    requires t[path[k]].fin == (s[path[k]].fin || s[path[0]].fin)
    requires FinsKept(s, t, Some(path[k]))
    ensures FinInFront(t, path[k..]) && t[path[k]].fin == s[path[0]].fin
  {
    assert FinAt(s, path, k);
    forall i | 0 <= i < |path[k..]| ensures FinAt(t, path[k..], i) {
      assert FinAt(s, path, k + i) && FinKept(s, t, Some(path[k]), path[k + i]);
    }
  }

  /** After splitting and joining again the flag is in front as before. */
  lemma FinPutBack(s: Store, t: Store, path: seq<Id>, k: nat)
    requires Chain(s, path) && FinInFront(s, path) && 0 < k <= |path| && path[0] in s && path[0] in t
    requires k < |path| ==> path[k] in t && path[k] in s && t[path[k]].fin == (s[path[k]].fin || s[path[0]].fin)
    requires FinsKept(s, t, Head(path[k..]))
    ensures FinInFront(t, path) && t[path[0]].fin == s[path[0]].fin
  {
    assert k < |path| ==> Apart(path, 0, k) && FinAt(s, path, k);
    assert FinKept(s, t, Head(path[k..]), path[0]);
    forall i | 0 <= i < |path| ensures FinAt(t, path, i) {
      assert FinAt(s, path, i) && FinKept(s, t, Head(path[k..]), path[i]);
    }
  }

  /** A chain with its totals, held at its head by `p`. */
  ghost predicate Carried(s: Store, hs: multiset<Id>, p: Option<Id>, path: seq<Id>) {
    Chain(s, path) && Totals(s, path) && p == Head(path) && (path != [] ==> path[0] in hs) && FinInFront(s, path)
  }

  predicate FinOf(s: Store, path: seq<Id>) { path != [] && path[0] in s && s[path[0]].fin }

  class Connection {
    const mem: Pbufs
    var refused: Option<Id>        // refused_data
    var rcvWnd: int
    const wndMax: int
    ghost var path: seq<Id>        // the pbufs of refused_data
    ghost var offers: seq<Offer>   // every call of the receive callback so far
    ghost var arrived: seq<byte>   // all data that tcp_input had to deliver so far
    ghost var fins: nat            // FINs that have arrived
    ghost var finAt: nat           // how many bytes had arrived before the last one
    ghost var closes: nat          // calls of the callback that announced the end of the stream
    ghost var closedAt: nat        // how many bytes had been taken before the last one

    constructor (mem: Pbufs, wnd: int)
      requires RefsOk(mem.store, mem.handles)
      ensures this.mem == mem && Valid() && Value() == Flow([], false, wnd, wnd, [], [], 0, 0, 0, 0)
    {
      this.mem, wndMax, rcvWnd, refused := mem, wnd, wnd, None;
      path, offers, arrived, fins, finAt, closes, closedAt := [], [], [], 0, 0, 0, 0;
    }

    ghost predicate Valid()
      reads this, mem
    {
      RefsOk(mem.store, mem.handles) && Carried(mem.store, mem.handles, refused, path)
    }

    ghost function Value(): Flow
      reads this, mem
    {
      Flow(Datas(mem.store, path), FinOf(mem.store, path), rcvWnd, wndMax, offers, arrived, fins, finAt, closes,
           closedAt)
    }

    /** The callback is told that the stream has ended; the FIN's place in the window is returned. */
    method RaiseClosed(abort: bool) returns (result: Result)
      modifies `rcvWnd, `closes, `closedAt
      ensures Step(result, Value()) == Closed(old(Value()), abort)
    {
      if rcvWnd != wndMax { rcvWnd := rcvWnd + 1; }
      closes, closedAt := closes + 1, |Taken(offers)|;
      result := if abort then ERR_ABRT else ERR_OK;
    }

    /** tcp_input when a FIN has arrived: now, or after the held data. */
    method GotFin(abort: bool) returns (result: Result)
      requires Valid()
      modifies this, mem
      ensures Valid() && Step(result, Value()) == FinGot(old(Value()), abort)
    {
      result := ERR_OK;
      fins, finAt := fins + 1, |arrived|;
      if refused.Some? {
        assert LinkAt(mem.store, path, 0);
        FlagFacts(mem.store, mem.handles, path);
        mem.store := Flagged(mem.store, refused.value);
      } else {
        result := RaiseClosed(abort);
      }
    }

    /** Split off what 16-bit totals can describe and show it to the application; what it refuses is
        joined with the rest again. */
    method Show(p: Id, answer: Answer, ghost cpath: seq<Id>) returns (rest: Option<Id>, ghost rpath: seq<Id>)
      requires RefsOk(mem.store, mem.handles) && Carried(mem.store, mem.handles, Some(p), cpath)
      modifies mem, `offers
      ensures RefsOk(mem.store, mem.handles) && Carried(mem.store, mem.handles, rest, rpath)
      ensures var ps := old(Datas(mem.store, cpath));
              && ps != [] && offers == old(offers) + [TheOffer(ps, answer)]
              && Datas(mem.store, rpath) == if answer == Refuse then ps else ps[ChunkLen(ps)..]
      ensures rpath != [] ==> FinOf(mem.store, rpath) == old(FinOf(mem.store, cpath))
      ensures answer == Refuse ==> rest == Some(p) && rpath == cpath
    {
      ghost var s, k := mem.store, 0;
      assert LinkAt(s, cpath, 0);
      rest, k := mem.Split64k(p, cpath);
      SplitFacts(s, mem.store, cpath, k);
      SplitOffer(s, mem.store, cpath, k, answer);
      offers := offers + [Offer(Flat(mem.store, cpath[..k]), mem.store[p].totLen, answer)];
      rpath := cpath[k..];
      if answer == Refuse {
        PutBack(p, rest, s, cpath, k);
        rest, rpath := Some(p), cpath;
      }
    }

    /** A refused chunk goes back in front of the rest. */
    method PutBack(p: Id, rest: Option<Id>, ghost s: Store, ghost cpath: seq<Id>, ghost k: nat)
      requires RefsOk(mem.store, mem.handles) && 0 < k <= |cpath| && cpath[0] == p && rest == Head(cpath[k..])
      requires Chain(s, cpath) && FinInFront(s, cpath) && p in s && Split(s, mem.store, cpath, k) && p in mem.handles
      requires DatasKept(s, mem.store) && (rest.Some? ==> rest.value in mem.handles)
      modifies mem
      ensures RefsOk(mem.store, mem.handles) && Carried(mem.store, mem.handles, Some(p), cpath)
      ensures Datas(mem.store, cpath) == Datas(s, cpath) && FinOf(mem.store, cpath) == s[p].fin
    {
      PutBackFacts(s, mem.store, cpath, k);
      DatasSame(s, mem.store, cpath);
      if rest.Some? {
        ghost var t := mem.store;
        mem.Cat(p, rest.value, cpath[..k], cpath[k..]);
        FinStays(t, mem.store, cpath);
        DatasSame(t, mem.store, cpath);
        assert p in t.Keys && FinKept(t, mem.store, None, p);
      }
    }

    /** The data of a segment is shown to the application: tcp_input. What it refuses becomes
        refused_data. After the receiving side was closed, the connection is aborted instead. */
    method Deliver(data: Id, rxClosed: bool, answers: nat -> Answer, ghost dpath: seq<Id>) returns (result: Result)
      requires Valid() && refused.None?
      requires Carried(mem.store, mem.handles, Some(data), dpath) && !FinOf(mem.store, dpath)
      modifies this, mem
      ensures Valid()
      ensures Step(result, Value()) == Delivered(old(Value()), old(Datas(mem.store, dpath)), rxClosed, answers)
    {
      assert path == [];
      arrived := arrived + Flatten(Datas(mem.store, dpath));
      if rxClosed {
        Discard(data, dpath);
        return ERR_ABRT;
      }
      result, path := ShowAll(data, answers, dpath);
    }

    /** The loop of tcp_input, while refused_data is empty. */
    method ShowAll(data: Id, answers: nat -> Answer, ghost dpath: seq<Id>)
      returns (result: Result, ghost cpath: seq<Id>)
      requires RefsOk(mem.store, mem.handles) && refused.None?
      requires Carried(mem.store, mem.handles, Some(data), dpath) && !FinOf(mem.store, dpath)
      modifies `refused, `offers, mem
      ensures RefsOk(mem.store, mem.handles) && Carried(mem.store, mem.handles, refused, cpath)
      ensures !FinOf(mem.store, cpath)
      ensures var r := Offering(old(Datas(mem.store, dpath)), answers, 0);
              result == r.result && offers == old(offers) + r.offers && Datas(mem.store, cpath) == r.left
    {
      var recv, round := Some(data), 0;
      ghost var want, shown := Offering(Datas(mem.store, dpath), answers, 0), [];
      cpath := dpath;
      while recv.Some?
        invariant RefsOk(mem.store, mem.handles) && refused.None? && offers == old(offers) + shown
        invariant Carried(mem.store, mem.handles, recv, cpath) && !FinOf(mem.store, cpath)
        invariant want == Having(shown, Offering(Datas(mem.store, cpath), answers, round))
        decreases |cpath|
      {
        ghost var ps := Datas(mem.store, cpath);
        var answer, rest := answers(round), None;
        rest, cpath := Show(recv.value, answer, cpath);
        ShownStep(shown, ps, answers, round);
        shown := shown + [TheOffer(ps, answer)];
        match answer
        case Abort =>
          if rest.Some? { var gone := mem.Free(rest); }
          return ERR_ABRT, [];
        case Refuse =>
          refused := recv;
          return ERR_INPROGRESS, cpath;
        case Accept =>
          recv, round := rest, round + 1;
      }
      result := ERR_OK;
    }

    /** Data after the receiving side was closed: both parts are given up. */
    method Discard(data: Id, ghost dpath: seq<Id>)
      requires RefsOk(mem.store, mem.handles) && Carried(mem.store, mem.handles, Some(data), dpath)
      modifies mem
      ensures RefsOk(mem.store, mem.handles) && mem.handles == old(mem.handles) - multiset{data}
    {
      ghost var hs, k := mem.handles, 0;
      var rest, gone;
      rest, k := mem.Split64k(data, dpath);
      gone := mem.Free(Some(data));
      if rest.Some? {
        assert Apart(dpath, 0, k) && rest.value in mem.handles;
        gone := mem.Free(rest);
      }
      assert mem.handles == hs - multiset{data};
    }

    /** The flags of refused_data. */
    method RefusedFin() returns (fin: bool)
      requires Valid() && refused.Some?
      ensures fin == FinOf(mem.store, path)
    {
      assert LinkAt(mem.store, path, 0);
      fin := mem.store[refused.value].fin;
    }

    /** What the application's tcp_abort does to refused_data: tcp_pcb_purge frees it. */
    method Purge()
      requires Valid()
      modifies `refused, `path, mem
      ensures Valid() && path == [] && refused.None?
    {
      if refused.Some? { var gone := mem.Free(refused); }
      refused, path := None, [];
    }

    /** One round of the loop of tcp_process_refused_data. */
    method Redeliver(answer: Answer, abort: bool) returns (result: Result)
      requires Valid() && refused.Some?
      modifies this, mem
      ensures Valid() && Step(result, Value()) == Round(old(Value()), answer, abort)
    {
      var fin := RefusedFin();
      refused, path := Show(refused.value, answer, path);
      match answer
      case Accept =>
        result := ERR_OK;
        if fin && refused.None? { result := RaiseClosed(abort); }
      case Abort =>
        Purge();
        result := ERR_ABRT;
      case Refuse =>
        result := ERR_INPROGRESS;
    }

    /** tcp_process_refused_data. */
    method ProcessRefused(answers: nat -> Answer, abort: bool) returns (result: Result)
      requires Valid()
      modifies this, mem
      ensures Valid() && Step(result, Value()) == Redelivered(old(Value()), answers, 0, abort)
    {
      result := ERR_OK;
      var round := 0;
      while refused.Some?
        invariant Valid() && result == ERR_OK
        invariant Redelivered(Value(), answers, round, abort) == Redelivered(old(Value()), answers, 0, abort)
        decreases |path|
      {
        RoundStep(Value(), answers, round, abort);
        result := Redeliver(answers(round), abort);
        if result != ERR_OK { return; }
        round := round + 1;
      }
      NothingHeld(Value(), answers, round, abort);
    }
  }

  lemma NothingHeld(f: Flow, answers: nat -> Answer, round: nat, abort: bool)
    requires f.held == [] && !f.ending
    ensures Redelivered(f, answers, round, abort) == Step(ERR_OK, f)
  {
    assert f.offers + [] == f.offers;
  }

  /** More of the same outcome, after some offers. */
  function Having(shown: seq<Offer>, r: Outcome): Outcome { r.(offers := shown + r.offers) }

  lemma ShownStep(shown: seq<Offer>, ps: seq<seq<byte>>, answers: nat -> Answer, round: nat)
    requires ps != []
    ensures var o, r := TheOffer(ps, answers(round)), Having(shown, Offering(ps, answers, round));
            match answers(round)
            case Accept => r == Having(shown + [o], Offering(ps[ChunkLen(ps)..], answers, round + 1))
            case Refuse => r == Outcome(ERR_INPROGRESS, shown + [o], ps)
            case Abort => r == Outcome(ERR_ABRT, shown + [o], [])
  {
    var o := TheOffer(ps, answers(round));
    if answers(round) == Accept {
      var q := Offering(ps[ChunkLen(ps)..], answers, round + 1);
      assert shown + ([o] + q.offers) == (shown + [o]) + q.offers;
    }
  }

  /** What was split off is the next chunk. */
  lemma SplitOffer(s: Store, t: Store, path: seq<Id>, k: nat, answer: Answer)
    requires 0 < k <= |path| && Fills(s, path, k) && DatasKept(s, t) && path[0] in t
    requires t[path[0]].totLen == |Flat(t, path[..k])|
    ensures var ps := Datas(s, path);
            && TheOffer(ps, answer) == Offer(Flat(t, path[..k]), t[path[0]].totLen, answer) && k == ChunkLen(ps)
            && Datas(t, path[k..]) == ps[k..]
  {
    FlatDatas(s, path[..k]);
    FlatDatas(t, path[..k]);
    DatasSame(s, t, path[..k]);
    DatasSame(s, t, path[k..]);
    DatasCut(s, path, k);
    ChunkUnique(Datas(s, path), k);
  }

  function Flagged(s: Store, x: Id): Store
    requires x in s
  {
    s[x := s[x].(fin := true)]
  }

  lemma FlagFacts(s: Store, hs: multiset<Id>, path: seq<Id>)
    requires RefsOk(s, hs) && Carried(s, hs, Head(path), path) && path != [] && path[0] in s
    ensures var t := Flagged(s, path[0]);
            RefsOk(t, hs) && Carried(t, hs, Head(path), path) && Datas(t, path) == Datas(s, path) && FinOf(t, path)
  {
    var t := Flagged(s, path[0]);
    forall y | y in s ensures y in t && SamePointers(s, t, y) { }
    RefsKept(s, t, hs);
    forall i | 0 <= i < |path| ensures SameBody(s, t, path[i]) { assert LinkAt(s, path, i); }
    WholeSame(s, t, path);
    DatasSame(s, t, path) by { forall x ensures SameData(s, t, x) { } }
    forall i | 0 <= i < |path| ensures FinAt(t, path, i) { }
  }

  /** What splitting has made of a chain. */
  ghost predicate Split(s: Store, t: Store, path: seq<Id>, k: nat)
    requires 0 < k <= |path|
  {
    && Fills(s, path, k) && Parted(s, t, path, k) && FinsKept(s, t, Head(path[k..])) && path[0] in s && path[0] in t
    && t[path[0]].fin == s[path[0]].fin
    && (k < |path| ==> path[k] in t && path[k] in s && t[path[k]].fin == (s[path[k]].fin || s[path[0]].fin))
  }

  lemma SplitFacts(s: Store, t: Store, path: seq<Id>, k: nat)
    requires Chain(s, path) && FinInFront(s, path) && 0 < k <= |path| && Split(s, t, path, k)
    ensures Flat(s, path) == Flat(t, path[..k]) + Flat(t, path[k..])
    ensures t[path[0]].totLen == |Flat(t, path[..k])| < TWO16
    ensures k < |path| ==> FinInFront(t, path[k..]) && t[path[k]].fin == s[path[0]].fin
  {
    FlatCut(s, path, k);
    assert TotalAt(t, path[..k], 0) && path[..k][0..] == path[..k] && path[..k][0] == path[0];
    if k < |path| { FinHandedOn(s, t, path, k); }
  }

  lemma PutBackFacts(s: Store, t: Store, path: seq<Id>, k: nat)
    requires Chain(s, path) && FinInFront(s, path) && 0 < k <= |path| && Split(s, t, path, k)
    ensures Disjoint(path[..k], path[k..]) && path[..k] + path[k..] == path && (k < |path| ==> path[0] != path[k])
    ensures k == |path| ==> path[..k] == path && path[k..] == []
    ensures FinInFront(t, path) && t[path[0]].fin == s[path[0]].fin
    ensures Flat(s, path) == Flat(t, path[..k]) + Flat(t, path[k..])
  {
    PartsDisjoint(path, k);
    assert k < |path| ==> Apart(path, 0, k);
    FinPutBack(s, t, path, k);
    FlatCut(s, path, k);
  }

  lemma FinStays(t: Store, u: Store, path: seq<Id>)
    requires FinInFront(t, path) && FinsKept(t, u, None) && t.Keys == u.Keys
    ensures FinInFront(u, path)
  {
    forall i | 0 <= i < |path| ensures FinAt(u, path, i) {
      assert FinAt(t, path, i) && FinKept(t, u, None, path[i]) && FinKept(t, u, None, path[0]);
      assert path[0] in t.Keys <==> path[0] in u.Keys;
    }
  }
}
