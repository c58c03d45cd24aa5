/** The operations of pbuf.c that link, unlink, cut and release pbufs.

    Each method is given, as ghost arguments, the pbufs of the chains it works on. Its contract
    says what becomes of the flat bytes and of the totals, and that the reference counts stay
    exact for the handles that are left. */
module PbufOps {
  import opened Basics
  import opened IdList
  import opened PbufRefs
  import opened PbufChain
  import opened PbufRelease
  import PbufBytes

  /** Chain and totals are in order, and the owner of the head holds a handle. */
  ghost predicate Held(s: Store, hs: multiset<Id>, path: seq<Id>) {
    Chain(s, path) && Totals(s, path) && path != [] && path[0] in hs
  }

  /** The FIN flag of `x` is as it was, unless `x` is the one that may differ. */
  predicate FinKept(s: Store, t: Store, but: Option<Id>, x: Id) {
    x in t && but != Some(x) ==> x in s && t[x].fin == s[x].fin
  }

  ghost predicate FinsKept(s: Store, t: Store, but: Option<Id>) { forall x :: FinKept(s, t, but, x) }

  /** No payload byte differs. */
  ghost predicate DatasKept(s: Store, t: Store) { forall x :: SameData(s, t, x) }

  /** Releasing leaves a chain alone whose head is still held. */
  lemma {:induction false} Survives(s: Store, t: Store, hs: multiset<Id>, path: seq<Id>)
    requires Chain(s, path) && RefsOk(t, hs) && (path != [] ==> path[0] in hs || path[0] in t)
    requires forall x | x in t :: x in s && ButRef(t[x], s[x])
    ensures Chain(t, path) && forall i | 0 <= i < |path| :: path[i] in t
  {
    if path != [] {
      assert LinkAt(s, path, 0) && path[0] in t && ButRef(t[path[0]], s[path[0]]);
      assert Linked(t, path[0]);
      ChainSuffix(s, path, 1);
      if |path| > 1 { assert t[path[0]].next == Some(path[1]); }
      Survives(s, t, hs, path[1..]);
      forall i | 0 <= i < |path| ensures path[i] in t { assert i > 0 ==> path[i] == path[1..][i - 1]; }
      forall i | 0 <= i < |path| ensures LinkAt(t, path, i) {
        assert LinkAt(s, path, i) && path[i] in t && ButRef(t[path[i]], s[path[i]]);
      }
    }
  }

  lemma SurvivesWhole(s: Store, t: Store, hs: multiset<Id>, path: seq<Id>)
    requires Chain(s, path) && Totals(s, path) && RefsOk(t, hs) && (path != [] ==> path[0] in hs || path[0] in t)
    requires forall x | x in t :: x in s && ButRef(t[x], s[x])
    ensures Chain(t, path) && Totals(t, path) && Flat(t, path) == Flat(s, path)
  {
    Survives(s, t, hs, path);
    forall i | 0 <= i < |path| ensures SameBody(s, t, path[i]) {
      assert path[i] in t && ButRef(t[path[i]], s[path[i]]);
    }
    WholeSame(s, t, path);
  }

  lemma GivenBack(hs: multiset<Id>, p: Option<Id>)
    requires p.Some? ==> p.value in hs
    ensures hs - AsHandle(p) + AsHandle(p) == hs
  {
  }

  /** The loop of pbuf_free. */
  method Walk(s: Store, ghost hs: multiset<Id>, p: Option<Id>) returns (t: Store, count: int)
    requires RefsOk(s, hs + AsHandle(p))
    ensures t == Released(s, p) && RefsOk(t, hs)
    ensures |t| <= |s| && count == (|s| - |t|) % 256
  {
    var q, n := p, 0;
    t, count := s, 0;
    while q.Some?
      invariant RefsOk(t, hs + AsHandle(q)) && Released(t, q) == Released(s, p)
      invariant n == |s| - |t| && 0 <= n && count == n % 256
      decreases |t| + (if q.Some? then 1 else 0)
    {
      var x := q.value;
      FreeStep(t, hs, x);
      if t[x].ref - 1 == 0 {
        q, t := t[x].next, t - {x};
        n := n + 1;
        count := (count + 1) % 256;
      } else {
        t := t[x := t[x].(ref := t[x].ref - 1)];
        q := None;
      }
    }
    assert hs + AsHandle(None) == hs;
  }

  class Pbufs {
    var store: Store
    ghost var handles: multiset<Id>

    constructor ()
      ensures store == map[] && handles == multiset{} && RefsOk(store, handles) && Acyclic(store)
    {
      store, handles := map[], multiset{};
      EmptyAcyclic();
    }

    /** pbuf_alloc of a single pbuf; `at` is where the allocator has found room, if it has. */
    method Alloc(at: Option<Id>, data: seq<byte>) returns (p: Option<Id>)
      requires RefsOk(store, handles) && (at.Some? ==> at.value !in store) && |data| < TWO16
      modifies this
      ensures p == at && RefsOk(store, handles) && handles == old(handles) + AsHandle(p)
      ensures Acyclic(old(store)) ==> Acyclic(store)
      ensures p.None? ==> store == old(store)
      ensures p.Some? ==> && store == old(store)[p.value := Fresh(data)]
                          && Held(store, handles, [p.value]) && Flat(store, [p.value]) == data
    {
      p := at;
      if p.None? {
        assert handles + AsHandle(p) == handles;
        return;
      }
      AllocAll(store, handles, p.value, data);
      store := store[p.value := Fresh(data)];
      handles := handles + multiset{p.value};
    }

    /** pbuf_free; the number of released pbufs is returned in 8 bits. */
    method Free(p: Option<Id>) returns (count: int)
      requires RefsOk(store, handles) && (p.Some? ==> p.value in handles)
      modifies this
      ensures handles == old(handles) - AsHandle(p)
      ensures store == Released(old(store), p) && RefsOk(store, handles) && (Acyclic(old(store)) ==> Acyclic(store))
      ensures |store| <= |old(store)| && count == (|old(store)| - |store|) % 256
    {
      GivenBack(handles, p);
      AcyclicReleased(store, p);
      handles := handles - AsHandle(p);
      store, count := Walk(store, handles, p);
    }

    /** pbuf_ref; the count must not overflow its 8 bits. */
    method Ref(p: Id)
      requires RefsOk(store, handles) && p in store && store[p].ref < 255
      modifies this
      ensures store == Reffed(old(store), p) && handles == old(handles) + multiset{p} && RefsOk(store, handles)
      ensures Acyclic(old(store)) ==> Acyclic(store)
    {
      RefKeeps(store, handles, p);
      AcyclicReffed(store, p);
      store := store[p := store[p].(ref := store[p].ref + 1)];
      handles := handles + multiset{p};
    }

    /** pbuf_cat: the caller's handle on the tail becomes the link. */
    method Cat(h: Id, t: Id, ghost hp: seq<Id>, ghost tp: seq<Id>)
      requires RefsOk(store, handles) && Chain(store, hp) && Totals(store, hp) && Held(store, handles, tp)
      requires hp != [] && hp[0] == h && tp[0] == t && Disjoint(hp, tp)
      modifies this
      ensures RefsOk(store, handles) && handles == old(handles) - multiset{t}
      ensures Chain(store, hp + tp) && Totals(store, hp + tp)
      ensures Flat(store, hp + tp) == old(Flat(store, hp)) + old(Flat(store, tp))
      ensures KeptBut(old(store), store, hp) && store.Keys == old(store).Keys && DatasKept(old(store), store)
      ensures FinsKept(old(store), store, None) && (Acyclic(old(store)) ==> Acyclic(store))
    {
      var p := h;
      ghost var i, s := 0, store;
      assert LinkAt(store, tp, 0) && LinkAt(store, hp, 0);
      var d := store[t].totLen;
      while store[p].next.Some?
        invariant i < |hp| && p == hp[i] && p in store
        invariant Bumped(s, store, hp, i, d) && handles == old(handles)
        invariant t in store && store[t].totLen == d
        invariant store[p].next == (if i + 1 < |hp| then Some(hp[i + 1]) else None)
        decreases |hp| - i
      {
        BumpStep(s, store, hp, i, d);
        assert Differ(hp, tp, i, 0);
        store := BumpOne(store, p, store[t].totLen);
        p := store[p].next.value;
        i := i + 1;
        assert LinkAt(s, hp, i) && p in store.Keys && BumpedAt(s, store, hp, i, d, p);
      }
      BumpStep(s, store, hp, i, d);
      assert Differ(hp, tp, i, 0);
      store := BumpOne(store, p, store[t].totLen);
      FinishCat(s, store, handles, hp, tp);
      store := Relinked(store, p, Some(t));
      handles := handles - multiset{t};
    }

    /** pbuf_chain: like pbuf_cat, but the caller keeps its handle on the tail. */
    method ChainOn(h: Id, t: Id, ghost hp: seq<Id>, ghost tp: seq<Id>)
      requires RefsOk(store, handles) && Chain(store, hp) && Totals(store, hp) && Held(store, handles, tp)
      requires hp != [] && hp[0] == h && tp[0] == t && Disjoint(hp, tp) && t in store && store[t].ref < 255
      modifies this
      ensures RefsOk(store, handles) && handles == old(handles)
      ensures Chain(store, hp + tp) && Totals(store, hp + tp)
      ensures Flat(store, hp + tp) == old(Flat(store, hp)) + old(Flat(store, tp))
      ensures KeptBut(old(store), store, hp + [t]) && store.Keys == old(store).Keys
      ensures store[t] == old(store)[t].(ref := old(store)[t].ref + 1)
      ensures FinsKept(old(store), store, None) && (Acyclic(old(store)) ==> Acyclic(store))
    {
      ghost var s := store;
      Cat(h, t, hp, tp);
      assert t !in hp by { forall i | 0 <= i < |hp| ensures hp[i] != t { assert Differ(hp, tp, i, 0); } }
      assert KeptAt(s, store, hp, t);
      ghost var u := store;
      Ref(t);
      assert old(handles) - multiset{t} + multiset{t} == old(handles);
      ChainedFrame(s, u, hp, tp);
    }

    /** pbuf_split_64k. The front is as long as 16-bit totals allow, and its totals are exact; the
        link to the rest has become a handle; the rest inherits the FIN flag. */
    method Split64k(p: Id, ghost path: seq<Id>) returns (rest: Option<Id>, ghost k: nat)
      requires RefsOk(store, handles) && Chain(store, path) && Totals(store, path) && path != [] && path[0] == p
      modifies this
      ensures Fills(old(store), path, k) && rest == Head(path[k..]) && Parted(old(store), store, path, k)
      ensures handles == old(handles) + AsHandle(rest) && RefsOk(store, handles)
      ensures KeptBut(old(store), store, path) && store.Keys == old(store).Keys && DatasKept(old(store), store)
      ensures Acyclic(old(store)) ==> Acyclic(store)
      ensures p in store && p in old(store) && store[p].fin == old(store)[p].fin
      ensures FinsKept(old(store), store, rest)
      ensures rest.Some? ==> && rest.value in store && rest.value in old(store)
                             && store[rest.value].fin == (old(store)[rest.value].fin || old(store)[p].fin)
    {
      rest := None;
      k := |path|;
      ghost var s := store;
      assert LinkAt(s, path, 0) && path[..|path|] == path && path[|path|..] == [];
      if store[p].next.None? {
        Alone(s, path);
        return;
      }
      var i, r;
      i, r, k := FindSplit(store, p, path);
      assert LinkAt(s, path, k - 1);
      store := Relinked(store, i, None);
      if r.None? {
        assert store == s && FinsKept(s, s, None);
        assert path[..k] == path && path[k..] == [];
        return;
      }
      assert LinkAt(s, path, k);
      ChainCut(s, path, k);
      store := MoveTotals(store, p, -store[r.value].totLen, path, k);
      CutParts(s, store, handles, path, k);
      handles := handles + multiset{r.value};
      FinishSplit(s, store, handles, path, k);
      rest := r;
      if store[p].fin {
        store := store[r.value := store[r.value].(fin := true)];
      } else {
        assert FinKept(s, store, None, r.value);
        FinsWeaker(s, store, rest);
      }
    }

    /** pbuf_dechain. The tail loses the link to it; it is returned if it has survived that, as far
        as the 8-bit count of pbuf_free can tell. The pointer is stale exactly if the tail starts with a
        positive multiple of 256 pbufs that nobody else names. */
    method Dechain(p: Id, ghost path: seq<Id>) returns (r: Option<Id>)
      requires RefsOk(store, handles) && Held(store, handles, path) && path[0] == p
      modifies this
      ensures RefsOk(store, handles) && handles == old(handles) && (Acyclic(old(store)) ==> Acyclic(store))
      ensures Chain(store, [p]) && Totals(store, [p]) && Flat(store, [p]) == old(DataOf(store, p))
      ensures |path| == 1 ==> r.None? && store == old(store)
      ensures |path| > 1 ==> && Dechained(old(store), store, path)
                             && r == if Run(old(store), path[1..]) % 256 == 0 then Some(path[1]) else None
      ensures r.Some? && r.value !in store <==>
              Run(old(store), path[1..]) > 0 && Run(old(store), path[1..]) % 256 == 0
    {
      assert LinkAt(store, path, 0) && path[..1] == [p];
      var q := store[p].next;
      if q.None? {
        DechainOne(store, path);
        return None;
      }
      var gone := DropTail(p, q.value, path);
      r := if gone > 0 then None else q;
    }

    /** pbuf_realloc. Shrinks the chain to its first bytes; the rest of it is released unless it is
        still named. Nothing happens unless the new length is below the 16-bit total. */
    method Realloc(p: Id, newLen: int, ghost path: seq<Id>) returns (ghost k: nat)
      requires RefsOk(store, handles) && Held(store, handles, path) && path[0] == p && 0 <= newLen < TWO16
      modifies this
      ensures RefsOk(store, handles) && handles == old(handles) && 0 < k <= |path|
      ensures Acyclic(old(store)) ==> Acyclic(store)
      ensures newLen >= old(|Flat(store, path)|) % TWO16 ==> store == old(store)
      ensures newLen < old(|Flat(store, path)|) % TWO16 ==>
                && Chain(store, path[..k]) && Totals(store, path[..k])
                && Flat(store, path[..k]) == old(Flat(store, path))[..newLen]
                && RestReleased(old(store), store, path, k)
    {
      assert LinkAt(store, path, 0) && TotalAt(store, path, 0) && path[0..] == path;
      if newLen >= store[p].totLen { return |path|; }
      var t, q, rem;
      t, q, rem, k := Shrink(store, p, newLen, path);
      ReallocAll(store, t, handles, path, k, rem);
      var next := t[q].next;
      store := Trimmed(t, q, rem);
      if next.Some? {
        handles := handles + multiset{next.value};
        var gone := Free(next);
        assert handles == old(handles);
      }
    }

    /** pbuf_free_header. Removes bytes from the front; pbufs that are used up give the caller's
        handle on to their successor. */
    method FreeHeader(q: Option<Id>, size: nat, ghost path: seq<Id>) returns (r: Option<Id>, ghost k: nat)
      requires RefsOk(store, handles) && Chain(store, path) && Totals(store, path) && q == Head(path)
      requires (q.Some? ==> q.value in handles) && size < TWO16
      modifies this
      ensures k <= |path| && r == Head(path[k..])
      ensures RefsOk(store, handles) && handles == old(handles) - AsHandle(q) + AsHandle(r)
      ensures Chain(store, path[k..]) && Totals(store, path[k..])
      ensures Flat(store, path[k..]) == if size <= old(|Flat(store, path)|) then old(Flat(store, path))[size..] else []
      ensures Freed(old(store), store, path, k, false) && (Acyclic(old(store)) ==> Acyclic(store))
    {
      ghost var s := store;
      GivenBack(handles, q);
      r, k := ShedAll(q, size, handles - AsHandle(q), path, Dropped(Flat(store, path), size));
      FreedAcyclic(s, store, path, k);
    }

    /** The loop of pbuf_free_header. */
    method ShedAll(q: Option<Id>, size: nat, ghost hs: multiset<Id>, ghost path: seq<Id>, ghost want: seq<byte>)
      returns (r: Option<Id>, ghost k: nat)
      requires Cutting(store, handles, hs, path, q, size, want) && size < TWO16
      modifies this
      ensures k <= |path| && Cutting(store, handles, hs, path[k..], r, 0, want)
      ensures Freed(old(store), store, path, k, false)
    {
      var left: nat := size;
      r, k := q, 0;
      ghost var s, whole := store, true;
      assert path[0..] == path;
      FreedNothing(s, path);
      while left != 0 && r.Some?
        invariant Shedding(s, store, handles, hs, path, k, r, left, want, whole)
        decreases |path| - k, left
      {
        r, left, k, whole := ShedOne(r.value, left, hs, path, k, s, want);
      }
      CuttingEnds(store, handles, hs, path[k..], r, left, want);
      FreedWeaker(s, store, path, k, whole) by {
        if k < |path| { HeadFacts(store, path[k..], 0); }
      }
    }

    method ShedOne(f: Id, n: nat, ghost hs: multiset<Id>, ghost path: seq<Id>, ghost k: nat, ghost s: Store,
                   ghost want: seq<byte>)
      returns (r: Option<Id>, left: nat, ghost k': nat, ghost whole: bool)
      requires n > 0 && Shedding(s, store, handles, hs, path, k, Some(f), n, want, true)
      modifies this
      ensures Shedding(s, store, handles, hs, path, k', r, left, want, whole)
      ensures k <= k' && (k' == k ==> left < n)
    {
      ghost var j, t := 0, store;
      HeadFacts(store, path[k..], n);
      r, left, j := Shed(f, n, hs, path[k..], want);
      FreedStep(s, t, path, k, n);
      SuffixStep(path, k, j);
      k', whole := k + j, j == 1;
    }

    /** One round of pbuf_free_header. */
    method Shed(f: Id, n: nat, ghost hs: multiset<Id>, ghost path: seq<Id>, ghost want: seq<byte>)
      returns (r: Option<Id>, left: nat, ghost j: nat)
      requires Cutting(store, handles, hs, path, Some(f), n, want) && 0 < n < TWO16
      modifies this
      ensures j <= 1 && j <= |path| && Cutting(store, handles, hs, path[j..], r, left, want)
      ensures left <= n && (j == 0 ==> left == 0) && f in old(store)
      ensures j == if n >= |old(store)[f].data| then 1 else 0
      ensures store == if j == 1 then PassedOn(old(store), f) else Beheaded(old(store), f, n)
    {
      HeadFacts(store, path, n);
      if n >= |store[f].data| {
        left := n - |store[f].data|;
        r := PassOn(f, hs, path);
        j := 1;
      } else {
        TrimHead(store, handles, path, n);
        store := Beheaded(store, f, n);
        r, left, j := Some(f), 0, 0;
        assert path[0..] == path;
      }
    }

    /** Used up: the head is unlinked from its successor and freed. */
    method PassOn(f: Id, ghost hs: multiset<Id>, ghost path: seq<Id>) returns (r: Option<Id>)
      requires RefsOk(store, handles) && handles == hs + multiset{f}
      requires Chain(store, path) && Totals(store, path) && path != [] && path[0] == f
      modifies this
      ensures r == Head(path[1..]) && RefsOk(store, handles) && handles == hs + AsHandle(r)
      ensures Chain(store, path[1..]) && Totals(store, path[1..])
      ensures Flat(store, path[1..]) == old(Flat(store, path[1..]))
      ensures f in old(store) && store == PassedOn(old(store), f)
    {
      PassOnAll(store, hs, path);
      PassedOnIs(store, handles, f);
      r := store[f].next;
      store := Relinked(store, f, None);
      handles := handles + AsHandle(r);
      var gone := Free(Some(f));
      assert handles == hs + AsHandle(r);
    }

    /** pbuf_take_at: the slice is overwritten, or nothing changes. */
    method TakeAt(buf: Id, data: seq<byte>, offset: nat, ghost path: seq<Id>) returns (err: PbufBytes.Err)
      requires RefsOk(store, handles) && Chain(store, path) && Totals(store, path) && path != [] && path[0] == buf
      requires |data| < TWO16 && offset < TWO16
      modifies `store
      ensures RefsOk(store, handles) && Chain(store, path) && Totals(store, path)
      ensures PbufBytes.Payload(old(store), store, path) && (Acyclic(old(store)) ==> Acyclic(store))
      ensures err.ERR_OK? ==> && offset + |data| <= old(|Flat(store, path)|)
                              && Flat(store, path) == PbufBytes.Overwritten(old(Flat(store, path)), offset, data)
                              && PbufBytes.Slice(Flat(store, path), offset, |data|) == data
      ensures err.ERR_MEM? ==> store == old(store)
      ensures err.ERR_OK? <==> PbufBytes.Reaches(old(store), path, offset, |data|)
      ensures old(|Flat(store, path)|) < TWO16 ==>
                (err.ERR_OK? <==> offset < old(|Flat(store, path)|) && offset + |data| <= old(|Flat(store, path)|))
    {
      PbufBytes.ReachesFits(store, path, offset, |data|);
      var t;
      t, err := PbufBytes.TakeAt(store, Some(buf), data, offset, path);
      if err.ERR_OK? {
        PbufBytes.PayloadKeeps(store, t, path, handles);
        PbufBytes.ReadBack(Flat(store, path), offset, data, 0, 0);
      } else {
        PbufBytes.PayloadSame(store, path);
      }
      PayloadAcyclic(store, t, path);
      store := t;
    }

    method DropTail(p: Id, q: Id, ghost path: seq<Id>) returns (gone: int)
      requires RefsOk(store, handles) && Held(store, handles, path) && |path| > 1 && path[0] == p && path[1] == q
      modifies this
      ensures RefsOk(store, handles) && handles == old(handles) && (Acyclic(old(store)) ==> Acyclic(store))
      ensures Dechained(old(store), store, path) && gone == Run(old(store), path[1..]) % 256
    {
      ghost var s := store;
      Detach(p, q, path);
      assert AsHandle(Some(q)) == multiset{q};
      gone := Free(Some(q));
      assert handles == old(handles);
      DechainDone(s, old(handles), path);
    }

    method Detach(p: Id, q: Id, ghost path: seq<Id>)
      requires RefsOk(store, handles) && Held(store, handles, path) && |path| > 1 && path[0] == p && path[1] == q
      modifies this
      ensures p in old(store) && q in old(store) && store == Detached(old(store), p, q)
      ensures handles == old(handles) + multiset{q} && RefsOk(store, handles)
      ensures Acyclic(old(store)) ==> Acyclic(store)
    {
      assert LinkAt(store, path, 0) && LinkAt(store, path, 1);
      DechainCut(store, handles, path);
      DechainFrame(store, path);
      store := Detached(store, p, q);
      handles := handles + multiset{q};
    }
  }

  /** The head is a chain of its own; of the rest the leading pbufs that nobody else names are gone,
      and what has survived is a chain with the same bytes. */
  ghost predicate Dechained(s: Store, t: Store, path: seq<Id>)
    requires |path| > 1
  {
    && path[0] in s && path[0] in t && t[path[0]] == s[path[0]].(next := None, totLen := |s[path[0]].data|)
    && Chain(t, path[..1]) && Totals(t, path[..1]) && Flat(t, path[..1]) == DataOf(s, path[0])
    && RestReleased(s, t, path, 1) && (path[1] in t <==> Run(s, path[1..]) == 0)
    && (path[1] in t ==> Chain(t, path[1..]) && Totals(t, path[1..]) && Flat(t, path[1..]) == Flat(s, path[1..]))
  }

  lemma ChainedFrame(s: Store, u: Store, hp: seq<Id>, tp: seq<Id>)
    requires KeptBut(s, u, hp) && u.Keys == s.Keys && FinsKept(s, u, None) && tp != [] && tp[0] in u
    requires Chain(u, hp + tp) && Totals(u, hp + tp)
    ensures var t := Reffed(u, tp[0]);
            && KeptBut(s, t, hp + [tp[0]]) && t.Keys == s.Keys && FinsKept(s, t, None)
            && Chain(t, hp + tp) && Totals(t, hp + tp) && Flat(t, hp + tp) == Flat(u, hp + tp)
  {
    var t := Reffed(u, tp[0]);
    forall x ensures KeptAt(s, t, hp + [tp[0]], x) && FinKept(s, t, None, x) {
      assert KeptAt(s, u, hp, x) && FinKept(s, u, None, x);
    }
    forall i | 0 <= i < |hp + tp| ensures SameBody(u, t, (hp + tp)[i]) { assert LinkAt(u, hp + tp, i); }
    WholeSame(u, t, hp + tp);
  }

  /** What pbuf_alloc makes of one block of memory. */
  function Fresh(data: seq<byte>): Pbuf { Pbuf(None, data, |data|, 1, false) }

  lemma AllocAll(s: Store, hs: multiset<Id>, p: Id, data: seq<byte>)
    requires RefsOk(s, hs) && p !in s && |data| < TWO16
    ensures var t, ks := s[p := Fresh(data)], hs + multiset{p};
            && RefsOk(t, ks) && Held(t, ks, [p]) && Flat(t, [p]) == data && (Acyclic(s) ==> Acyclic(t))
  {
    var t, ks := s[p := Fresh(data)], hs + multiset{p};
    assert p !in hs;
    forall x | x in t ensures Linked(t, x) && Counted(t, ks, x) {
      if x == p {
        forall y | y in s ensures s[y].next != Some(p) { assert Linked(s, y); }
        assert In(t, p) == {};
      } else {
        assert Linked(s, x) && Counted(s, hs, x);
        assert In(t, x) == In(s, x);
      }
    }
    assert LinkAt(t, [p], 0);
    FlatOne(t, p);
    assert [p][0..] == [p] && TotalAt(t, [p], 0);
    AllocAcyclic(s, p, data);
  }

  lemma AllocAcyclic(s: Store, p: Id, data: seq<byte>)
    requires p !in s
    ensures Acyclic(s) ==> Acyclic(s[p := Fresh(data)])
  {
    if Acyclic(s) {
      var t := s[p := Fresh(data)];
      var rank :| Ranked(s, rank);
      forall y | y in t ensures Steps(t, rank, y) { assert y != p ==> Steps(s, rank, y); }
      assert Ranked(t, rank);
    }
  }

  lemma AcyclicReffed(s: Store, p: Id)
    requires p in s
    ensures Acyclic(s) ==> Acyclic(Reffed(s, p))
  {
    forall x ensures FewerLinks(s, Reffed(s, p), x) { }
    AcyclicKept(s, Reffed(s, p));
  }

  lemma PayloadAcyclic(s: Store, t: Store, path: seq<Id>)
    requires PbufBytes.Payload(s, t, path)
    ensures Acyclic(s) ==> Acyclic(t)
  {
    forall x ensures FewerLinks(s, t, x) {
      assert x in s.Keys <==> x in t.Keys;
      if x in s { assert PbufBytes.PayloadAt(s, t, path, x); }
    }
    AcyclicKept(s, t);
  }

  // ----- a stale pointer

  function Ids(n: nat): seq<Id> { seq(n, i => i) }

  /** In a chain that is held at its head and nowhere else, everything behind the head is named once. */
  lemma {:induction false} SoleRun(s: Store, path: seq<Id>, k: nat)
    requires path != [] && RefsOk(s, multiset{path[0]}) && Chain(s, path) && 0 < k <= |path|
    requires forall x | x in s :: x in path
    ensures Run(s, path[k..]) == |path| - k
    decreases |path| - k
  {
    if k < |path| {
      SoleRun(s, path, k + 1);
      assert path[k..][1..] == path[k + 1..];
      assert LinkAt(s, path, k) && LinkAt(s, path, k - 1) && Apart(path, 0, k);
      assert Counted(s, multiset{path[0]}, path[k]);
      forall y | y in In(s, path[k]) ensures y == path[k - 1] {
        var i :| 0 <= i < |path| && path[i] == y;
        assert LinkAt(s, path, i);
        SamePlace(path, i + 1, k);
      }
      assert In(s, path[k]) == {path[k - 1]};
    }
  }

  lemma SamePlace(path: seq<Id>, i: nat, j: nat)
    requires Distinct(path) && i < |path| && j < |path| && path[i] == path[j]
    ensures i == j
  {
    assert i < j ==> Apart(path, i, j);
    assert j < i ==> Apart(path, j, i);
  }

  lemma IdsApart(n: nat)
    ensures Disjoint(Ids(n), [n]) && Ids(n + 1) == Ids(n) + [n]
  {
    forall i, j | 0 <= i < |Ids(n)| && 0 <= j < |[n]| ensures Differ(Ids(n), [n], i, j) { }
  }

  /** Allocate `n` pbufs and join them. */
  method JoinMany(n: nat) returns (pool: Pbufs)
    requires n > 0
    ensures fresh(pool) && RefsOk(pool.store, pool.handles) && pool.handles == multiset{0}
    ensures Chain(pool.store, Ids(n)) && Totals(pool.store, Ids(n)) && forall x | x in pool.store :: x < n
  {
    pool := new Pbufs();
    var head := pool.Alloc(Some(0), []);
    var i := 1;
    assert Ids(1) == [0];
    while i < n
      invariant 0 < i <= n && fresh(pool) && RefsOk(pool.store, pool.handles) && pool.handles == multiset{0}
      invariant Chain(pool.store, Ids(i)) && Totals(pool.store, Ids(i))
      invariant forall x | x in pool.store :: x < i
    {
      ghost var s := pool.store;
      var t := pool.Alloc(Some(i), []);
      ChainsKept(s, pool.store, Ids(i));
      IdsApart(i);
      pool.Cat(0, i, Ids(i), [i]);
      i := i + 1;
    }
  }

  /** It happens: from the empty store on, `n` pbufs are allocated and joined, and the head is
      dechained. If the tail has 256 pbufs, or a multiple of that, the pointer that is returned leads
      to a pbuf that is gone. */
  method DanglingTail(n: nat) returns (pool: Pbufs, r: Option<Id>)
    requires n > 1
    ensures r.Some? && r.value !in pool.store <==> (n - 1) % 256 == 0
  {
    pool := JoinMany(n);
    ghost var s := pool.store;
    SoleRun(s, Ids(n), 1) by {
      forall x | x in s ensures x in Ids(n) { assert Ids(n)[x] == x; }
    }
    r := pool.Dechain(0, Ids(n));
  }

  lemma ChainsKept(s: Store, t: Store, path: seq<Id>)
    requires Chain(s, path) && Totals(s, path) && forall x | x in s :: x in t && t[x] == s[x]
    ensures Chain(t, path) && Totals(t, path)
  {
    forall i | 0 <= i < |path| ensures SameBody(s, t, path[i]) { assert LinkAt(s, path, i); }
    WholeSame(s, t, path);
  }

  lemma FlatOne(s: Store, p: Id)
    ensures Flat(s, [p]) == DataOf(s, p)
  {
    assert [p][1..] == [];
  }

  lemma DechainOne(s: Store, path: seq<Id>)
    requires Chain(s, path) && Totals(s, path) && path != [] && path[0] in s && s[path[0]].next.None?
    ensures path == [path[0]] && Flat(s, path) == DataOf(s, path[0])
  {
    Alone(s, path);
    FlatOne(s, path[0]);
    assert path == [path[0]];
  }

  /** The totals pbuf_dechain writes: the tail's was right, and the head's becomes its own length. */
  lemma DechainTotals(s: Store, path: seq<Id>)
    requires Chain(s, path) && Totals(s, path) && |path| > 1 && path[0] in s && path[1] in s
    ensures (s[path[0]].totLen - |s[path[0]].data|) % TWO16 == s[path[1]].totLen
    ensures var v := Relinked(s, path[0], None);
            Bumped(v, v[path[0] := v[path[0]].(totLen := |s[path[0]].data|)], path, 1, -s[path[1]].totLen)
  {
    assert TotalAt(s, path, 0) && TotalAt(s, path, 1) && path[0..] == path;
    FlatAt(s, path, 0);
    var n := |s[path[0]].data|;
    DechainNumbers(n, |Flat(s, path[1..])|);
    var v := Relinked(s, path[0], None);
    var u := v[path[0] := v[path[0]].(totLen := n)];
    forall x | x in v ensures x in u && BumpedAt(v, u, path, 1, -s[path[1]].totLen, x) {
      assert path[..1] == [path[0]];
    }
  }

  lemma DechainNumbers(n: nat, t: nat)
    requires n < TWO16
    ensures ((n + t) % TWO16 - n) % TWO16 == t % TWO16
    ensures ((n + t) % TWO16 - t % TWO16) % TWO16 == n
  {
    ModShift((n + t) % TWO16 - n, (n + t) / TWO16);
    ModSum(n + t, t);
  }

  function Detached(s: Store, p: Id, q: Id): Store
    requires p in s && q in s
  {
    var t := s[q := s[q].(totLen := (s[p].totLen - |s[p].data|) % TWO16)];
    t[p := t[p].(next := None, totLen := |t[p].data|)]
  }

  lemma DechainCut(s: Store, hs: multiset<Id>, path: seq<Id>)
    requires RefsOk(s, hs) && Chain(s, path) && Totals(s, path) && |path| > 1 && path[0] in s && path[1] in s
    ensures var u := Detached(s, path[0], path[1]);
            && Parted(s, u, path, 1) && RefsOk(u, hs + multiset{path[1]}) && |u| == |s|
            && Flat(s, path[..1]) == DataOf(s, path[0])
  {
    DetachedCut(s, path);
    CutParts(s, Detached(s, path[0], path[1]), hs, path, 1);
    FlatOne(s, path[0]);
    assert path[..1] == [path[0]];
  }

  lemma DetachedCut(s: Store, path: seq<Id>)
    requires Chain(s, path) && Totals(s, path) && |path| > 1 && path[0] in s && path[1] in s
    ensures var u := Detached(s, path[0], path[1]);
            |u| == |s| && Bumped(Relinked(s, path[0], None), u, path, 1, -s[path[1]].totLen)
  {
    DechainTotals(s, path);
    assert Apart(path, 0, 1);
    var u, v := Detached(s, path[0], path[1]), Relinked(s, path[0], None);
    assert u == v[path[0] := v[path[0]].(totLen := |s[path[0]].data|)];
    assert u.Keys == s.Keys && |u.Keys| == |u| && |s.Keys| == |s|;
  }

  lemma DechainFrame(s: Store, path: seq<Id>)
    requires Chain(s, path) && Totals(s, path) && |path| > 1 && path[0] in s && path[1] in s
    ensures KeptBut(s, Detached(s, path[0], path[1]), path[..1])
    ensures Acyclic(s) ==> Acyclic(Detached(s, path[0], path[1]))
  {
    DechainTotals(s, path);
    var u := Detached(s, path[0], path[1]);
    assert path[..1] == [path[0]] && Apart(path, 0, 1);
    forall x ensures KeptAt(s, u, path[..1], x) && FewerLinks(s, u, x) { }
    AcyclicKept(s, u);
  }

  lemma DechainFree(s: Store, u: Store, hs: multiset<Id>, path: seq<Id>)
    requires |path| > 1 && path[0] in hs && RefsOk(u, hs + multiset{path[1]}) && Chain(s, path) && path[0] in u
    requires Parted(s, u, path, 1) && KeptBut(s, u, path[..1])
    ensures var t := Released(u, Some(path[1]));
            && |u| - |t| == Run(s, path[1..]) && path[0] in t && t[path[0]] == u[path[0]]
            && Chain(t, path[..1]) && Totals(t, path[..1]) && Flat(t, path[..1]) == Flat(s, path[..1])
            && RestReleased(s, t, path, 1) && (path[1] in t <==> Run(s, path[1..]) == 0)
            && (path[1] in t ==>
                  Chain(t, path[1..]) && Totals(t, path[1..]) && Flat(t, path[1..]) == Flat(s, path[1..]))
  {
    var t := Released(u, Some(path[1]));
    FreeRest(s, u, path, 1);
    assert path[..1] == [path[0]];
    SecondStays(s, t, path);
    ReleaseKeeps(u, hs, Some(path[1]));
    forall x | x in t ensures x in u && ButRef(t[x], u[x]) { ReleaseFrame(u, Some(path[1]), x); }
    SurvivesWhole(u, t, hs, path[..1]);
    if path[1] in t { SurvivesWhole(u, t, hs, path[1..]); }
  }

  lemma SecondStays(s: Store, t: Store, path: seq<Id>)
    requires Chain(s, path) && |path| > 1 && RestReleased(s, t, path, 1)
    ensures path[1] in t <==> Run(s, path[1..]) == 0
  {
    assert LinkAt(s, path, 1) && Apart(path, 0, 1) && path[..1] == [path[0]];
    assert RestReleasedAt(s, t, path, 1, path[1]);
    var n := Run(s, path[1..]);
    assert n > 0 ==> path[1..][..n][0] == path[1];
  }

  lemma DechainDone(s: Store, hs: multiset<Id>, path: seq<Id>)
    requires RefsOk(s, hs) && Held(s, hs, path) && |path| > 1 && path[0] in s && path[1] in s
    ensures var u := Detached(s, path[0], path[1]);
            var t := Released(u, Some(path[1]));
            Dechained(s, t, path) && |u| - |t| == Run(s, path[1..])
  {
    DechainCut(s, hs, path);
    DechainFrame(s, path);
    DechainFree(s, Detached(s, path[0], path[1]), hs, path);
    assert Apart(path, 0, 1);
  }

  lemma FinsWeaker(s: Store, t: Store, but: Option<Id>)
    requires FinsKept(s, t, None)
    ensures FinsKept(s, t, but)
  {
    forall x ensures FinKept(s, t, but, x) { assert FinKept(s, t, None, x); }
  }

  lemma Alone(s: Store, path: seq<Id>)
    requires Chain(s, path) && Totals(s, path) && path != [] && path[0] in s && s[path[0]].next.None?
    ensures |path| == 1 && Fills(s, path, 1)
  {
    assert LinkAt(s, path, 0) && TotalAt(s, path, 0);
    PrefixStep(s, path, 0);
    assert path[..0] == [];
  }

  lemma SplitFrame(s: Store, t: Store, path: seq<Id>, k: nat)
    requires 0 < k < |path| && path[k] in t && path[k] in s && path[k - 1] in s
    requires Bumped(Relinked(s, path[k - 1], None), t, path, k, -s[path[k]].totLen)
    ensures var u := t[path[k] := t[path[k]].(fin := true)];
            && DatasKept(s, t) && DatasKept(s, u) && (Acyclic(s) ==> Acyclic(t)) && (Acyclic(s) ==> Acyclic(u))
  {
    var v, u := Relinked(s, path[k - 1], None), t[path[k] := t[path[k]].(fin := true)];
    forall x ensures FewerLinks(s, t, x) && FewerLinks(s, u, x) && SameData(s, t, x) && SameData(s, u, x) {
      assert x in v.Keys <==> x in t.Keys;
      if x in v { assert BumpedAt(v, t, path, k, -s[path[k]].totLen, x); }
    }
    AcyclicKept(s, t);
    AcyclicKept(s, u);
  }

  lemma FinishSplit(s: Store, t: Store, hs: multiset<Id>, path: seq<Id>, k: nat)
    requires Chain(s, path) && 0 < k < |path| && Parted(s, t, path, k) && RefsOk(t, hs)
    requires path[k] in t && path[k] in s && path[k - 1] in s && path[0] in s
    requires Bumped(Relinked(s, path[k - 1], None), t, path, k, -s[path[k]].totLen)
    ensures var u := t[path[k] := t[path[k]].(fin := true)];
            && Parted(s, u, path, k) && RefsOk(u, hs)
            && KeptBut(s, u, path) && KeptBut(s, t, path) && u.Keys == s.Keys
            && path[0] in t && t[path[0]].fin == s[path[0]].fin == u[path[0]].fin
            && FinsKept(s, t, None) && FinsKept(s, u, Some(path[k])) && DatasKept(s, t) && DatasKept(s, u)
            && (Acyclic(s) ==> Acyclic(t)) && (Acyclic(s) ==> Acyclic(u))
  {
    SplitFrame(s, t, path, k);
    var v, u, d := Relinked(s, path[k - 1], None), t[path[k] := t[path[k]].(fin := true)], -s[path[k]].totLen;
    assert path[0] in t.Keys && BumpedAt(v, t, path, k, d, path[0]) && Apart(path, 0, k);
    assert BumpedAt(v, t, path, k, d, path[k]);
    forall x | x in t ensures x in u && SamePointers(t, u, x) { }
    RefsKept(t, u, hs);
    forall x
      ensures KeptAt(s, t, path, x) && KeptAt(s, u, path, x)
      ensures FinKept(s, t, None, x) && FinKept(s, u, Some(path[k]), x)
    {
      assert x in v.Keys <==> x in t.Keys;
      if x in v { assert BumpedAt(v, t, path, k, d, x); }
    }
    forall i | 0 <= i < k ensures SameBody(t, u, path[..k][i]) { assert LinkAt(t, path[..k], i); }
    forall i | 0 <= i < |path[k..]| ensures SameBody(t, u, path[k..][i]) { assert LinkAt(t, path[k..], i); }
    WholeSame(t, u, path[..k]);
    WholeSame(t, u, path[k..]);
  }

  /** One round of pbuf_free. */
  lemma FreeStep(s: Store, hs: multiset<Id>, x: Id)
    requires RefsOk(s, hs + AsHandle(Some(x)))
    ensures x in s && s[x].ref > 0
    ensures s[x].ref == 1 ==> && RefsOk(s - {x}, hs + AsHandle(s[x].next)) && |s - {x}| == |s| - 1
                              && Released(s, Some(x)) == Released(s - {x}, s[x].next)
    ensures s[x].ref > 1 ==> var t := s[x := s[x].(ref := s[x].ref - 1)];
                             && RefsOk(t, hs + AsHandle(None)) && Released(s, Some(x)) == Released(t, None)
                             && |t| == |s|
  {
    assert x in hs + multiset{x} && Counted(s, hs + multiset{x}, x);
    if s[x].ref == 1 {
      DropKeeps(s, hs, x);
      assert (s - {x}).Keys == s.Keys - {x};
    } else {
      LessKeeps(s, hs, x);
      assert hs + AsHandle(None) == hs;
      var t := s[x := s[x].(ref := s[x].ref - 1)];
      assert t.Keys == s.Keys;
    }
  }

  /** The last steps of pbuf_cat. */
  lemma FinishCat(s: Store, t: Store, hs: multiset<Id>, hp: seq<Id>, tp: seq<Id>)
    requires RefsOk(s, hs) && Chain(s, hp) && Totals(s, hp) && Held(s, hs, tp)
    requires Disjoint(hp, tp) && hp != [] && tp[0] in s
    requires Bumped(s, t, hp, |hp|, s[tp[0]].totLen) && hp[|hp| - 1] in t
    ensures var u := Relinked(t, hp[|hp| - 1], Some(tp[0]));
            && RefsOk(u, hs - multiset{tp[0]}) && Chain(u, hp + tp) && Totals(u, hp + tp)
            && Flat(u, hp + tp) == Flat(s, hp) + Flat(s, tp) && KeptBut(s, u, hp) && u.Keys == s.Keys
            && FinsKept(s, u, None) && DatasKept(s, u) && (Acyclic(s) ==> Acyclic(u))
  {
    var last, d := hp[|hp| - 1], s[tp[0]].totLen;
    assert hp[..|hp|] == hp;
    BumpedPointers(s, t, hp, |hp|, d, hs);
    RelinkKeeps(t, hs, last, Some(tp[0]));
    assert LinkAt(s, hp, |hp| - 1) && BumpedAt(s, t, hp, |hp|, d, last);
    assert hs - multiset{tp[0]} + AsHandle(t[last].next) == hs - multiset{tp[0]};
    BumpedChain(s, t, hp, |hp|, d, hp);
    BumpedChain(s, t, hp, |hp|, d, tp);
    ChainJoin(t, hp, tp);
    JoinTotals(s, t, hp, tp);
    var u := Relinked(t, last, Some(tp[0]));
    forall x ensures KeptAt(s, u, hp, x) && FinKept(s, u, None, x) && SameData(s, u, x) {
      assert x in s.Keys <==> x in t.Keys;
      if x in s { assert BumpedAt(s, t, hp, |hp|, d, x); }
    }
    CatAcyclic(s, t, hp, tp);
  }

  lemma CatAcyclic(s: Store, t: Store, hp: seq<Id>, tp: seq<Id>)
    requires Chain(s, tp) && Disjoint(hp, tp) && hp != [] && tp != [] && tp[0] in s
    requires Bumped(s, t, hp, |hp|, s[tp[0]].totLen) && hp[|hp| - 1] in t
    ensures Acyclic(s) ==> Acyclic(Relinked(t, hp[|hp| - 1], Some(tp[0])))
  {
    var last := hp[|hp| - 1];
    var u := Relinked(t, last, Some(tp[0]));
    assert last !in tp by { forall j | 0 <= j < |tp| ensures tp[j] != last { assert Differ(hp, tp, |hp| - 1, j); } }
    forall x | x in u ensures x in s && (u[x].next == s[x].next || (x == last && u[x].next == Some(tp[0]))) {
      assert x in s.Keys && BumpedAt(s, t, hp, |hp|, s[tp[0]].totLen, x);
    }
    AcyclicJoined(s, u, last, tp);
  }

  // ----- cutting

  /** The two parts of a chain cut before position `k`. */
  ghost predicate Parted(s: Store, t: Store, path: seq<Id>, k: nat)
    requires k <= |path|
  {
    && Chain(t, path[..k]) && Totals(t, path[..k]) && Flat(t, path[..k]) == Flat(s, path[..k])
    && Chain(t, path[k..]) && Totals(t, path[k..]) && Flat(t, path[k..]) == Flat(s, path[k..])
  }

  /** `u` is the store with the link cut, `t` has the totals of the front moved as well. */
  lemma CutParts(s: Store, t: Store, hs: multiset<Id>, path: seq<Id>, k: nat)
    requires RefsOk(s, hs) && Chain(s, path) && Totals(s, path) && 0 < k < |path| && path[k - 1] in s && path[k] in s
    requires Bumped(Relinked(s, path[k - 1], None), t, path, k, -s[path[k]].totLen)
    ensures Parted(s, t, path, k) && RefsOk(t, hs + multiset{path[k]})
  {
    var u := Relinked(s, path[k - 1], None);
    RelinkKeeps(s, hs, path[k - 1], None);
    assert LinkAt(s, path, k - 1) && s[path[k - 1]].next == Some(path[k]);
    assert hs - AsHandle(None) + AsHandle(s[path[k - 1]].next) == hs + multiset{path[k]};
    BumpedPointers(u, t, path, k, -s[path[k]].totLen, hs + multiset{path[k]});
    ChainCut(s, path, k);
    BumpedChain(u, t, path, k, -s[path[k]].totLen, path[..k]);
    BumpedChain(u, t, path, k, -s[path[k]].totLen, path[k..]);
    TotalsRelink(s, path[k - 1], None, path);
    assert u[path[k]].totLen == s[path[k]].totLen;
    CutTotals(u, t, path, k);
    SameFlat(s, path, k);
  }

  lemma SameFlat(s: Store, path: seq<Id>, k: nat)
    requires 0 < k <= |path| && path[k - 1] in s
    ensures var u := Relinked(s, path[k - 1], None);
            Flat(u, path[..k]) == Flat(s, path[..k]) && Flat(u, path[k..]) == Flat(s, path[k..])
  {
    var u := Relinked(s, path[k - 1], None);
    forall i | 0 <= i < k ensures SameData(s, u, path[..k][i]) { }
    forall i | 0 <= i < |path[k..]| ensures SameData(s, u, path[k..][i]) { }
    FlatSame(s, u, path[..k]);
    FlatSame(s, u, path[k..]);
  }

  /** How many pbufs of the path, at least one, fit below 65536 bytes. */
  ghost predicate Fills(s: Store, path: seq<Id>, k: nat) {
    && 0 < k <= |path| && |Flat(s, path[..k])| < TWO16
    && (k < |path| ==> |Flat(s, path[..k])| + |DataOf(s, path[k])| >= TWO16)
  }

  /** The search of pbuf_split_64k: on until the 16-bit sum overflows. */
  method FindSplit(s: Store, p: Id, ghost path: seq<Id>) returns (i: Id, r: Option<Id>, ghost k: nat)
    requires Chain(s, path) && Totals(s, path) && path != [] && path[0] == p
    ensures Fills(s, path, k) && i == path[k - 1] && r == Head(path[k..])
  {
    assert LinkAt(s, path, 0) && TotalAt(s, path, 0);
    PrefixStep(s, path, 0);
    assert path[..0] == [];
    var front := |s[p].data|;
    i, r, k := p, s[p].next, 1;
    assert r.Some? ==> LinkAt(s, path, 1);
    while r.Some? && (front + |s[r.value].data|) % TWO16 >= front
      invariant 0 < k <= |path| && r == Head(path[k..]) && (r.Some? ==> r.value in s) && i == path[k - 1]
      invariant front == |Flat(s, path[..k])| < TWO16
      decreases |path| - k
    {
      assert LinkAt(s, path, k) && TotalAt(s, path, k);
      PrefixStep(s, path, k);
      front := (front + |s[r.value].data|) % TWO16;
      i, r := r.value, s[r.value].next;
      k := k + 1;
      assert r.Some? ==> LinkAt(s, path, k);
    }
    if r.Some? { assert LinkAt(s, path, k) && TotalAt(s, path, k); }
  }

  /** The loop that moves the totals of the front, from its head to its end. */
  method MoveTotals(s: Store, p: Id, d: int, ghost path: seq<Id>, ghost k: nat) returns (t: Store)
    requires 0 < k <= |path| && path[0] == p && Chain(s, path[..k]) && Distinct(path)
    ensures Bumped(s, t, path, k, d)
  {
    t := s;
    var i := Some(p);
    ghost var n := 0;
    assert forall x | x in s :: BumpedAt(s, t, path, 0, d, x);
    while i.Some?
      invariant n <= k && i == Head(path[n..k]) && Bumped(s, t, path, n, d)
      decreases k - n
    {
      assert path[..k][n] == path[n] == i.value && LinkAt(s, path[..k], n) && i.value in t.Keys;
      BumpStep(s, t, path, n, d);
      t := BumpOne(t, i.value, d);
      i := t[i.value].next;
      n := n + 1;
    }
  }

  // ----- pbuf_realloc

  /** What is left of the new last pbuf. */
  function Trimmed(s: Store, q: Id, rem: nat): Store
    requires q in s && rem <= |s[q].data|
  {
    s[q := s[q].(next := None, data := s[q].data[..rem], totLen := rem)]
  }

  /** The loop of pbuf_realloc: over the pbufs that stay whole, to the new last one. */
  method Shrink(s: Store, p: Id, newLen: nat, ghost path: seq<Id>) returns (t: Store, q: Id, rem: nat, ghost k: nat)
    requires Chain(s, path) && Totals(s, path) && path != [] && path[0] == p && p in s
    requires newLen < s[p].totLen && s[p].totLen == |Flat(s, path)| % TWO16
    ensures Shrunk(s, t, path, k, rem) && q == path[k - 1] && newLen == NewLength(s, path, k, rem)
  {
    var shrink := s[p].totLen - newLen;
    t, q, rem, k := s, p, newLen, 1;
    assert path[..0] == [] && forall x | x in s :: BumpedAt(s, t, path, 0, -shrink, x);
    while rem > |t[q].data|
      invariant Shrinking(s, t, path, k, q, rem, newLen, shrink)
      decreases |path| - k
    {
      ShrinkStep(s, t, path, k, q, rem, newLen, shrink);
      rem := rem - |t[q].data|;
      t := BumpOne(t, q, -shrink);
      q := t[q].next.value;
      k := k + 1;
    }
  }

  ghost predicate Shrinking(s: Store, t: Store, path: seq<Id>, k: nat, q: Id, rem: nat, newLen: nat, shrink: int) {
    && 0 < k <= |path| && q == path[k - 1] && q in s && q in t && t[q] == s[q]
    && newLen == NewLength(s, path, k, rem) && Bumped(s, t, path, k - 1, -shrink)
  }

  lemma ShrinkStep(s: Store, t: Store, path: seq<Id>, k: nat, q: Id, rem: nat, newLen: nat, shrink: int)
    requires Shrinking(s, t, path, k, q, rem, newLen, shrink) && Chain(s, path)
    requires newLen < |Flat(s, path)| % TWO16 && rem > |t[q].data|
    ensures k < |path| && t[q].next == Some(path[k])
    ensures Shrinking(s, BumpOne(t, q, -shrink), path, k + 1, path[k], rem - |t[q].data|, newLen, shrink)
  {
    ShrinkGoesOn(s, path, k, newLen);
    BumpStep(s, t, path, k - 1, -shrink);
    var u := BumpOne(t, q, -shrink);
    assert path[k] in u.Keys && BumpedAt(s, u, path, k, -shrink, path[k]);
    NotBefore(path, k);
  }

  /** More bytes are wanted than the first `k` pbufs hold, so there is another one. */
  lemma ShrinkGoesOn(s: Store, path: seq<Id>, k: nat, newLen: nat)
    requires Chain(s, path) && 0 < k <= |path| && newLen < |Flat(s, path)| % TWO16
    requires newLen > |Flat(s, path[..k - 1])| + |DataOf(s, path[k - 1])|
    ensures k < |path| && path[k - 1] in s && s[path[k - 1]].next == Some(path[k]) && path[k] in s
    ensures |Flat(s, path[..k])| == |Flat(s, path[..k - 1])| + |DataOf(s, path[k - 1])|
  {
    PrefixStep(s, path, k - 1);
    assert path[..|path|] == path && LinkAt(s, path, k - 1);
    assert k < |path| ==> LinkAt(s, path, k);
  }

  lemma NotBefore(path: seq<Id>, k: nat)
    requires Distinct(path) && k < |path|
    ensures path[k] !in path[..k]
  {
    forall i | 0 <= i < k ensures path[..k][i] != path[k] { assert Apart(path, i, k); }
  }

  /** Lengths after the cut: `rem` bytes of the last pbuf complete the new length. */
  lemma ShrinkTotal(total: nat, before: nat, newLen: nat, here: nat)
    requires newLen < total % TWO16 && here == total - before && before <= newLen
    ensures (here % TWO16 + (newLen - total % TWO16)) % TWO16 == newLen - before
  {
    var k, j := total / TWO16, here / TWO16;
    assert total == total % TWO16 + k * TWO16 && here == here % TWO16 + j * TWO16;
    assert here % TWO16 + (newLen - total % TWO16) == (newLen - before) + (k - j) * TWO16;
    ModShift(newLen - before, k - j);
  }

  /** The situation when the loop of pbuf_realloc has ended. */
  ghost predicate Shrunk(s: Store, t: Store, path: seq<Id>, k: nat, rem: nat) {
    && Chain(s, path) && Totals(s, path) && 0 < k <= |path| && path[0] in s && path[k - 1] in s && path[k - 1] in t
    && t[path[k - 1]].data == s[path[k - 1]].data && rem <= |s[path[k - 1]].data|
    && NewLength(s, path, k, rem) < |Flat(s, path)| % TWO16
    && Bumped(s, t, path, k - 1, NewLength(s, path, k, rem) - s[path[0]].totLen)
  }

  ghost function NewLength(s: Store, path: seq<Id>, k: nat, rem: nat): nat
    requires 0 < k <= |path|
  {
    |Flat(s, path[..k - 1])| + rem
  }

  lemma ShrunkBefore(s: Store, t: Store, path: seq<Id>, k: nat, rem: nat, i: nat)
    requires Shrunk(s, t, path, k, rem) && i < k - 1
    ensures var u := Trimmed(t, path[k - 1], rem);
            && path[i] in u && path[i] in s && u[path[i]].data == s[path[i]].data && |s[path[i]].data| < TWO16
            && u[path[i]].totLen == NewLength(s, path, k, rem) - |Flat(s, path[..i])|
  {
    var n := NewLength(s, path, k, rem);
    ShrunkRaw(s, t, path, k, rem, i);
    Lengths(s, path, i, k - 1);
    ShrinkTotal(|Flat(s, path)|, |Flat(s, path[..i])|, n, |Flat(s, path[i..])|);
  }

  lemma ShrunkRaw(s: Store, t: Store, path: seq<Id>, k: nat, rem: nat, i: nat)
    requires Shrunk(s, t, path, k, rem) && i < k - 1
    ensures var u, n := Trimmed(t, path[k - 1], rem), NewLength(s, path, k, rem);
            && path[i] in u && path[i] in s && u[path[i]].data == s[path[i]].data && |s[path[i]].data| < TWO16
            && u[path[i]].totLen == (|Flat(s, path[i..])| % TWO16 + (n - |Flat(s, path)| % TWO16)) % TWO16
  {
    var n := NewLength(s, path, k, rem);
    assert TotalAt(s, path, i) && TotalAt(s, path, 0) && path[0..] == path;
    assert Apart(path, i, k - 1) && path[i] in t.Keys && BumpedAt(s, t, path, k - 1, n - s[path[0]].totLen, path[i]);
    assert path[..k - 1][i] == path[i];
  }

  lemma Lengths(s: Store, path: seq<Id>, i: nat, k: nat)
    requires i <= k <= |path|
    ensures |Flat(s, path[i..])| == |Flat(s, path)| - |Flat(s, path[..i])|
    ensures |Flat(s, path[..i])| <= |Flat(s, path[..k])|
  {
    FlatCut(s, path, i);
    PrefixLonger(s, path, i, k);
  }

  lemma PrefixLonger(s: Store, path: seq<Id>, i: nat, k: nat)
    requires i <= k <= |path|
    ensures |Flat(s, path[..k])| == |Flat(s, path[..i])| + |Flat(s, path[..k][i..])|
  {
    FlatCut(s, path[..k], i);
    assert path[..k][..i] == path[..i];
  }

  lemma ShrunkFlat(s: Store, t: Store, path: seq<Id>, k: nat, rem: nat, i: nat)
    requires Shrunk(s, t, path, k, rem) && i < k
    ensures Flat(Trimmed(t, path[k - 1], rem), path[..k][i..])
            == Flat(s, path[..k - 1][i..]) + s[path[k - 1]].data[..rem]
  {
    var u, q, f := Trimmed(t, path[k - 1], rem), path[k - 1], path[..k - 1][i..];
    assert path[..k][i..] == f + [q];
    FlatAppend(u, f, [q]);
    FlatOne(u, q);
    forall j | 0 <= j < |f| ensures SameData(s, u, f[j]) { ShrunkBefore(s, t, path, k, rem, i + j); }
    FlatSame(s, u, f);
  }

  lemma ShrunkLength(s: Store, t: Store, path: seq<Id>, k: nat, rem: nat, i: nat)
    requires Shrunk(s, t, path, k, rem) && i < k
    ensures var u := Trimmed(t, path[k - 1], rem);
            && path[i] in u && |u[path[i]].data| < TWO16
            && u[path[i]].totLen == |Flat(u, path[..k][i..])| <= NewLength(s, path, k, rem)
  {
    ShrunkFlat(s, t, path, k, rem, i);
    PrefixLonger(s, path, i, k - 1);
    if i < k - 1 {
      ShrunkBefore(s, t, path, k, rem, i);
    } else {
      assert path[..k - 1][i..] == [] && TotalAt(s, path, k - 1);
    }
  }

  lemma ShrunkTotalAt(s: Store, t: Store, path: seq<Id>, k: nat, rem: nat, i: nat)
    requires Shrunk(s, t, path, k, rem) && i < k
    ensures TotalAt(Trimmed(t, path[k - 1], rem), path[..k], i)
  {
    ShrunkLength(s, t, path, k, rem, i);
    assert path[..k][i] == path[i];
    SmallMod(|Flat(Trimmed(t, path[k - 1], rem), path[..k][i..])|, |Flat(s, path)|);
  }

  lemma SmallMod(a: nat, b: nat)
    ensures a < b % TWO16 ==> a % TWO16 == a
  {
  }

  lemma ShrunkTotals(s: Store, t: Store, path: seq<Id>, k: nat, rem: nat)
    requires Shrunk(s, t, path, k, rem)
    ensures var u := Trimmed(t, path[k - 1], rem);
            Totals(u, path[..k]) && Flat(u, path[..k]) == Flat(s, path)[..NewLength(s, path, k, rem)]
  {
    var u, f := Trimmed(t, path[k - 1], rem), path[..k];
    forall i | 0 <= i < k ensures TotalAt(u, f, i) { ShrunkTotalAt(s, t, path, k, rem, i); }
    ShrunkFlat(s, t, path, k, rem, 0);
    assert path[..k][0..] == path[..k] && path[..k - 1][0..] == path[..k - 1];
    FlatCut(s, path, k - 1);
    FlatAt(s, path, k - 1);
  }

  lemma ShrunkLinks(s: Store, t: Store, hs: multiset<Id>, path: seq<Id>, k: nat, rem: nat, d: int)
    requires RefsOk(s, hs) && Chain(s, path) && 0 < k <= |path| && path[k - 1] in t && rem <= |t[path[k - 1]].data|
    requires Bumped(s, t, path, k - 1, d)
    ensures var u := Trimmed(t, path[k - 1], rem);
            RefsOk(u, hs + AsHandle(t[path[k - 1]].next)) && Chain(u, path[..k])
  {
    var q := path[k - 1];
    var v, u := Relinked(t, q, None), Trimmed(t, q, rem);
    BumpedPointers(s, t, path, k - 1, d, hs);
    BumpedChain(s, t, path, k - 1, d, path);
    RelinkKeeps(t, hs, q, None);
    assert hs - AsHandle(None) + AsHandle(t[q].next) == hs + AsHandle(t[q].next);
    assert u.Keys == v.Keys;
    forall x | x in v ensures x in u && SamePointers(v, u, x) { }
    RefsKept(v, u, hs + AsHandle(t[q].next));
    ChainCut(t, path, k);
    forall i | 0 <= i < k ensures SameNext(v, u, path[..k][i]) { assert LinkAt(v, path[..k], i); }
    ChainSame(v, u, path[..k]);
  }

  lemma ShrunkFrame(s: Store, t: Store, path: seq<Id>, k: nat, rem: nat)
    requires Shrunk(s, t, path, k, rem)
    ensures var u := Trimmed(t, path[k - 1], rem); KeptBut(s, u, path[..k]) && (Acyclic(s) ==> Acyclic(u))
    ensures t[path[k - 1]].next == Head(path[k..])
  {
    var u, d := Trimmed(t, path[k - 1], rem), NewLength(s, path, k, rem) - s[path[0]].totLen;
    assert path[..k] == path[..k - 1] + [path[k - 1]];
    forall x ensures KeptAt(s, u, path[..k], x) && FewerLinks(s, u, x) {
      assert x in s.Keys <==> x in t.Keys;
      if x in s { assert BumpedAt(s, t, path, k - 1, d, x); }
    }
    AcyclicKept(s, u);
    assert LinkAt(s, path, k - 1) && BumpedAt(s, t, path, k - 1, d, path[k - 1]);
  }

  lemma ReallocAll(s: Store, t: Store, hs: multiset<Id>, path: seq<Id>, k: nat, rem: nat)
    requires RefsOk(s, hs) && Held(s, hs, path) && Shrunk(s, t, path, k, rem)
    ensures var u, next := Trimmed(t, path[k - 1], rem), t[path[k - 1]].next;
            var v := Released(u, next);
            && RefsOk(u, hs + AsHandle(next)) && (next.None? ==> RefsOk(u, hs) && v == u)
            && Chain(v, path[..k]) && Totals(v, path[..k])
            && Flat(v, path[..k]) == Flat(s, path)[..NewLength(s, path, k, rem)]
            && RestReleased(s, v, path, k) && (Acyclic(s) ==> Acyclic(u))
  {
    var u, next := Trimmed(t, path[k - 1], rem), t[path[k - 1]].next;
    ShrunkFrame(s, t, path, k, rem);
    FreeRest(s, u, path, k);
    ShrunkTotals(s, t, path, k, rem);
    ShrunkLinks(s, t, hs, path, k, rem, NewLength(s, path, k, rem) - s[path[0]].totLen);
    var v := Released(u, next);
    ReleaseKeeps(u, hs, next);
    forall x | x in v ensures x in u && ButRef(v[x], u[x]) { ReleaseFrame(u, next, x); }
    assert path[..k][0] == path[0] && hs + AsHandle(None) == hs;
    SurvivesWhole(u, v, hs, path[..k]);
  }

  // ----- pbuf_free_header

  function Dropped(bytes: seq<byte>, n: nat): seq<byte> { if n <= |bytes| then bytes[n..] else [] }

  /** The head `r` of the remaining chain is held, and dropping `left` more bytes gives what is wanted. */
  ghost predicate Cutting(s: Store, ks: multiset<Id>, hs: multiset<Id>, path: seq<Id>, r: Option<Id>, left: nat,
                          want: seq<byte>) {
    && RefsOk(s, ks) && ks == hs + AsHandle(r) && Chain(s, path) && Totals(s, path) && r == Head(path)
    && Dropped(Flat(s, path), left) == want
  }

  /** What was done up to position `k`, and what is still to be done from there on. */
  ghost predicate Shedding(s: Store, t: Store, ks: multiset<Id>, hs: multiset<Id>, path: seq<Id>, k: nat, r: Option<Id>,
                           left: nat, want: seq<byte>, whole: bool) {
    && k <= |path| && left < TWO16 && Distinct(path) && Cutting(t, ks, hs, path[k..], r, left, want)
    && Freed(s, t, path, k, whole) && (left > 0 ==> whole)
  }

  lemma CuttingEnds(s: Store, ks: multiset<Id>, hs: multiset<Id>, path: seq<Id>, r: Option<Id>, left: nat,
                    want: seq<byte>)
    requires Cutting(s, ks, hs, path, r, left, want) && (left == 0 || r.None?)
    ensures Cutting(s, ks, hs, path, r, 0, want)
  {
    assert Flat(s, path)[0..] == Flat(s, path);
  }

  lemma SuffixStep(path: seq<Id>, k: nat, j: nat)
    requires k + j <= |path|
    ensures path[k..][j..] == path[k + j..] && path[0..] == path
  {
  }

  lemma HeadFacts(s: Store, path: seq<Id>, n: nat)
    requires Chain(s, path) && Totals(s, path) && path != []
    ensures path[0] in s && s[path[0]].next == Head(path[1..])
    ensures n >= |s[path[0]].data| ==> Dropped(Flat(s, path), n) == Dropped(Flat(s, path[1..]), n - |s[path[0]].data|)
  {
    assert LinkAt(s, path, 0);
    assert Flat(s, path) == s[path[0]].data + Flat(s, path[1..]);
  }

  /** pbuf_remove_header. */
  function Beheaded(s: Store, x: Id, n: nat): Store
    requires x in s && n <= |s[x].data|
  {
    s[x := s[x].(data := s[x].data[n..], totLen := (s[x].totLen - n) % TWO16)]
  }

  lemma TrimHead(s: Store, hs: multiset<Id>, path: seq<Id>, n: nat)
    requires RefsOk(s, hs) && Chain(s, path) && Totals(s, path) && path != [] && path[0] in s && n <= |s[path[0]].data|
    ensures var t := Beheaded(s, path[0], n);
            RefsOk(t, hs) && Chain(t, path) && Totals(t, path) && Flat(t, path) == Dropped(Flat(s, path), n)
  {
    var t := Beheaded(s, path[0], n);
    assert t.Keys == s.Keys;
    forall x | x in s ensures x in t && SamePointers(s, t, x) { }
    RefsKept(s, t, hs);
    forall i | 0 <= i < |path| ensures SameNext(s, t, path[i]) { assert LinkAt(s, path, i); }
    ChainSame(s, t, path);
    TrimHeadTotals(s, path, n);
  }

  lemma TrimHeadTotals(s: Store, path: seq<Id>, n: nat)
    requires Chain(s, path) && Totals(s, path) && path != [] && path[0] in s && n <= |s[path[0]].data|
    ensures Totals(Beheaded(s, path[0], n), path) && Flat(Beheaded(s, path[0], n), path) == Dropped(Flat(s, path), n)
  {
    var t, r := Beheaded(s, path[0], n), path[1..];
    TrimHeadRest(s, path, n);
    TrimHeadTotal(s, path, n);
    forall i | 0 <= i < |path| ensures TotalAt(t, path, i) {
      if i > 0 { assert TotalAt(t, r, i - 1) && r[i - 1..] == path[i..]; }
    }
  }

  lemma TrimHeadTotal(s: Store, path: seq<Id>, n: nat)
    requires Totals(s, path) && path != [] && path[0] in s && n <= |s[path[0]].data|
    requires Flat(Beheaded(s, path[0], n), path[1..]) == Flat(s, path[1..])
    ensures var t := Beheaded(s, path[0], n); TotalAt(t, path, 0) && Flat(t, path) == Dropped(Flat(s, path), n)
  {
    var t, r := Beheaded(s, path[0], n), path[1..];
    assert TotalAt(s, path, 0) && path[0..] == path;
    assert Flat(s, path) == s[path[0]].data + Flat(s, r) && Flat(t, path) == s[path[0]].data[n..] + Flat(t, r);
    HeadTotal(|Flat(s, path)|, n);
  }

  lemma HeadTotal(a: nat, n: nat)
    ensures (a % TWO16 - n) % TWO16 == (a - n) % TWO16
  {
    ModShift(a % TWO16 - n, a / TWO16);
  }

  lemma TrimHeadRest(s: Store, path: seq<Id>, n: nat)
    requires Chain(s, path) && Totals(s, path) && path != [] && path[0] in s && n <= |s[path[0]].data|
    ensures var t := Beheaded(s, path[0], n); Totals(t, path[1..]) && Flat(t, path[1..]) == Flat(s, path[1..])
  {
    var t, r := Beheaded(s, path[0], n), path[1..];
    ChainSuffix(s, path, 1);
    TotalsSuffix(s, path, 1);
    forall i | 0 <= i < |r| ensures SameBody(s, t, r[i]) { assert LinkAt(s, r, i) && Apart(path, 0, i + 1); }
    WholeSame(s, t, r);
  }

  /** Unlinked and given up: gone, unless somebody else names it. */
  function PassedOn(s: Store, f: Id): Store
    requires f in s
  {
    if s[f].ref == 1 then s - {f} else s[f := Less(s[f]).(next := None)]
  }

  /** The first `k` pbufs were unlinked and given up; the next one may have lost bytes at its front,
      unless it is still `whole`; nothing else has changed. */
  predicate FreedAt(s: Store, t: Store, path: seq<Id>, k: nat, whole: bool, x: Id)
    requires k <= |path|
  {
    if x in path[..k] then
      x in s && (x in t <==> s[x].ref != 1) && (x in t ==> t[x] == Less(s[x]).(next := None))
    else if !whole && k < |path| && x == path[k] then
      x in s && x in t && t[x] == s[x].(data := t[x].data, totLen := t[x].totLen)
    else
      (x in s <==> x in t) && (x in s && x in t ==> t[x] == s[x])
  }

  ghost predicate Freed(s: Store, t: Store, path: seq<Id>, k: nat, whole: bool)
    requires k <= |path|
  {
    forall x :: FreedAt(s, t, path, k, whole, x)
  }

  lemma FreedNothing(s: Store, path: seq<Id>)
    ensures Freed(s, s, path, 0, true)
  {
    forall x ensures FreedAt(s, s, path, 0, true, x) { }
  }

  lemma FreedWeaker(s: Store, t: Store, path: seq<Id>, k: nat, whole: bool)
    requires k <= |path| && Freed(s, t, path, k, whole) && (k < |path| ==> path[k] in t)
    ensures Freed(s, t, path, k, false)
  {
    forall x ensures FreedAt(s, t, path, k, false, x) { assert FreedAt(s, t, path, k, whole, x); }
  }

  /** One round: the head is used up, or it keeps some bytes. */
  lemma FreedStep(s: Store, t: Store, path: seq<Id>, k: nat, n: nat)
    requires Distinct(path) && k < |path| && Freed(s, t, path, k, true) && path[k] in t
    ensures n >= |t[path[k]].data| ==> Freed(s, PassedOn(t, path[k]), path, k + 1, true)
    ensures n < |t[path[k]].data| ==> Freed(s, Beheaded(t, path[k], n), path, k, false)
  {
    var j := k + 1;
    assert path[..j] == path[..k] + [path[k]];
    NotInFront(path, k, k);
    if n >= |t[path[k]].data| {
      var u := PassedOn(t, path[k]);
      forall x ensures FreedAt(s, u, path, j, true, x) { assert FreedAt(s, t, path, k, true, x); }
    } else {
      var u := Beheaded(t, path[k], n);
      forall x ensures FreedAt(s, u, path, k, false, x) { assert FreedAt(s, t, path, k, true, x); }
    }
  }

  lemma FreedAcyclic(s: Store, t: Store, path: seq<Id>, k: nat)
    requires k <= |path| && Freed(s, t, path, k, false)
    ensures Acyclic(s) ==> Acyclic(t)
  {
    forall x ensures FewerLinks(s, t, x) { assert FreedAt(s, t, path, k, false, x); }
    AcyclicKept(s, t);
  }

  lemma PassedOnIs(s: Store, hs: multiset<Id>, f: Id)
    requires RefsOk(s, hs) && f in s
    ensures Released(Relinked(s, f, None), Some(f)) == PassedOn(s, f)
  {
    assert Counted(s, hs, f);
    var u := Relinked(s, f, None);
    assert u - {f} == s - {f};
  }

  lemma PassOnAll(s: Store, hs: multiset<Id>, path: seq<Id>)
    requires path != [] && RefsOk(s, hs + multiset{path[0]}) && Chain(s, path) && Totals(s, path)
    ensures path[0] in s && s[path[0]].next == Head(path[1..])
    ensures var u, next := Relinked(s, path[0], None), s[path[0]].next;
            var t := Released(u, Some(path[0]));
            && RefsOk(u, hs + multiset{path[0]} + AsHandle(next))
            && Chain(t, path[1..]) && Totals(t, path[1..]) && Flat(t, path[1..]) == Flat(s, path[1..])
  {
    assert LinkAt(s, path, 0);
    var f, next, ks := path[0], s[path[0]].next, hs + multiset{path[0]};
    var u := Relinked(s, f, None);
    RelinkKeeps(s, ks, f, None);
    assert ks - AsHandle(None) + AsHandle(next) == ks + AsHandle(next);
    ChainCut(s, path, 1);
    TotalsSuffix(s, path, 1);
    TotalsRelink(s, f, None, path[1..]);
    var t := Released(u, Some(f));
    assert hs + AsHandle(next) + AsHandle(Some(f)) == ks + AsHandle(next);
    ReleaseKeeps(u, hs + AsHandle(next), Some(f));
    forall x | x in t ensures x in u && ButRef(t[x], u[x]) { ReleaseFrame(u, Some(f), x); }
    SurvivesWhole(u, t, hs + AsHandle(next), path[1..]);
  }
}
