/** Packet buffers of pbuf.c as a store of linked records, and who may still name them.

    A pbuf counts the pointers to it: handles held outside and `next` links of other pbufs. The
    handles are kept as a multiset beside the store. Whatever is done, the count stays exact, so
    nothing that is still named is ever released, and what is no longer named is. */
module PbufRefs {
  import opened Basics
  import opened IdList

  /** `data` is the payload, its length is `len`; `fin` is PBUF_FLAG_TCP_FIN. */
  datatype Pbuf = Pbuf(next: Option<Id>, data: seq<byte>, totLen: int, ref: nat, fin: bool)

  type Store = map<Id, Pbuf>

  /** The pbufs whose link leads to `x`. */
  ghost function In(s: Store, x: Id): set<Id> { set y | y in s && s[y].next == Some(x) }

  /** No link dangles. */
  predicate Linked(s: Store, y: Id)
    requires y in s
  {
    s[y].next.Some? ==> s[y].next.value in s
  }

  /** The count is exact, and it is positive. */
  ghost predicate Counted(s: Store, hs: multiset<Id>, x: Id)
    requires x in s
  {
    s[x].ref == hs[x] + |In(s, x)| && s[x].ref > 0
  }

  ghost predicate RefsOk(s: Store, hs: multiset<Id>) {
    && (forall x | x in hs :: x in s)
    && (forall y {:trigger Linked(s, y)} | y in s :: Linked(s, y))
    && (forall x {:trigger Counted(s, hs, x)} | x in s :: Counted(s, hs, x))
  }

  // ----- changes that move no pointer

  predicate SamePointers(s: Store, t: Store, x: Id)
    requires x in s && x in t
  {
    s[x].next == t[x].next && s[x].ref == t[x].ref
  }

  lemma RefsKept(s: Store, t: Store, hs: multiset<Id>)
    requires RefsOk(s, hs) && t.Keys == s.Keys && forall x | x in s :: x in t && SamePointers(s, t, x)
    ensures RefsOk(t, hs)
  {
    forall x | x in hs ensures x in t { assert x in s.Keys; }
    forall x | x in t ensures Counted(t, hs, x) && Linked(t, x) {
      assert x in s.Keys && SamePointers(s, t, x) && Counted(s, hs, x) && Linked(s, x);
      InKept(s, t, x);
      if t[x].next.Some? { assert t[x].next.value in s.Keys; }
    }
  }

  lemma InKept(s: Store, t: Store, x: Id)
    requires t.Keys == s.Keys && forall y | y in s :: y in t && SamePointers(s, t, y)
    ensures In(t, x) == In(s, x)
  {
    forall y ensures y in In(t, x) <==> y in In(s, x) {
      assert y in s.Keys <==> y in t.Keys;
      if y in s { assert SamePointers(s, t, y); }
    }
  }

  // ----- a link turned into a handle, and a handle into a link

  function AsHandle(next: Option<Id>): multiset<Id> {
    if next.Some? then multiset{next.value} else multiset{}
  }

  function Relinked(s: Store, y: Id, next: Option<Id>): Store
    requires y in s
  {
    s[y := s[y].(next := next)]
  }

  /** Changing where `y` leads is right if the old target is named by a new handle instead, and
      the new target was named by a handle before. */
  lemma RelinkKeeps(s: Store, hs: multiset<Id>, y: Id, next: Option<Id>)
    requires RefsOk(s, hs) && y in s && (next.Some? ==> next.value in hs)
    ensures RefsOk(Relinked(s, y, next), hs - AsHandle(next) + AsHandle(s[y].next))
  {
    var t, ks := Relinked(s, y, next), hs - AsHandle(next) + AsHandle(s[y].next);
    forall x | x in ks ensures x in t {
      assert x in hs || s[y].next == Some(x);
      assert Linked(s, y);
    }
    forall x | x in t ensures Linked(t, x) && Counted(t, ks, x) {
      assert Linked(s, x) && Counted(s, hs, x) && (x == y && next.Some? ==> next.value in s);
      RelinkIn(s, y, next, x);
    }
  }

  lemma RelinkIn(s: Store, y: Id, next: Option<Id>, x: Id)
    requires y in s
    ensures var t := Relinked(s, y, next);
            |In(t, x)| == |In(s, x)| + (if next == Some(x) then 1 else 0) - (if s[y].next == Some(x) then 1 else 0)
  {
    var was, now := In(s, x), In(Relinked(s, y, next), x);
    forall z | z != y ensures z in now <==> z in was { }
    if next == Some(x) {
      assert now == was + {y};
    } else {
      assert now == was - {y};
    }
  }

  // ----- pbuf_ref

  function Reffed(s: Store, p: Id): Store
    requires p in s
  {
    s[p := s[p].(ref := s[p].ref + 1)]
  }

  lemma RefKeeps(s: Store, hs: multiset<Id>, p: Id)
    requires RefsOk(s, hs) && p in s
    ensures RefsOk(Reffed(s, p), hs + multiset{p})
  {
    var t := Reffed(s, p);
    forall x | x in t ensures Linked(t, x) && Counted(t, hs + multiset{p}, x) {
      assert Linked(s, x) && Counted(s, hs, x);
      assert In(t, x) == In(s, x);
    }
  }

  // ----- pbuf_free

  /** Give up one handle on `p`: pbufs are released from there on as long as nobody else names
      them. */
  function Released(s: Store, p: Option<Id>): Store
    decreases |s|
  {
    if p.None? || p.value !in s then s
    else if s[p.value].ref == 1 then Released(s - {p.value}, s[p.value].next)
    else s[p.value := s[p.value].(ref := if s[p.value].ref > 0 then s[p.value].ref - 1 else 0)]
  }

  /** The last handle on a pbuf that no link leads to: it can go, and its link becomes a handle. */
  lemma DropKeeps(s: Store, hs: multiset<Id>, p: Id)
    requires RefsOk(s, hs + multiset{p}) && p in s && s[p].ref == 1
    ensures RefsOk(s - {p}, hs + AsHandle(s[p].next)) && (s[p].next.Some? ==> s[p].next.value in s - {p})
  {
    var t, ks := s - {p}, hs + AsHandle(s[p].next);
    assert Counted(s, hs + multiset{p}, p) && hs[p] == 0;
    assert |In(s, p)| == 0;
    NotSelf(s, p);
    forall x | x in ks ensures x in t { assert Linked(s, p) && (x in hs ==> x in hs + multiset{p}); }
    forall x | x in t ensures Linked(t, x) && Counted(t, ks, x) {
      assert Linked(s, x) && Counted(s, hs + multiset{p}, x);
      assert x !in In(s, p);
      DropIn(s, p, x);
    }
    assert Linked(s, p);
  }

  lemma NotSelf(s: Store, p: Id)
    requires p in s && In(s, p) == {}
    ensures s[p].next != Some(p)
  {
    assert p !in In(s, p);
  }

  lemma DropIn(s: Store, p: Id, x: Id)
    requires p in s
    ensures |In(s - {p}, x)| == |In(s, x)| - (if s[p].next == Some(x) then 1 else 0)
  {
    assert In(s - {p}, x) == In(s, x) - {p};
  }

  /** Another handle or a link remains: only the count changes. */
  lemma LessKeeps(s: Store, hs: multiset<Id>, p: Id)
    requires RefsOk(s, hs + multiset{p}) && p in s && s[p].ref > 1
    ensures RefsOk(s[p := s[p].(ref := s[p].ref - 1)], hs)
  {
    var t := s[p := s[p].(ref := s[p].ref - 1)];
    forall x | x in hs ensures x in t { assert x in hs + multiset{p}; }
    forall x | x in t ensures Linked(t, x) && Counted(t, hs, x) {
      assert Linked(s, x) && Counted(s, hs + multiset{p}, x);
      assert In(t, x) == In(s, x);
    }
  }

  /** pbuf_free keeps every count exact: whatever is named by a remaining handle, or can be
      reached from one, is still there. */
  lemma {:induction false} ReleaseKeeps(s: Store, hs: multiset<Id>, p: Option<Id>)
    requires RefsOk(s, hs + AsHandle(p))
    ensures RefsOk(Released(s, p), hs)
    decreases |s|
  {
    if p.Some? {
      var x := p.value;
      assert x in hs + multiset{x} && Counted(s, hs + multiset{x}, x);
      if s[x].ref == 1 {
        DropKeeps(s, hs, x);
        ReleaseKeeps(s - {x}, hs, s[x].next);
      } else {
        LessKeeps(s, hs, x);
      }
    } else {
      assert hs + AsHandle(p) == hs;
    }
  }

  predicate ButRef(a: Pbuf, b: Pbuf) { a == b.(ref := a.ref) }

  /** What survives keeps its link, its bytes and its totals. */
  lemma {:induction false} ReleaseFrame(s: Store, p: Option<Id>, x: Id)
    requires x in Released(s, p)
    ensures x in s && ButRef(Released(s, p)[x], s[x])
    decreases |s|
  {
    if p.Some? && p.value in s && s[p.value].ref == 1 {
      ReleaseFrame(s - {p.value}, s[p.value].next, x);
    }
  }

  lemma {:induction false} ReleaseShrinks(s: Store, p: Option<Id>)
    ensures |Released(s, p)| <= |s|
    decreases |s|
  {
    if p.Some? && p.value in s && s[p.value].ref == 1 {
      ReleaseShrinks(s - {p.value}, s[p.value].next);
    }
  }

  /** A pbuf named by a handle, or by the link of a surviving pbuf, is never released; one named
      by neither does not survive. */
  lemma ReleasedExactly(s: Store, hs: multiset<Id>, p: Option<Id>, x: Id)
    requires RefsOk(s, hs + AsHandle(p)) && x in s
    ensures x in Released(s, p) <==> x in hs || exists y :: y in Released(s, p) && Released(s, p)[y].next == Some(x)
  {
    var t := Released(s, p);
    ReleaseKeeps(s, hs, p);
    if x in t {
      assert Counted(t, hs, x);
      if x !in hs {
        assert In(t, x) != {};
        var y :| y in In(t, x);
        assert y in t && t[y].next == Some(x);
      }
    } else {
      forall y | y in t ensures t[y].next != Some(x) { assert Linked(t, y); }
    }
  }

  // ----- who leads to a pbuf

  /** Links lead to lower ranks: there is no cycle. */
  ghost predicate Ranked(s: Store, rank: Id -> nat) {
    forall y {:trigger Steps(s, rank, y)} | y in s :: Steps(s, rank, y)
  }

  predicate Steps(s: Store, rank: Id -> nat, y: Id)
    requires y in s
  {
    s[y].next.Some? ==> rank(s[y].next.value) < rank(y)
  }

  predicate Follows(s: Store, path: seq<Id>, i: nat)
    requires i + 1 < |path|
  {
    path[i] in s && s[path[i]].next == Some(path[i + 1])
  }

  ghost function Above(s: Store, rank: Id -> nat, x: Id): set<Id> { set y | y in s && rank(y) > rank(x) }

  lemma {:induction false} LedTo(s: Store, hs: multiset<Id>, rank: Id -> nat, x: Id) returns (path: seq<Id>)
    requires RefsOk(s, hs) && Ranked(s, rank) && x in s
    ensures path != [] && path[0] in hs && path[|path| - 1] == x
    ensures forall i | 0 <= i < |path| - 1 :: Follows(s, path, i)
    decreases Above(s, rank, x)
  {
    if x in hs { return [x]; }
    assert Counted(s, hs, x);
    var y :| y in In(s, x);
    assert Steps(s, rank, y);
    assert y in Above(s, rank, x) && y !in Above(s, rank, y);
    var p := LedTo(s, hs, rank, y);
    path := p + [x];
    forall i | 0 <= i < |path| - 1 ensures Follows(s, path, i) { assert i < |p| - 1 ==> Follows(s, p, i); }
  }
}
