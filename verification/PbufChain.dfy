/** Chains of pbufs as what they stand for: one flat sequence of bytes, with totals that are kept
    modulo 65536. */
module PbufChain {
  import opened Basics
  import opened IdList
  import opened PbufRefs

  predicate LinkAt(s: Store, path: seq<Id>, i: nat)
    requires i < |path|
  {
    path[i] in s && s[path[i]].next == (if i + 1 < |path| then Some(path[i + 1]) else None)
  }

  /** `path` lists the pbufs of a chain from its head to its end; the empty path is NULL. */
  ghost predicate Chain(s: Store, path: seq<Id>) {
    Distinct(path) && forall i {:trigger LinkAt(s, path, i)} | 0 <= i < |path| :: LinkAt(s, path, i)
  }

  function Head(path: seq<Id>): Option<Id> { if path == [] then None else Some(path[0]) }

  function DataOf(s: Store, x: Id): seq<byte> { if x in s then s[x].data else [] }

  function Flat(s: Store, path: seq<Id>): seq<byte> {
    if path == [] then [] else DataOf(s, path[0]) + Flat(s, path[1..])
  }

  predicate TotalAt(s: Store, path: seq<Id>, i: nat)
    requires i < |path|
  {
    path[i] in s && |s[path[i]].data| < TWO16 && s[path[i]].totLen == |Flat(s, path[i..])| % TWO16
  }

  /** Each pbuf records the length of the chain from itself on, in 16 bits. */
  ghost predicate Totals(s: Store, path: seq<Id>) {
    forall i {:trigger TotalAt(s, path, i)} | 0 <= i < |path| :: TotalAt(s, path, i)
  }

  // ----- flat bytes

  lemma {:induction false} FlatAppend(s: Store, a: seq<Id>, b: seq<Id>)
    ensures Flat(s, a + b) == Flat(s, a) + Flat(s, b)
  {
    if a == [] {
      assert a + b == b;
    } else {
      assert (a + b)[1..] == a[1..] + b;
      FlatAppend(s, a[1..], b);
    }
  }

  lemma FlatAt(s: Store, path: seq<Id>, k: nat)
    requires k < |path|
    ensures Flat(s, path[k..]) == DataOf(s, path[k]) + Flat(s, path[k + 1..])
  {
    assert path[k..][1..] == path[k + 1..];
  }

  lemma FlatCut(s: Store, path: seq<Id>, k: nat)
    requires k <= |path|
    ensures Flat(s, path) == Flat(s, path[..k]) + Flat(s, path[k..])
  {
    FlatAppend(s, path[..k], path[k..]);
    assert path == path[..k] + path[k..];
  }

  lemma PrefixStep(s: Store, path: seq<Id>, k: nat)
    requires k < |path|
    ensures Flat(s, path[..k + 1]) == Flat(s, path[..k]) + DataOf(s, path[k])
  {
    FlatAppend(s, path[..k], [path[k]]);
    assert path[..k + 1] == path[..k] + [path[k]];
    assert Flat(s, [path[k]]) == DataOf(s, path[k]) + Flat(s, []);
  }

  predicate SameData(s: Store, t: Store, x: Id) { DataOf(s, x) == DataOf(t, x) }

  lemma {:induction false} FlatSame(s: Store, t: Store, path: seq<Id>)
    requires forall i | 0 <= i < |path| :: SameData(s, t, path[i])
    ensures Flat(s, path) == Flat(t, path)
  {
    if path != [] {
      assert SameData(s, t, path[0]);
      forall i | 0 <= i < |path[1..]| ensures SameData(s, t, path[1..][i]) { assert SameData(s, t, path[i + 1]); }
      FlatSame(s, t, path[1..]);
    }
  }

  // ----- parts of a chain

  lemma DistinctPart(path: seq<Id>, a: nat, b: nat)
    requires Distinct(path) && a <= b <= |path|
    ensures Distinct(path[a..b])
  {
    forall i, j | 0 <= i < j < |path[a..b]| ensures Apart(path[a..b], i, j) { assert Apart(path, a + i, a + j); }
  }

  lemma ChainSuffix(s: Store, path: seq<Id>, k: nat)
    requires Chain(s, path) && k <= |path|
    ensures Chain(s, path[k..])
  {
    DistinctPart(path, k, |path|);
    assert path[k..|path|] == path[k..];
    forall i | 0 <= i < |path[k..]| ensures LinkAt(s, path[k..], i) { assert LinkAt(s, path, k + i); }
  }

  lemma TotalsSuffix(s: Store, path: seq<Id>, k: nat)
    requires Totals(s, path) && k <= |path|
    ensures Totals(s, path[k..])
  {
    forall i | 0 <= i < |path[k..]| ensures TotalAt(s, path[k..], i) {
      assert TotalAt(s, path, k + i);
      assert path[k..][i..] == path[k + i..];
    }
  }

  /** The chain is cut before position `k`: links and totals of what is in front have to change,
      what is behind stays as it is. */
  lemma ChainCut(s: Store, path: seq<Id>, k: nat)
    requires Chain(s, path) && 0 < k <= |path| && path[k - 1] in s
    ensures Chain(Relinked(s, path[k - 1], None), path[..k]) && Chain(Relinked(s, path[k - 1], None), path[k..])
  {
    var t, x := Relinked(s, path[k - 1], None), path[k - 1];
    DistinctPart(path, 0, k);
    DistinctPart(path, k, |path|);
    assert path[k..|path|] == path[k..] && path[0..k] == path[..k];
    forall i | 0 <= i < k ensures LinkAt(t, path[..k], i) {
      assert LinkAt(s, path, i) && (i < k - 1 ==> Apart(path, i, k - 1));
    }
    forall i | 0 <= i < |path[k..]| ensures LinkAt(t, path[k..], i) {
      assert LinkAt(s, path, k + i) && Apart(path, k - 1, k + i);
    }
  }

  predicate Differ(a: seq<Id>, b: seq<Id>, i: nat, j: nat)
    requires i < |a| && j < |b|
  {
    a[i] != b[j]
  }

  ghost predicate Disjoint(a: seq<Id>, b: seq<Id>) {
    forall i, j {:trigger Differ(a, b, i, j)} | 0 <= i < |a| && 0 <= j < |b| :: Differ(a, b, i, j)
  }

  /** Two chains without a common pbuf are joined by linking the end of one to the other. */
  lemma ChainJoin(s: Store, hp: seq<Id>, tp: seq<Id>)
    requires Chain(s, hp) && Chain(s, tp) && hp != [] && tp != []
    requires Disjoint(hp, tp) && hp[|hp| - 1] in s
    ensures Chain(Relinked(s, hp[|hp| - 1], Some(tp[0])), hp + tp)
  {
    var t, path, n := Relinked(s, hp[|hp| - 1], Some(tp[0])), hp + tp, |hp|;
    forall i, j | 0 <= i < j < |path| ensures Apart(path, i, j) {
      assert j < n ==> Apart(hp, i, j);
      assert i >= n ==> Apart(tp, i - n, j - n);
      assert i < n <= j ==> Differ(hp, tp, i, j - n);
    }
    forall i | 0 <= i < |path| ensures LinkAt(t, path, i) {
      if i < n { assert LinkAt(s, hp, i) && (i < n - 1 ==> Apart(hp, i, n - 1)); }
      else { assert LinkAt(s, tp, i - n) && Differ(hp, tp, n - 1, i - n); }
    }
  }

  predicate SameNext(s: Store, t: Store, x: Id) { x in s && x in t && s[x].next == t[x].next }

  lemma ChainSame(s: Store, t: Store, path: seq<Id>)
    requires Chain(s, path) && forall i | 0 <= i < |path| :: SameNext(s, t, path[i])
    ensures Chain(t, path)
  {
    forall i | 0 <= i < |path| ensures LinkAt(t, path, i) { assert LinkAt(s, path, i) && SameNext(s, t, path[i]); }
  }

  // ----- totals

  /** The totals of the first `n` pbufs are moved by `d`; nothing else differs. */
  predicate BumpedAt(s: Store, t: Store, path: seq<Id>, n: nat, d: int, x: Id)
    requires n <= |path| && x in s && x in t
  {
    t[x] == if x in path[..n] then s[x].(totLen := (s[x].totLen + d) % TWO16) else s[x]
  }

  ghost predicate Bumped(s: Store, t: Store, path: seq<Id>, n: nat, d: int)
    requires n <= |path|
  {
    && s.Keys == t.Keys
    && forall x {:trigger BumpedAt(s, t, path, n, d, x)} | x in s :: x in t && BumpedAt(s, t, path, n, d, x)
  }

  function BumpOne(s: Store, x: Id, d: int): Store
    requires x in s
  {
    s[x := s[x].(totLen := (s[x].totLen + d) % TWO16)]
  }

  lemma BumpStep(s: Store, t: Store, path: seq<Id>, n: nat, d: int)
    requires Distinct(path) && n < |path| && Bumped(s, t, path, n, d) && path[n] in s && path[n] in t
    ensures t[path[n]] == s[path[n]]
    ensures Bumped(s, BumpOne(t, path[n], d), path, n + 1, d)
  {
    var u := BumpOne(t, path[n], d);
    assert path[..n + 1] == path[..n] + [path[n]];
    assert path[n] !in path[..n] by { forall i | 0 <= i < n ensures path[i] != path[n] { assert Apart(path, i, n); } }
    assert BumpedAt(s, t, path, n, d, path[n]);
    forall x | x in s ensures x in u && BumpedAt(s, u, path, n + 1, d, x) {
      assert x in t.Keys;
      assert BumpedAt(s, t, path, n, d, x);
    }
  }

  lemma BumpedPointers(s: Store, t: Store, path: seq<Id>, n: nat, d: int, hs: multiset<Id>)
    requires n <= |path| && Bumped(s, t, path, n, d) && RefsOk(s, hs)
    ensures RefsOk(t, hs)
  {
    forall x | x in s ensures x in t && SamePointers(s, t, x) { assert x in t.Keys && BumpedAt(s, t, path, n, d, x); }
    RefsKept(s, t, hs);
  }

  lemma BumpedChain(s: Store, t: Store, path: seq<Id>, n: nat, d: int, other: seq<Id>)
    requires n <= |path| && Bumped(s, t, path, n, d) && Chain(s, other)
    ensures Chain(t, other) && Flat(t, other) == Flat(s, other)
  {
    forall i | 0 <= i < |other| ensures SameNext(s, t, other[i]) && SameData(s, t, other[i]) {
      assert LinkAt(s, other, i) && other[i] in t.Keys && BumpedAt(s, t, path, n, d, other[i]);
    }
    ChainSame(s, t, other);
    FlatSame(s, t, other);
  }

  lemma ModSum(a: int, b: int)
    ensures (a % TWO16 + b % TWO16) % TWO16 == (a + b) % TWO16
    ensures (a % TWO16 - b % TWO16) % TWO16 == (a - b) % TWO16
  {
    var k, l := a / TWO16, b / TWO16;
    assert a == a % TWO16 + k * TWO16 && b == b % TWO16 + l * TWO16;
    ModShift(a % TWO16 + b % TWO16, k + l);
    ModShift(a % TWO16 - b % TWO16, k - l);
  }

  lemma ModShift(x: int, k: int)
    ensures (x + k * TWO16) % TWO16 == x % TWO16
  {
  }

  /** Totals of a path whose pbufs kept their bytes and carry the totals `f` says. */
  lemma TotalsFrom(s: Store, t: Store, path: seq<Id>, i: nat)
    requires i < |path| && path[i] in s && path[i] in t && t[path[i]].data == s[path[i]].data
    requires |s[path[i]].data| < TWO16 && t[path[i]].totLen == |Flat(s, path[i..])| % TWO16
    requires forall j | 0 <= j < |path| :: SameData(s, t, path[j])
    ensures TotalAt(t, path, i)
  {
    forall j | 0 <= j < |path[i..]| ensures SameData(s, t, path[i..][j]) { assert SameData(s, t, path[i + j]); }
    FlatSame(s, t, path[i..]);
  }

  /** The new total of a pbuf in the first part, and in the second. */
  lemma JoinTotalAt(s: Store, hp: seq<Id>, tp: seq<Id>, i: nat)
    requires Totals(s, hp) && Totals(s, tp) && tp != [] && i < |hp| + |tp|
    ensures var path := hp + tp;
            && path[i] in s && tp[0] in s && |s[path[i]].data| < TWO16
            && (s[path[i]].totLen + if i < |hp| then s[tp[0]].totLen else 0) % TWO16 == |Flat(s, path[i..])| % TWO16
  {
    var path := hp + tp;
    assert TotalAt(s, tp, 0) && tp[0..] == tp;
    if i < |hp| {
      assert path[i..] == hp[i..] + tp && TotalAt(s, hp, i);
      FlatAppend(s, hp[i..], tp);
      ModSum(|Flat(s, hp[i..])|, |Flat(s, tp)|);
    } else {
      assert path[i..] == tp[i - |hp|..] && TotalAt(s, tp, i - |hp|);
    }
  }

  lemma JoinedPbuf(s: Store, t: Store, hp: seq<Id>, tp: seq<Id>, i: nat)
    requires Disjoint(hp, tp) && tp != [] && tp[0] in s && i < |hp| + |tp| && (hp + tp)[i] in s
    requires Bumped(s, t, hp, |hp|, s[tp[0]].totLen)
    ensures var x := (hp + tp)[i];
            && x in t && t[x].data == s[x].data
            && (i < |hp| ==> t[x].totLen == (s[x].totLen + s[tp[0]].totLen) % TWO16)
            && (i >= |hp| ==> t[x].totLen == s[x].totLen)
  {
    var x := (hp + tp)[i];
    assert x in t.Keys && BumpedAt(s, t, hp, |hp|, s[tp[0]].totLen, x) && hp[..|hp|] == hp;
    if i < |hp| {
      assert hp[i] == x;
    } else {
      forall k | 0 <= k < |hp| ensures hp[k] != x { assert Differ(hp, tp, k, i - |hp|); }
    }
  }

  /** pbuf_cat as a whole: `t` is `s` with the totals of `hp` moved. */
  lemma JoinTotals(s: Store, t: Store, hp: seq<Id>, tp: seq<Id>)
    requires Totals(s, hp) && Totals(s, tp) && Disjoint(hp, tp)
    requires hp != [] && tp != [] && tp[0] in s && Bumped(s, t, hp, |hp|, s[tp[0]].totLen) && hp[|hp| - 1] in t
    ensures var u := Relinked(t, hp[|hp| - 1], Some(tp[0]));
            Totals(u, hp + tp) && Flat(u, hp + tp) == Flat(s, hp) + Flat(s, tp)
  {
    var u, path := Relinked(t, hp[|hp| - 1], Some(tp[0])), hp + tp;
    forall j | 0 <= j < |path| ensures SameData(s, u, path[j]) {
      JoinTotalAt(s, hp, tp, j);
      JoinedPbuf(s, t, hp, tp, j);
    }
    forall i | 0 <= i < |path| ensures TotalAt(u, path, i) {
      JoinTotalAt(s, hp, tp, i);
      JoinedPbuf(s, t, hp, tp, i);
      ModTwice(s[path[i]].totLen, |Flat(s, path[i..])|) by {
        if i >= |hp| { assert TotalAt(s, tp, i - |hp|) && path[i..] == tp[i - |hp|..]; }
      }
      TotalsFrom(s, u, path, i);
    }
    FlatSame(s, u, path);
    FlatAppend(s, hp, tp);
  }

  lemma ModTwice(a: int, b: int)
    ensures a == b % TWO16 ==> a % TWO16 == a
  {
  }

  /** The new total of a pbuf in front of the cut. */
  lemma CutTotalAt(s: Store, path: seq<Id>, k: nat, i: nat)
    requires Totals(s, path) && i < k < |path|
    ensures path[i] in s && path[k] in s && |s[path[i]].data| < TWO16
    ensures (s[path[i]].totLen - s[path[k]].totLen) % TWO16 == |Flat(s, path[..k][i..])| % TWO16
  {
    assert TotalAt(s, path, i) && TotalAt(s, path, k);
    FlatAppend(s, path[i..k], path[k..]);
    assert path[i..] == path[i..k] + path[k..] && path[..k][i..] == path[i..k];
    ModSum(|Flat(s, path[i..])|, |Flat(s, path[k..])|);
  }

  lemma CutPbuf(s: Store, t: Store, path: seq<Id>, k: nat, i: nat)
    requires Distinct(path) && k < |path| && i < |path| && path[i] in s && path[k] in s
    requires Bumped(s, t, path, k, -s[path[k]].totLen)
    ensures var x := path[i];
            && x in t && t[x].data == s[x].data
            && t[x].totLen == if i < k then (s[x].totLen - s[path[k]].totLen) % TWO16 else s[x].totLen
  {
    assert path[i] in t.Keys && BumpedAt(s, t, path, k, -s[path[k]].totLen, path[i]);
    if i < k {
      assert path[..k][i] == path[i];
    } else {
      forall j | 0 <= j < k ensures path[..k][j] != path[i] { assert Apart(path, j, i); }
    }
  }

  /** The front of a chain cut before position `k`, its totals moved by what follows. */
  lemma CutTotals(s: Store, t: Store, path: seq<Id>, k: nat)
    requires Distinct(path) && Totals(s, path) && 0 < k < |path| && path[k] in s
    requires Bumped(s, t, path, k, -s[path[k]].totLen)
    ensures Totals(t, path[..k]) && Totals(t, path[k..])
    ensures Flat(t, path[..k]) == Flat(s, path[..k]) && Flat(t, path[k..]) == Flat(s, path[k..])
  {
    CutFront(s, t, path, k);
    var r := path[k..];
    TotalsSuffix(s, path, k);
    forall j | 0 <= j < |r| ensures SameData(s, t, r[j]) { assert TotalAt(s, r, j); CutPbuf(s, t, path, k, k + j); }
    forall i | 0 <= i < |r| ensures TotalAt(t, r, i) {
      assert TotalAt(s, r, i);
      CutPbuf(s, t, path, k, k + i);
      TotalsFrom(s, t, r, i);
    }
    FlatSame(s, t, r);
  }

  lemma CutFront(s: Store, t: Store, path: seq<Id>, k: nat)
    requires Distinct(path) && Totals(s, path) && 0 < k < |path| && path[k] in s
    requires Bumped(s, t, path, k, -s[path[k]].totLen)
    ensures Totals(t, path[..k]) && Flat(t, path[..k]) == Flat(s, path[..k])
  {
    var f := path[..k];
    forall j | 0 <= j < k ensures SameData(s, t, f[j]) { assert TotalAt(s, path, j); CutPbuf(s, t, path, k, j); }
    forall i | 0 <= i < k ensures TotalAt(t, f, i) {
      CutTotalAt(s, path, k, i);
      CutPbuf(s, t, path, k, i);
      TotalsFrom(s, t, f, i);
    }
    FlatSame(s, t, f);
  }

  // ----- changes that a chain does not notice

  /** Same link, bytes and total; the reference count and the flag may differ. */
  predicate SameBody(s: Store, t: Store, x: Id) {
    x in s && x in t && s[x].next == t[x].next && s[x].data == t[x].data && s[x].totLen == t[x].totLen
  }

  lemma WholeSame(s: Store, t: Store, path: seq<Id>)
    requires Chain(s, path) && Totals(s, path) && forall i | 0 <= i < |path| :: SameBody(s, t, path[i])
    ensures Chain(t, path) && Totals(t, path) && Flat(t, path) == Flat(s, path)
  {
    forall i | 0 <= i < |path| ensures SameNext(s, t, path[i]) && SameData(s, t, path[i]) {
      assert SameBody(s, t, path[i]);
    }
    ChainSame(s, t, path);
    FlatSame(s, t, path);
    forall i | 0 <= i < |path| ensures TotalAt(t, path, i) {
      assert TotalAt(s, path, i) && SameBody(s, t, path[i]);
      TotalsFrom(s, t, path, i);
    }
  }

  lemma TotalsRelink(s: Store, y: Id, next: Option<Id>, path: seq<Id>)
    requires Totals(s, path) && y in s
    ensures Totals(Relinked(s, y, next), path) && Flat(Relinked(s, y, next), path) == Flat(s, path)
  {
    var t := Relinked(s, y, next);
    forall i | 0 <= i < |path| ensures SameData(s, t, path[i]) { assert TotalAt(s, path, i); }
    forall i | 0 <= i < |path| ensures TotalAt(t, path, i) {
      assert TotalAt(s, path, i);
      TotalsFrom(s, t, path, i);
    }
    FlatSame(s, t, path);
  }
}
