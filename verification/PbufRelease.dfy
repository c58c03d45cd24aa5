/** What releasing a chain does, said before it happens: exactly the leading pbufs that nobody else
    names go. And links are never closed to a cycle, so what is named by nobody cannot stay. */
module PbufRelease {
  import opened Basics
  import opened IdList
  import opened PbufRefs
  import opened PbufChain

  // ----- the leading run of pbufs with a single reference

  /** How many pbufs at the front of the path are named once only. */
  function Run(s: Store, path: seq<Id>): (n: nat)
    ensures n <= |path|
  {
    if path == [] || path[0] !in s || s[path[0]].ref != 1 then 0 else 1 + Run(s, path[1..])
  }

  predicate SameRef(s: Store, t: Store, x: Id) { x in s && x in t && s[x].ref == t[x].ref }

  lemma {:induction false} RunSame(s: Store, t: Store, path: seq<Id>)
    requires forall i | 0 <= i < |path| :: SameRef(s, t, path[i])
    ensures Run(s, path) == Run(t, path)
  {
    if path != [] {
      assert SameRef(s, t, path[0]);
      forall i | 0 <= i < |path[1..]| ensures SameRef(s, t, path[1..][i]) { assert SameRef(s, t, path[i + 1]); }
      RunSame(s, t, path[1..]);
    }
  }

  /** Without its head, the rest of a chain is as it was. */
  lemma DropHead(s: Store, path: seq<Id>)
    requires Chain(s, path) && path != []
    ensures path[0] in s && s[path[0]].next == Head(path[1..])
    ensures Chain(s - {path[0]}, path[1..]) && Run(s - {path[0]}, path[1..]) == Run(s, path[1..])
    ensures |s - {path[0]}| == |s| - 1
  {
    assert LinkAt(s, path, 0);
    var t, r := s - {path[0]}, path[1..];
    ChainSuffix(s, path, 1);
    forall i | 0 <= i < |r| ensures SameNext(s, t, r[i]) && SameRef(s, t, r[i]) {
      assert LinkAt(s, r, i) && Apart(path, 0, i + 1);
    }
    ChainSame(s, t, r);
    RunSame(s, t, r);
    assert t.Keys == s.Keys - {path[0]} && |t.Keys| == |t| && |s.Keys| == |s|;
  }

  /** pbuf_free releases as many pbufs of a chain as the run is long. */
  lemma {:induction false} ReleaseCount(s: Store, path: seq<Id>)
    requires Chain(s, path)
    ensures |s| - |Released(s, Head(path))| == Run(s, path)
    decreases |path|
  {
    if path != [] {
      DropHead(s, path);
      if s[path[0]].ref == 1 {
        ReleaseCount(s - {path[0]}, path[1..]);
      } else {
        assert Released(s, Head(path)).Keys == s.Keys;
        assert |Released(s, Head(path)).Keys| == |s.Keys|;
      }
    }
  }

  function Less(p: Pbuf): Pbuf { p.(ref := if p.ref > 0 then p.ref - 1 else 0) }

  /** The run is gone, the pbuf behind it has lost one name, and everything else is as it was. */
  predicate ReleasedAt(s: Store, t: Store, path: seq<Id>, x: Id) {
    var n := Run(s, path);
    && (x in t <==> x in s && x !in path[..n])
    && (x in t && x in s ==> t[x] == if n < |path| && x == path[n] then Less(s[x]) else s[x])
  }

  lemma {:induction false} ReleasedExact(s: Store, path: seq<Id>, x: Id)
    requires Chain(s, path)
    ensures ReleasedAt(s, Released(s, Head(path)), path, x)
    decreases |path|
  {
    if path != [] {
      DropHead(s, path);
      if s[path[0]].ref == 1 {
        ReleasedExact(s - {path[0]}, path[1..], x);
        RunStep(path, Run(s, path), x);
      }
    }
  }

  lemma RunStep(path: seq<Id>, n: nat, x: Id)
    requires 0 < n <= |path|
    ensures x in path[..n] <==> x == path[0] || x in path[1..][..n - 1]
    ensures n < |path| ==> path[1..][n - 1] == path[n]
  {
    assert path[..n] == [path[0]] + path[1..][..n - 1];
  }

  // ----- releasing the rest of a chain

  /** Pbufs other than those of `path` are as they were. */
  predicate KeptAt(s: Store, t: Store, path: seq<Id>, x: Id) {
    x !in path ==> (x in s <==> x in t) && (x in s ==> x in t && t[x] == s[x])
  }

  ghost predicate KeptBut(s: Store, t: Store, path: seq<Id>) { forall x :: KeptAt(s, t, path, x) }

  predicate RestReleasedAt(s: Store, t: Store, path: seq<Id>, k: nat, x: Id)
    requires k <= |path|
  {
    x !in path[..k] ==> ReleasedAt(s, t, path[k..], x)
  }

  /** Of all pbufs but the first `k` of the path: the rest of the path was released, as far as nobody
      else names it, and nothing else has changed. */
  ghost predicate RestReleased(s: Store, t: Store, path: seq<Id>, k: nat)
    requires k <= |path|
  {
    forall x :: RestReleasedAt(s, t, path, k, x)
  }

  lemma NotInFront(path: seq<Id>, k: nat, i: nat)
    requires Distinct(path) && k <= i < |path|
    ensures path[i] !in path[..k]
  {
    forall j | 0 <= j < k ensures path[..k][j] != path[i] { assert Apart(path, j, i); }
  }

  lemma InFront(path: seq<Id>, k: nat, x: Id)
    requires Distinct(path) && k <= |path| && x in path[..k]
    ensures x !in path[k..]
  {
    forall j | 0 <= j < |path[k..]| ensures path[k..][j] != x { NotInFront(path, k, k + j); }
  }

  /** `u` differs from `s` in the first `k` pbufs only; there the cut was made. */
  lemma RestOf(s: Store, u: Store, path: seq<Id>, k: nat)
    requires Chain(s, path) && k <= |path| && KeptBut(s, u, path[..k])
    ensures Chain(u, path[k..]) && Run(u, path[k..]) == Run(s, path[k..])
  {
    var r := path[k..];
    ChainSuffix(s, path, k);
    forall i | 0 <= i < |r| ensures SameNext(s, u, r[i]) && SameRef(s, u, r[i]) {
      NotInFront(path, k, k + i);
      assert LinkAt(s, r, i) && KeptAt(s, u, path[..k], r[i]);
    }
    ChainSame(s, u, r);
    RunSame(s, u, r);
  }

  lemma FreeRest(s: Store, u: Store, path: seq<Id>, k: nat)
    requires Chain(s, path) && k <= |path| && KeptBut(s, u, path[..k])
    ensures var t := Released(u, Head(path[k..]));
            && RestReleased(s, t, path, k) && |u| - |t| == Run(s, path[k..])
            && forall x | x in path[..k] && x in u :: x in t && t[x] == u[x]
  {
    var t := Released(u, Head(path[k..]));
    RestOf(s, u, path, k);
    ReleaseCount(u, path[k..]);
    forall x ensures RestReleasedAt(s, t, path, k, x) {
      ReleasedExact(u, path[k..], x);
      assert KeptAt(s, u, path[..k], x);
    }
    forall x | x in path[..k] && x in u ensures x in t && t[x] == u[x] {
      ReleasedExact(u, path[k..], x);
      InFront(path, k, x);
    }
  }

  // ----- no cycles

  ghost predicate Acyclic(s: Store) { exists rank :: Ranked(s, rank) }

  /** No link but those there were. */
  predicate FewerLinks(s: Store, t: Store, x: Id) {
    x in t ==> x in s && (t[x].next == s[x].next || t[x].next.None?)
  }

  lemma AcyclicKept(s: Store, t: Store)
    requires forall x :: FewerLinks(s, t, x)
    ensures Acyclic(s) ==> Acyclic(t)
  {
    if Acyclic(s) {
      var rank :| Ranked(s, rank);
      forall y | y in t ensures Steps(t, rank, y) { assert FewerLinks(s, t, y) && Steps(s, rank, y); }
      assert Ranked(t, rank);
    }
  }

  lemma AcyclicReleased(s: Store, p: Option<Id>)
    ensures Acyclic(s) ==> Acyclic(Released(s, p))
  {
    forall x ensures FewerLinks(s, Released(s, p), x) {
      if x in Released(s, p) { ReleaseFrame(s, p, x); }
    }
    AcyclicKept(s, Released(s, p));
  }

  /** A chain leads downwards. */
  lemma {:induction false} BelowHead(s: Store, rank: Id -> nat, path: seq<Id>, i: nat)
    requires Chain(s, path) && Ranked(s, rank) && i < |path|
    ensures rank(path[i]) <= rank(path[0])
  {
    if i > 0 {
      BelowHead(s, rank, path, i - 1);
      assert LinkAt(s, path, i - 1) && Steps(s, rank, path[i - 1]);
    }
  }

  /** A link from outside a chain to its head closes no cycle. */
  lemma AcyclicJoined(s: Store, t: Store, y: Id, tp: seq<Id>)
    requires Chain(s, tp) && tp != [] && y !in tp
    requires forall x :: x in t ==> x in s && (t[x].next == s[x].next || (x == y && t[x].next == Some(tp[0])))
    ensures Acyclic(s) ==> Acyclic(t)
  {
    if Acyclic(s) {
      var rank :| Ranked(s, rank);
      var up := (x: Id) => if x in tp then rank(x) else rank(x) + rank(tp[0]) + 1;
      forall x | x in t ensures Steps(t, up, x) {
        assert Steps(s, rank, x);
        if t[x].next.Some? && t[x].next.value in tp {
          var i :| 0 <= i < |tp| && tp[i] == t[x].next.value;
          BelowHead(s, rank, tp, i);
        }
        if x in tp { Downwards(s, tp, x); }
      }
      assert Ranked(t, up);
    }
  }

  lemma Downwards(s: Store, tp: seq<Id>, x: Id)
    requires Chain(s, tp) && x in tp
    ensures x in s && (s[x].next.Some? ==> s[x].next.value in tp)
  {
    var i :| 0 <= i < |tp| && tp[i] == x;
    assert LinkAt(s, tp, i);
  }

  /** Without cycles every pbuf there is can be reached along links from one that somebody outside
      holds. */
  lemma NothingLeaks(s: Store, hs: multiset<Id>, x: Id) returns (path: seq<Id>)
    requires RefsOk(s, hs) && Acyclic(s) && x in s
    ensures path != [] && path[0] in hs && path[|path| - 1] == x
    ensures forall i | 0 <= i < |path| - 1 :: Follows(s, path, i)
  {
    var rank :| Ranked(s, rank);
    path := LedTo(s, hs, rank, x);
  }

  lemma EmptyAcyclic()
    ensures Acyclic(map[])
  {
    assert Ranked(map[], (x: Id) => 0);
  }
}
