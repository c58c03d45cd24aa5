/** Lists of objects that are named by their addresses, and the list macros of tcp_priv.h. */
module IdList {

  type Id = nat

  predicate Apart(s: seq<Id>, i: nat, j: nat)
    requires i < |s| && j < |s|
  {
    s[i] != s[j]
  }

  ghost predicate Distinct(s: seq<Id>) { forall i, j | 0 <= i < j < |s| :: Apart(s, i, j) }

  function Position(s: seq<Id>, p: Id): (k: nat)
    ensures k <= |s| && (forall i | 0 <= i < k :: s[i] != p) && (k < |s| ==> s[k] == p)
    ensures k < |s| <==> p in s
  {
    if s == [] || s[0] == p then 0 else 1 + Position(s[1..], p)
  }

  lemma {:induction false} PositionUnique(s: seq<Id>, p: Id, k: nat)
    requires k <= |s| && p !in s[..k] && (k < |s| ==> s[k] == p)
    ensures k == Position(s, p)
  {
    if k > 0 {
      assert s[0] == s[..k][0] && s[1..][..k - 1] == s[..k][1..];
      PositionUnique(s[1..], p, k - 1);
    }
  }

  /** What TCP_RMV leaves. */
  function Without(s: seq<Id>, p: Id): seq<Id> {
    var k := Position(s, p); if k < |s| then s[..k] + s[k + 1..] else s
  }

  lemma WithoutDistinct(s: seq<Id>, p: Id)
    requires Distinct(s)
    ensures Distinct(Without(s, p)) && p !in Without(s, p)
  {
    var k, r := Position(s, p), Without(s, p);
    if k < |s| {
      forall i, j | 0 <= i < j < |r| ensures Apart(r, i, j) {
        assert Apart(s, if i < k then i else i + 1, if j < k then j else j + 1);
      }
      forall i | 0 <= i < |r| ensures r[i] != p {
        assert if i < k then Apart(s, i, k) else Apart(s, k, i + 1);
      }
    }
  }

  lemma WithoutMembers(s: seq<Id>, p: Id, x: Id)
    requires x != p
    ensures x in Without(s, p) <==> x in s
  {
    var k, r := Position(s, p), Without(s, p);
    if x in s && k < |s| {
      var i :| 0 <= i < |s| && s[i] == x;
      assert r[if i < k then i else i - 1] == x;
    }
  }

  lemma PushDistinct(s: seq<Id>, p: Id)
    requires Distinct(s) && p !in s
    ensures Distinct([p] + s)
  {
    var r := [p] + s;
    forall i, j | 0 <= i < j < |r| ensures Apart(r, i, j) {
      assert r[j] == s[j - 1] && (i > 0 ==> Apart(s, i - 1, j - 1));
    }
  }

  /** The search loop of TCP_RMV. */
  method Rmv(s: seq<Id>, p: Id) returns (r: seq<Id>)
    ensures r == Without(s, p)
    ensures p !in s ==> r == s
    ensures forall i | 0 <= i < |s| && s[i] == p && p !in s[..i] :: r == s[..i] + s[i + 1..]
  {
    var k := 0;
    while k < |s| && s[k] != p
      invariant k <= |s| && p !in s[..k]
    {
      k := k + 1;
    }
    PositionUnique(s, p, k);
    forall i | 0 <= i < |s| && s[i] == p && p !in s[..i] ensures i == k { PositionUnique(s, p, i); }
    r := if k < |s| then s[..k] + s[k + 1..] else s;
  }
}
