/** memp.c: a pool of equal elements chained into a free list, and the cycle check that
    memp_free runs over it.

    Elements are numbered; -1 stands for NULL. */
module MempPool {
  import opened Basics

  const NULL: int := -1

  /** Every link points to an element or is NULL. */
  predicate Graph(next: seq<int>) {
    forall k | 0 <= k < |next| :: NULL <= next[k] < |next|
  }

  /** The element reached from `from` by following `n` links, NULL once the list has ended. */
  function Walk(next: seq<int>, from: int, n: nat): (w: int)
    requires Graph(next) && NULL <= from < |next|
    ensures NULL <= w < |next|
  {
    if n == 0 then from
    else var w := Walk(next, from, n - 1); if w == NULL then NULL else next[w]
  }

  /** Following links from `from` comes back to an element it has already passed. */
  ghost predicate Cyclic(next: seq<int>, from: int)
    requires Graph(next) && NULL <= from < |next|
  {
    exists i: nat, j: nat | i < j :: Walk(next, from, i) == Walk(next, from, j) != NULL
  }

  ghost predicate Ends(next: seq<int>, from: int)
    requires Graph(next) && NULL <= from < |next|
  {
    exists n: nat :: Walk(next, from, n) == NULL
  }

  lemma {:induction false} EndStays(next: seq<int>, from: int, m: nat, n: nat)
    requires Graph(next) && NULL <= from < |next| && m <= n && Walk(next, from, m) == NULL
    ensures Walk(next, from, n) == NULL
    decreases n
  {
    if m < n { EndStays(next, from, m, n - 1); }
  }

  /** Once two positions agree, all later ones repeat with that period. */
  lemma {:induction false} Shifted(next: seq<int>, from: int, i: nat, j: nat, k: nat)
    requires Graph(next) && NULL <= from < |next| && Walk(next, from, i) == Walk(next, from, j)
    ensures Walk(next, from, i + k) == Walk(next, from, j + k)
    decreases k
  {
    if k > 0 { Shifted(next, from, i, j, k - 1); }
  }

  lemma {:induction false} Periodic(next: seq<int>, from: int, i: nat, p: nat, k: nat, laps: nat)
    requires Graph(next) && NULL <= from < |next| && i <= k && Walk(next, from, i) == Walk(next, from, i + p)
    ensures Walk(next, from, k) == Walk(next, from, k + laps * p)
    decreases laps
  {
    if laps > 0 {
      Periodic(next, from, i, p, k, laps - 1);
      OneMoreLap(laps, p);
      Shifted(next, from, i, i + p, k + (laps - 1) * p - i);
    }
  }

  lemma OneMoreLap(laps: nat, p: nat)
    requires laps > 0
    ensures (laps - 1) * p >= 0 && (laps - 1) * p + p == laps * p
  {
  }

  lemma AtLeastLaps(n: nat, p: nat)
    requires p >= 1
    ensures n * p >= n
  {
  }

  /** In a list that ends, only NULL is met twice. */
  lemma RepeatsOnlyNull(next: seq<int>, from: int, n: nat, i: nat, j: nat)
    requires Graph(next) && NULL <= from < |next| && Walk(next, from, n) == NULL
    requires i < j && Walk(next, from, i) == Walk(next, from, j)
    ensures Walk(next, from, i) == NULL
  {
    Periodic(next, from, i, j - i, i, n);
    AtLeastLaps(n, j - i);
    EndStays(next, from, n, i + n * (j - i));
  }

  /** A list either ends or runs into a cycle, never both. */
  lemma EndsIffAcyclic(next: seq<int>, from: int)
    requires Graph(next) && NULL <= from < |next|
    ensures Ends(next, from) <==> !Cyclic(next, from)
  {
    if Ends(next, from) {
      var n: nat :| Walk(next, from, n) == NULL;
      forall i: nat, j: nat | i < j && Walk(next, from, i) == Walk(next, from, j)
        ensures Walk(next, from, i) == NULL
      {
        RepeatsOnlyNull(next, from, n, i, j);
      }
    } else {
      var i, j := Repeats(next, from);
    }
  }

  /** Among the first |next| + 1 elements of a list that does not end, two are the same. */
  lemma Repeats(next: seq<int>, from: int) returns (i: nat, j: nat)
    requires Graph(next) && NULL <= from < |next| && !Ends(next, from)
    ensures i < j && Walk(next, from, i) == Walk(next, from, j) != NULL
  {
    var seen: map<int, nat>, n: nat, left := map[], 0, Upto(|next|);
    while Walk(next, from, n) !in seen
      invariant forall x | x in seen :: seen[x] < n && Walk(next, from, seen[x]) == x
      invariant forall x | 0 <= x < |next| :: x in left || x in seen
      decreases left
    {
      assert Walk(next, from, n) != NULL;
      seen := seen[Walk(next, from, n) := n];
      left := left - {Walk(next, from, n)};
      n := n + 1;
    }
    assert Walk(next, from, n) != NULL;
    i, j := seen[Walk(next, from, n)], n;
  }

  /** Tortoise at step `k`, hare at step 2k + 1: in a list with a cycle of length `p` from
      position `i` on, they meet at the latest when k + 1 is p laps of i + 1. */
  lemma Meet(next: seq<int>, from: int, i: nat, j: nat) returns (k: nat)
    requires Graph(next) && NULL <= from < |next| && i < j && Walk(next, from, i) == Walk(next, from, j)
    ensures Walk(next, from, k) == Walk(next, from, 2 * k + 1)
  {
    AtLeastLaps(i + 1, j - i);
    k := (i + 1) * (j - i) - 1;
    Periodic(next, from, i, j - i, k, i + 1);
  }

  lemma WalkStep(next: seq<int>, from: int, k: nat)
    requires Graph(next) && NULL <= from < |next|
    ensures Walk(next, from, k + 1) == var w := Walk(next, from, k); if w == NULL then NULL else next[w]
  {
  }

  /** memp_sanity: Floyd's check. It stops on every finite graph, and returns 0 exactly for a
      list that runs into a cycle. */
  method MempSanity(next: seq<int>, tab: int) returns (r: int)
    requires Graph(next) && NULL <= tab < |next|
    ensures r == 0 || r == 1
    ensures r == 0 <==> Cyclic(next, tab)
  {
    ghost var limit := StopBound(next, tab);
    EndsIffAcyclic(next, tab);
    var t := tab;
    if t != NULL {
      var h := next[t];
      ghost var k: nat := 0;
      WalkStep(next, tab, 0);
      while t != NULL && h != NULL
        invariant t == Walk(next, tab, k) && h == Walk(next, tab, 2 * k + 1)
        invariant k <= limit
        decreases limit - k
      {
        if t == h { return 0; }
        WalkStep(next, tab, k);
        WalkStep(next, tab, 2 * k + 1);
        WalkStep(next, tab, 2 * k + 2);
        t := next[t];
        h := if next[h] != NULL then next[next[h]] else NULL;
        k := k + 1;
      }
    }
    return 1;
  }

  /** A step by which the check must have stopped. */
  lemma StopBound(next: seq<int>, from: int) returns (k: nat)
    requires Graph(next) && NULL <= from < |next|
    ensures Walk(next, from, k) == NULL || Walk(next, from, k) == Walk(next, from, 2 * k + 1)
  {
    if Ends(next, from) {
      k :| Walk(next, from, k) == NULL;
    } else {
      var i, j := Repeats(next, from);
      k := Meet(next, from, i, j);
    }
  }

  // ----- the pool

  /** `free` lists the elements that the links enumerate from `tab`. */
  ghost predicate Lists(next: seq<int>, tab: int, free: seq<int>) {
    && (forall k | 0 <= k < |free| :: 0 <= free[k] < |next|)
    && (forall j, k | 0 <= j < k < |free| :: free[j] != free[k])
    && tab == (if free == [] then NULL else free[0])
    && (forall k | 0 <= k < |free| :: Linked(next, free, k))
  }

  predicate Linked(next: seq<int>, free: seq<int>, k: nat)
    requires k < |free|
  {
    0 <= free[k] < |next| && next[free[k]] == if k + 1 < |free| then free[k + 1] else NULL
  }

  lemma {:induction false} WalkLists(next: seq<int>, tab: int, free: seq<int>, n: nat)
    requires Graph(next) && NULL <= tab < |next| && Lists(next, tab, free)
    ensures Walk(next, tab, n) == if n < |free| then free[n] else NULL
  {
    if n > 0 {
      WalkLists(next, tab, free, n - 1);
      if n - 1 < |free| { assert Linked(next, free, n - 1); }
    }
  }

  /** A proper free list ends. */
  lemma ListsAcyclic(next: seq<int>, tab: int, free: seq<int>)
    requires Graph(next) && NULL <= tab < |next| && Lists(next, tab, free)
    ensures !Cyclic(next, tab)
  {
    WalkLists(next, tab, free, |free|);
    EndsIffAcyclic(next, tab);
  }

  /** Pushing an element that is already on the list closes a cycle through it. */
  lemma DoubleFreeCycle(next: seq<int>, tab: int, free: seq<int>, j: nat)
    requires Graph(next) && NULL <= tab < |next| && Lists(next, tab, free) && j < |free|
    ensures var next' := next[free[j] := tab]; Graph(next') && Cyclic(next', free[j])
  {
    var x := free[j];
    var next' := next[x := tab];
    DoubleFreeWalk(next, tab, free, j, j);
    assert Walk(next', x, 0) == x == Walk(next', x, j + 1);
  }

  lemma {:induction false} DoubleFreeWalk(next: seq<int>, tab: int, free: seq<int>, j: nat, n: nat)
    requires Graph(next) && NULL <= tab < |next| && Lists(next, tab, free) && n <= j < |free|
    ensures var next' := next[free[j] := tab]; Graph(next') && Walk(next', free[j], n + 1) == free[n]
  {
    var next' := next[free[j] := tab];
    if n == 0 {
      WalkStep(next', free[j], 0);
    } else {
      DoubleFreeWalk(next, tab, free, j, n - 1);
      assert Linked(next, free, n - 1) && free[n - 1] != free[j];
      WalkStep(next', free[j], n);
    }
  }

  lemma PushLists(next: seq<int>, tab: int, free: seq<int>, x: int)
    requires Graph(next) && NULL <= tab < |next| && Lists(next, tab, free) && 0 <= x < |next| && x !in free
    ensures Graph(next[x := tab]) && Lists(next[x := tab], x, [x] + free)
  {
    var f, next' := [x] + free, next[x := tab];
    forall k | 0 <= k < |f| ensures Linked(next', f, k) {
      if k > 0 { assert Linked(next, free, k - 1); }
    }
  }

  lemma PopLists(next: seq<int>, tab: int, free: seq<int>)
    requires Graph(next) && 0 <= tab < |next| && Lists(next, tab, free)
    ensures free != [] && tab == free[0] && tab !in free[1..] && Lists(next, next[tab], free[1..])
  {
    assert Linked(next, free, 0);
    var rest := free[1..];
    forall k | 0 <= k < |rest| ensures Linked(next, rest, k) {
      assert Linked(next, free, k + 1);
    }
  }

  class Pool {
    const num: nat
    const next: array<int>
    var tab: int
    ghost var free: seq<int>

    ghost predicate Valid()
      reads this, next
    {
      next.Length == num && Graph(next[..]) && NULL <= tab < num && Lists(next[..], tab, free)
    }

    /** memp_init_pool: chain all elements, the last one first. */
    constructor (num: nat)
      ensures Valid() && this.num == num && fresh(next)
      ensures |free| == num && forall k | 0 <= k < num :: free[k] == num - 1 - k
    {
      this.num := num;
      next := new int[num](i => NULL);
      tab := NULL;
      free := [];
      new;
      var i := 0;
      while i < num
        invariant 0 <= i <= num
        invariant Valid() && |free| == i && forall k | 0 <= k < i :: free[k] == i - 1 - k
      {
        PushLists(next[..], tab, free, i);
        ghost var after := next[..][i := tab];
        next[i] := tab;
        assert next[..] == after;
        tab := i;
        free := [i] + free;
        i := i + 1;
      }
    }

    /** do_memp_malloc_pool. */
    method Malloc() returns (x: int)
      requires Valid()
      modifies this
      ensures Valid() && next[..] == old(next[..])
      ensures if old(free) == [] then x == NULL && free == [] && tab == old(tab)
              else 0 <= x < num && old(free) == [x] + free && x !in free
    {
      x := tab;
      if x != NULL {
        PopLists(next[..], tab, free);
        assert Linked(next[..], free, 0);
        tab := next[x];
        free := free[1..];
      }
    }

    /** do_memp_free_pool with the assertion on memp_sanity: it passes exactly when the
        element was not on the free list already, and then the list has grown by it. */
    method Free(x: int) returns (sane: int)
      requires Valid() && 0 <= x < num
      modifies this, next
      ensures next[..] == old(next[..])[x := old(tab)] && tab == x
      ensures sane == if x in old(free) then 0 else 1
      ensures sane == 1 ==> Valid() && free == [x] + old(free)
    {
      ghost var links, list := next[..], free;
      if x in free {
        ghost var j :| 0 <= j < |list| && list[j] == x;
        DoubleFreeCycle(links, tab, list, j);
      } else {
        PushLists(links, tab, list, x);
        ListsAcyclic(links[x := tab], x, [x] + list);
      }
      next[x] := tab;
      assert next[..] == links[x := tab];
      tab := x;
      free := [x] + list;
      sane := MempSanity(next[..], tab);
    }
  }
}
