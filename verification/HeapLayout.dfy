/** The heap of mem.c seen as a list of blocks, without the bytes that encode it.

    A block is named by the index of its `struct mem` header. It runs up to the header of
    the next block, or up to the end marker at `size`. The functions here say what
    mem_malloc, mem_free and mem_trim do to that list; module HeapRam proves that the
    pointer code over the byte array computes exactly these functions. */
module HeapLayout {
  import opened Basics

  const ALIGN: nat := 8          // MEM_ALIGNMENT
  const HDR: nat := 16           // SIZEOF_STRUCT_MEM: two 32-bit links and a flag, aligned
  const MIN_DATA: nat := 16      // MIN_SIZE_ALIGNED
  const MAX_HEAP: nat := 0xFFFF_FF00

  /** A C pointer, as an offset from ram; offsets outside the heap are foreign memory. */
  datatype Ptr = Null | At(off: int)

  datatype Block = Block(addr: nat, used: bool)

  /** MEM_SIZE_ALIGNED: a multiple of the alignment with room for one block, small enough
      that no index computed from it overflows a 32-bit mem_size_t. */
  predicate HeapSize(size: nat) {
    size % ALIGN == 0 && HDR + MIN_DATA <= size <= MAX_HEAP
  }

  /** Index of the header of block `k`; the end marker's index past the last block. */
  function AddrAt(bs: seq<Block>, k: nat, size: nat): nat {
    if k < |bs| then bs[k].addr else size
  }

  /** Bytes of data that block `k` holds. */
  function Capacity(bs: seq<Block>, k: nat, size: nat): int
    requires k < |bs|
  {
    AddrAt(bs, k + 1, size) - bs[k].addr - HDR
  }

  predicate Placed(bs: seq<Block>, k: nat, size: nat)
    requires k < |bs|
  {
    bs[k].addr % ALIGN == 0 && bs[k].addr + HDR + MIN_DATA <= size
  }

  predicate Before(bs: seq<Block>, j: nat, k: nat)
    requires j < |bs| && k < |bs|
  {
    bs[j].addr + HDR + MIN_DATA <= bs[k].addr
  }

  /** The blocks tile the heap from index 0, in increasing aligned order, each with room
      for a header and the minimum data. */
  ghost predicate Tiled(bs: seq<Block>, size: nat) {
    && HeapSize(size)
    && |bs| > 0
    && bs[0].addr == 0
    && (forall k | 0 <= k < |bs| :: Placed(bs, k, size))
    && (forall j, k | 0 <= j < k < |bs| :: Before(bs, j, k))
  }

  predicate BothFree(bs: seq<Block>, k: nat)
    requires k + 1 < |bs|
  {
    !bs[k].used && !bs[k + 1].used
  }

  /** No two neighbours are both free. */
  ghost predicate Coalesced(bs: seq<Block>) {
    forall k | 0 <= k < |bs| - 1 :: !BothFree(bs, k)
  }

  ghost predicate WellFormed(bs: seq<Block>, size: nat) {
    Tiled(bs, size) && Coalesced(bs)
  }

  /** Position of the first free block at or after `from`, or |bs|. */
  function FirstFree(bs: seq<Block>, from: nat): (k: nat)
    requires from <= |bs|
    ensures from <= k <= |bs|
    ensures k < |bs| ==> !bs[k].used
    ensures forall j | from <= j < k :: bs[j].used
    decreases |bs| - from
  {
    if from == |bs| || !bs[from].used then from else FirstFree(bs, from + 1)
  }

  /** The two clauses of its contract determine the first free block. */
  lemma FirstFreeUnique(bs: seq<Block>, k: nat)
    requires k <= |bs| && (k < |bs| ==> !bs[k].used) && forall j | 0 <= j < k :: bs[j].used
    ensures FirstFree(bs, 0) == k
  {
  }

  predicate Fits(bs: seq<Block>, k: nat, size: nat, need: nat)
    requires k < |bs|
  {
    !bs[k].used && Capacity(bs, k, size) >= need
  }

  /** Position of the lowest-addressed free block that holds `need` bytes, or |bs|. */
  function FirstFit(bs: seq<Block>, size: nat, need: nat, from: nat): (k: nat)
    requires from <= |bs|
    ensures from <= k <= |bs|
    ensures k < |bs| ==> Fits(bs, k, size, need)
    ensures forall j | from <= j < k :: !Fits(bs, j, size, need)
    decreases |bs| - from
  {
    if from == |bs| || Fits(bs, from, size, need) then from else FirstFit(bs, size, need, from + 1)
  }

  lemma FirstFitUnique(bs: seq<Block>, size: nat, need: nat, k: nat)
    requires k <= |bs| && (k < |bs| ==> Fits(bs, k, size, need)) && forall j | 0 <= j < k :: !Fits(bs, j, size, need)
    ensures FirstFit(bs, size, need, 0) == k
  {
  }

  /** LWIP_MEM_ALIGN_SIZE in 32-bit arithmetic, which wraps for the last few sizes. */
  function AlignUp(n: nat): (r: nat)
    requires n < TWO32
    ensures r % ALIGN == 0
    ensures n <= TWO32 - ALIGN ==> n <= r < n + ALIGN
    ensures n > TWO32 - ALIGN ==> r == 0
  {
    ((n + ALIGN - 1) % TWO32) / ALIGN * ALIGN
  }

  /** The data size actually reserved for a request of `n` bytes. */
  function Rounded(n: nat): nat
    requires n < TWO32
  {
    if AlignUp(n) < MIN_DATA then MIN_DATA else AlignUp(n)
  }

  /** Requests mem_malloc and mem_trim refuse before looking at the heap. */
  predicate Refused(n: nat, size: nat)
    requires n < TWO32
  {
    Rounded(n) > size || Rounded(n) < n
  }

  // ----- the three operations on the block list

  /** Can block `k` keep `need` bytes and still leave a block of the minimum size? */
  predicate Splits(bs: seq<Block>, k: nat, size: nat, need: nat)
    requires k < |bs|
  {
    Capacity(bs, k, size) >= need + HDR + MIN_DATA
  }

  /** Cut block `k` after `need` data bytes; the part cut off becomes a free block. */
  function Cut(bs: seq<Block>, k: nat, need: nat): seq<Block>
    requires k < |bs|
  {
    bs[..k + 1] + [Block(bs[k].addr + HDR + need, false)] + bs[k + 1..]
  }

  function Split(bs: seq<Block>, k: nat, need: nat): seq<Block>
    requires k < |bs|
  {
    Cut(bs, k, need)[k := Block(bs[k].addr, true)]
  }

  /** Hand out block `k` for `need` bytes. */
  function Take(bs: seq<Block>, k: nat, size: nat, need: nat): seq<Block>
    requires k < |bs|
  {
    if Splits(bs, k, size, need) then Split(bs, k, need) else bs[k := Block(bs[k].addr, true)]
  }

  /** Drop the header of block `k`, so that its bytes join the block before it. */
  function Merge(bs: seq<Block>, k: nat): seq<Block>
    requires 0 < k < |bs|
  {
    bs[..k] + bs[k + 1..]
  }

  function PlugForward(bs: seq<Block>, k: nat): seq<Block>
    requires k < |bs|
  {
    if k + 1 < |bs| && !bs[k + 1].used then Merge(bs, k + 1) else bs
  }

  function PlugBackward(bs: seq<Block>, k: nat): seq<Block>
    requires k < |bs|
  {
    if k > 0 && !bs[k - 1].used then Merge(bs, k) else bs
  }

  /** Free block `k` and join it with its free neighbours. */
  function Release(bs: seq<Block>, k: nat): seq<Block>
    requires k < |bs|
  {
    PlugBackward(PlugForward(bs[k := Block(bs[k].addr, false)], k), k)
  }

  /** Shrink used block `k` to `need` data bytes: move a free successor down, or cut off a
      new free block, or leave the block alone when the rest is too small for a header. */
  function Shrink(bs: seq<Block>, k: nat, size: nat, need: nat): seq<Block>
    requires k < |bs|
  {
    if need >= Capacity(bs, k, size) then bs
    else if k + 1 < |bs| && !bs[k + 1].used then bs[k + 1 := Block(bs[k].addr + HDR + need, false)]
    else if Splits(bs, k, size, need) then Split(bs, k, need)
    else bs
  }

  // ----- what each operation keeps

  lemma RetagTiled(bs: seq<Block>, k: nat, size: nat, used: bool)
    requires Tiled(bs, size) && k < |bs|
    ensures Tiled(bs[k := Block(bs[k].addr, used)], size)
  {
    var r := bs[k := Block(bs[k].addr, used)];
    forall j | 0 <= j < |r| ensures Placed(r, j, size) { assert Placed(bs, j, size); }
    forall i, j | 0 <= i < j < |r| ensures Before(r, i, j) { assert Before(bs, i, j); }
  }

  lemma CutTiled(bs: seq<Block>, k: nat, size: nat, need: nat)
    requires Tiled(bs, size) && k < |bs|
    requires need % ALIGN == 0 && need >= MIN_DATA && Splits(bs, k, size, need)
    ensures Tiled(Cut(bs, k, need), size)
  {
    var r := Cut(bs, k, need);
    var cut := bs[k].addr + HDR + need;
    var next := AddrAt(bs, k + 1, size);
    assert Placed(bs, k, size) && (k + 1 < |bs| ==> Placed(bs, k + 1, size));
    assert cut % ALIGN == 0 && cut + HDR + MIN_DATA <= next <= size;
    forall j | 0 <= j < |r| ensures Placed(r, j, size) {
      if j != k + 1 { assert Placed(bs, if j <= k then j else j - 1, size); }
    }
    forall i, j | 0 <= i < j < |r| ensures Before(r, i, j) {
      if i == k + 1 {
        assert j - 1 == k + 1 || Before(bs, k + 1, j - 1);
      } else if j == k + 1 {
        assert i == k || Before(bs, i, k);
      } else {
        assert Before(bs, if i <= k then i else i - 1, if j <= k then j else j - 1);
      }
    }
  }

  lemma SplitWellFormed(bs: seq<Block>, k: nat, size: nat, need: nat)
    requires WellFormed(bs, size) && k < |bs|
    requires need % ALIGN == 0 && need >= MIN_DATA && Splits(bs, k, size, need)
    requires k + 1 < |bs| ==> bs[k + 1].used
    ensures WellFormed(Split(bs, k, need), size)
  {
    CutTiled(bs, k, size, need);
    RetagTiled(Cut(bs, k, need), k, size, true);
    var r := Split(bs, k, need);
    forall j | 0 <= j < |r| - 1 ensures !BothFree(r, j) {
      if j < k - 1 { assert !BothFree(bs, j); }
      if j > k + 1 { assert !BothFree(bs, j - 1); }
    }
  }

  lemma TakeWellFormed(bs: seq<Block>, k: nat, size: nat, need: nat)
    requires WellFormed(bs, size) && k < |bs|
    requires need % ALIGN == 0 && need >= MIN_DATA && Fits(bs, k, size, need)
    ensures WellFormed(Take(bs, k, size, need), size)
  {
    if Splits(bs, k, size, need) {
      assert k + 1 < |bs| ==> !BothFree(bs, k);
      SplitWellFormed(bs, k, size, need);
    } else {
      RetagTiled(bs, k, size, true);
      var r := Take(bs, k, size, need);
      forall j | 0 <= j < |r| - 1 ensures !BothFree(r, j) { assert !BothFree(bs, j); }
    }
  }

  lemma MergeTiled(bs: seq<Block>, k: nat, size: nat)
    requires Tiled(bs, size) && 0 < k < |bs|
    ensures Tiled(Merge(bs, k), size)
  {
    var r := Merge(bs, k);
    forall j | 0 <= j < |r| ensures Placed(r, j, size) {
      assert Placed(bs, if j < k then j else j + 1, size);
    }
    forall i, j | 0 <= i < j < |r| ensures Before(r, i, j) {
      assert Before(bs, if i < k then i else i + 1, if j < k then j else j + 1);
    }
  }

  /** Every free pair of neighbours involves position `k`. */
  ghost predicate CoalescedAround(bs: seq<Block>, k: nat) {
    forall j | 0 <= j < |bs| - 1 && j != k && j + 1 != k :: !BothFree(bs, j)
  }

  lemma PlugForwardCoalesces(bs: seq<Block>, k: nat, size: nat)
    requires Tiled(bs, size) && k < |bs| && !bs[k].used && CoalescedAround(bs, k)
    ensures var r := PlugForward(bs, k);
            && Tiled(r, size) && CoalescedAround(r, k)
            && k < |r| && r[..k + 1] == bs[..k + 1]
            && (k + 1 < |r| ==> r[k + 1].used)
  {
    var r := PlugForward(bs, k);
    if k + 1 < |bs| && !bs[k + 1].used {
      MergeTiled(bs, k + 1, size);
      forall j | 0 <= j < |r| - 1 && j != k && j + 1 != k ensures !BothFree(r, j) {
        assert !BothFree(bs, if j < k then j else j + 1);
      }
      if k + 2 < |bs| { assert !BothFree(bs, k + 1); }
    }
  }

  lemma PlugBackwardCoalesces(bs: seq<Block>, k: nat, size: nat)
    requires Tiled(bs, size) && k < |bs| && !bs[k].used && CoalescedAround(bs, k)
    requires k + 1 < |bs| ==> bs[k + 1].used
    ensures WellFormed(PlugBackward(bs, k), size)
  {
    var r := PlugBackward(bs, k);
    if k > 0 && !bs[k - 1].used {
      MergeTiled(bs, k, size);
      forall j | 0 <= j < |r| - 1 ensures !BothFree(r, j) {
        if j < k - 1 { assert !BothFree(bs, j); }
        if j > k - 1 { assert !BothFree(bs, j + 1); }
      }
    } else {
      forall j | 0 <= j < |r| - 1 ensures !BothFree(r, j) {
        if j != k && j + 1 != k { assert !BothFree(bs, j); }
      }
    }
  }

  lemma ReleaseWellFormed(bs: seq<Block>, k: nat, size: nat)
    requires WellFormed(bs, size) && k < |bs|
    ensures WellFormed(Release(bs, k), size)
  {
    var b1 := bs[k := Block(bs[k].addr, false)];
    RetagTiled(bs, k, size, false);
    assert CoalescedAround(b1, k) by {
      forall j | 0 <= j < |b1| - 1 && j != k && j + 1 != k ensures !BothFree(b1, j) {
        assert !BothFree(bs, j);
      }
    }
    PlugForwardCoalesces(b1, k, size);
    var b2 := PlugForward(b1, k);
    assert b2[k] == b2[..k + 1][k];
    PlugBackwardCoalesces(b2, k, size);
  }

  lemma MoveTiled(bs: seq<Block>, k: nat, size: nat, need: nat)
    requires Tiled(bs, size) && k + 1 < |bs|
    requires need % ALIGN == 0 && MIN_DATA <= need < Capacity(bs, k, size)
    ensures Tiled(bs[k + 1 := Block(bs[k].addr + HDR + need, false)], size)
  {
    var r := bs[k + 1 := Block(bs[k].addr + HDR + need, false)];
    assert Placed(bs, k, size);
    forall j | 0 <= j < |r| ensures Placed(r, j, size) { assert Placed(bs, j, size); }
    forall i, j | 0 <= i < j < |r| ensures Before(r, i, j) {
      assert Before(bs, i, j) && (i < k ==> Before(bs, i, k));
    }
  }

  lemma ShrinkWellFormed(bs: seq<Block>, k: nat, size: nat, need: nat)
    requires WellFormed(bs, size) && k < |bs| && bs[k].used
    requires need % ALIGN == 0 && need >= MIN_DATA
    ensures WellFormed(Shrink(bs, k, size, need), size)
  {
    var r := Shrink(bs, k, size, need);
    if need >= Capacity(bs, k, size) {
    } else if k + 1 < |bs| && !bs[k + 1].used {
      MoveTiled(bs, k, size, need);
      forall j | 0 <= j < |r| - 1 ensures !BothFree(r, j) { assert !BothFree(bs, j); }
    } else if Splits(bs, k, size, need) {
      SplitWellFormed(bs, k, size, need);
    }
  }

  // ----- the heap as its user sees it: which pointers are live and what each one holds

  /** A pointer handed out by mem_malloc, as an index, and the bytes it may use. */
  datatype Alloc = Alloc(ptr: nat, len: int)

  function AllocAt(bs: seq<Block>, k: nat, size: nat): Alloc
    requires k < |bs|
  {
    Alloc(bs[k].addr + HDR, Capacity(bs, k, size))
  }

  /** The live allocations, one per used block. */
  ghost function Live(bs: seq<Block>, size: nat): set<Alloc> {
    set k | 0 <= k < |bs| && bs[k].used :: AllocAt(bs, k, size)
  }

  ghost function IndexOf(bs: seq<Block>, size: nat, x: Alloc): (k: nat)
    requires x in Live(bs, size)
    ensures k < |bs| && bs[k].used && AllocAt(bs, k, size) == x
  {
    var k :| 0 <= k < |bs| && bs[k].used && AllocAt(bs, k, size) == x; k
  }

  /** Live allocations never share a byte, nor a byte of a header, are aligned and lie
      inside the heap. */
  lemma LiveDisjoint(bs: seq<Block>, size: nat, a: Alloc, b: Alloc)
    requires Tiled(bs, size) && a in Live(bs, size) && b in Live(bs, size) && a != b
    ensures a.ptr + a.len <= b.ptr - HDR || b.ptr + b.len <= a.ptr - HDR
    ensures a.ptr % ALIGN == 0 && HDR <= a.ptr && a.ptr + a.len <= size && a.len >= MIN_DATA
  {
    var j, k := IndexOf(bs, size, a), IndexOf(bs, size, b);
    assert Placed(bs, j, size) && Placed(bs, k, size);
    assert j + 1 < |bs| ==> Before(bs, j, j + 1) && Placed(bs, j + 1, size);
    if j < k {
      assert j + 1 == k || Before(bs, j + 1, k);
    } else {
      assert k + 1 == j || Before(bs, k + 1, j);
    }
  }

  /** Changing only the flag of block `k` adds or removes only its own allocation. */
  lemma FlagLive(bs: seq<Block>, k: nat, size: nat)
    requires k < |bs| && !bs[k].used
    requires Tiled(bs, size)
    ensures var r := bs[k := Block(bs[k].addr, true)];
            && Live(r, size) == Live(bs, size) + {AllocAt(bs, k, size)}
            && AllocAt(bs, k, size) !in Live(bs, size)
  {
    var r := bs[k := Block(bs[k].addr, true)];
    forall j | 0 <= j < |bs| ensures AllocAt(r, j, size) == AllocAt(bs, j, size) {}
    forall x | x in Live(bs, size) ensures x in Live(r, size) && x != AllocAt(bs, k, size) {
      var j := IndexOf(bs, size, x);
      assert r[j].used && AllocAt(r, j, size) == x;
      assert if j < k then Before(bs, j, k) else Before(bs, k, j);
    }
    forall x | x in Live(r, size) ensures x in Live(bs, size) + {AllocAt(bs, k, size)} {
      var j := IndexOf(r, size, x);
      assert AllocAt(bs, j, size) == x;
    }
    assert AllocAt(r, k, size) in Live(r, size);
  }

  lemma UnflagLive(bs: seq<Block>, k: nat, size: nat)
    requires Tiled(bs, size) && k < |bs| && bs[k].used
    ensures var b := bs[k := Block(bs[k].addr, false)];
            Tiled(b, size) && Live(b, size) == Live(bs, size) - {AllocAt(bs, k, size)}
  {
    var b := bs[k := Block(bs[k].addr, false)];
    RetagTiled(bs, k, size, false);
    FlagLive(b, k, size);
    assert b[k := Block(b[k].addr, true)] == bs;
    assert AllocAt(b, k, size) == AllocAt(bs, k, size);
  }

  /** Cutting a free block in two changes no allocation. */
  lemma CutLive(bs: seq<Block>, k: nat, size: nat, need: nat)
    requires k < |bs| && !bs[k].used
    ensures Live(Cut(bs, k, need), size) == Live(bs, size)
  {
    MergeLive(Cut(bs, k, need), k + 1, size);
    assert Merge(Cut(bs, k, need), k + 1) == bs;
  }

  lemma MergeAt(bs: seq<Block>, k: nat, size: nat, j: nat)
    requires 0 < k < |bs| && j < |bs| && j != k && j != k - 1
    ensures var j' := if j < k then j else j - 1;
            && j' < |Merge(bs, k)| && Merge(bs, k)[j'] == bs[j]
            && AllocAt(Merge(bs, k), j', size) == AllocAt(bs, j, size)
  {
  }

  lemma MergeLive(bs: seq<Block>, k: nat, size: nat)
    requires 0 < k < |bs| && !bs[k].used && !bs[k - 1].used
    ensures Live(Merge(bs, k), size) == Live(bs, size)
  {
    var r := Merge(bs, k);
    forall x | x in Live(bs, size) ensures x in Live(r, size) {
      MergeAt(bs, k, size, IndexOf(bs, size, x));
    }
    forall x | x in Live(r, size) ensures x in Live(bs, size) {
      var j := IndexOf(r, size, x);
      MergeAt(bs, k, size, if j < k then j else j + 1);
    }
  }

  /** mem_malloc adds one allocation, new and large enough. */
  lemma TakeLive(bs: seq<Block>, k: nat, size: nat, need: nat)
    requires Tiled(bs, size) && k < |bs| && Fits(bs, k, size, need)
    requires need % ALIGN == 0 && need >= MIN_DATA
    ensures var r := Take(bs, k, size, need); var x := AllocAt(r, k, size);
            && Live(r, size) == Live(bs, size) + {x} && x !in Live(bs, size)
            && x.ptr == bs[k].addr + HDR && x.len >= need
  {
    if Splits(bs, k, size, need) {
      CutTiled(bs, k, size, need);
      CutLive(bs, k, size, need);
      FlagLive(Cut(bs, k, need), k, size);
    } else {
      FlagLive(bs, k, size);
    }
  }

  /** mem_free takes away exactly the allocation it was given. */
  lemma ReleaseLive(bs: seq<Block>, k: nat, size: nat)
    requires Tiled(bs, size) && k < |bs| && bs[k].used
    ensures Live(Release(bs, k), size) == Live(bs, size) - {AllocAt(bs, k, size)}
  {
    var b1 := bs[k := Block(bs[k].addr, false)];
    UnflagLive(bs, k, size);
    if k + 1 < |b1| && !b1[k + 1].used { MergeLive(b1, k + 1, size); }
    var b2 := PlugForward(b1, k);
    assert k < |b2| && (forall j | 0 <= j <= k :: b2[j] == b1[j]);
    if k > 0 && !b2[k - 1].used { MergeLive(b2, k, size); }
  }

  /** mem_trim keeps the pointer and at least the bytes asked for, and changes no other
      allocation. */
  lemma ShrinkLive(bs: seq<Block>, k: nat, size: nat, need: nat)
    requires Tiled(bs, size) && k < |bs| && bs[k].used
    requires need % ALIGN == 0 && need >= MIN_DATA
    ensures var r := Shrink(bs, k, size, need); var x := AllocAt(bs, k, size);
            && k < |r| && r[k] == bs[k]
            && var x' := AllocAt(r, k, size);
            && (x'.len == x.len || need <= x'.len < x.len)
            && Live(r, size) == Live(bs, size) - {x} + {x'}
  {
    var r := Shrink(bs, k, size, need);
    if need >= Capacity(bs, k, size) {
      assert AllocAt(bs, k, size) in Live(bs, size);
    } else if k + 1 < |bs| && !bs[k + 1].used {
      // merge the free successor into the freed block, then cut at the new place
      ReslicedLive(bs, k, size, need);
    } else if Splits(bs, k, size, need) {
      var b1 := bs[k := Block(bs[k].addr, false)];
      UnflagLive(bs, k, size);
      assert Split(b1, k, need) == r && Take(b1, k, size, need) == r;
      TakeLive(b1, k, size, need);
    } else {
      assert AllocAt(bs, k, size) in Live(bs, size);
    }
  }

  lemma ReslicedLive(bs: seq<Block>, k: nat, size: nat, need: nat)
    requires Tiled(bs, size) && k + 1 < |bs| && bs[k].used && !bs[k + 1].used
    requires need % ALIGN == 0 && need >= MIN_DATA && need < Capacity(bs, k, size)
    ensures var r := Shrink(bs, k, size, need);
            Live(r, size) == Live(bs, size) - {AllocAt(bs, k, size)} + {AllocAt(r, k, size)}
  {
    var r := Shrink(bs, k, size, need);
    var b1 := bs[k := Block(bs[k].addr, false)];
    UnflagLive(bs, k, size);
    MergeLive(b1, k + 1, size);
    MergeTiled(b1, k + 1, size);
    var b2 := Merge(b1, k + 1);
    ResliceIsCut(bs, k, size, need);
    TakeLive(b2, k, size, need);
  }

  /** Moving a free successor down is joining it to the block and cutting elsewhere. */
  lemma ResliceIsCut(bs: seq<Block>, k: nat, size: nat, need: nat)
    requires Tiled(bs, size) && k + 1 < |bs| && bs[k].used && !bs[k + 1].used
    requires need < Capacity(bs, k, size)
    ensures var b := Merge(bs[k := Block(bs[k].addr, false)], k + 1);
            Splits(b, k, size, need) && Split(b, k, need) == Shrink(bs, k, size, need)
  {
    var b := Merge(bs[k := Block(bs[k].addr, false)], k + 1);
    assert Before(bs, k, k + 1) && Placed(bs, k + 1, size);
    assert k + 2 < |bs| ==> Before(bs, k + 1, k + 2);
    assert AddrAt(b, k + 1, size) == AddrAt(bs, k + 2, size);
    assert b[k + 1..] == bs[k + 2..];
  }

  // ----- whole runs

  /** What mem_init sets up: one free block over the whole heap. */
  const INITIAL: seq<Block> := [Block(0, false)]

  /** Position of the used block whose payload starts at `ptr`, or |bs|. */
  function Find(bs: seq<Block>, ptr: int, from: nat): (k: nat)
    requires from <= |bs|
    ensures from <= k <= |bs|
    ensures k < |bs| ==> bs[k].used && bs[k].addr + HDR == ptr
    ensures k == |bs| ==> forall j | from <= j < |bs| :: bs[j].used ==> bs[j].addr + HDR != ptr
    decreases |bs| - from
  {
    if from == |bs| || (bs[from].used && bs[from].addr + HDR == ptr) then from else Find(bs, ptr, from + 1)
  }

  datatype Op =
    | Malloc(n: nat)
    | Free(ptr: int)
    | Trim(ptr: int, n: nat)

  function Mallocked(bs: seq<Block>, size: nat, n: nat): seq<Block>
    requires n < TWO32
  {
    if n == 0 || Refused(n, size) then bs
    else
      var k := FirstFit(bs, size, Rounded(n), 0);
      if k == |bs| then bs else Take(bs, k, size, Rounded(n))
  }

  /** The pointer mem_malloc returns. */
  function MallocPtr(bs: seq<Block>, size: nat, n: nat): Ptr
    requires n < TWO32
  {
    if n == 0 || Refused(n, size) then Null
    else
      var k := FirstFit(bs, size, Rounded(n), 0);
      if k == |bs| then Null else At(bs[k].addr + HDR)
  }

  function Freed(bs: seq<Block>, ptr: int): seq<Block> {
    var k := Find(bs, ptr, 0);
    if k == |bs| then bs else Release(bs, k)
  }

  function Trimmed(bs: seq<Block>, size: nat, ptr: int, n: nat): seq<Block>
    requires n < TWO32
  {
    var k := Find(bs, ptr, 0);
    if Refused(n, size) || k == |bs| then bs else Shrink(bs, k, size, Rounded(n))
  }

  function Step(bs: seq<Block>, size: nat, op: Op): seq<Block> {
    match op
    case Malloc(n) => if n < TWO32 then Mallocked(bs, size, n) else bs
    case Free(ptr) => Freed(bs, ptr)
    case Trim(ptr, n) => if n < TWO32 then Trimmed(bs, size, ptr, n) else bs
  }

  function Run(bs: seq<Block>, size: nat, ops: seq<Op>): seq<Block>
    decreases |ops|
  {
    if ops == [] then bs else Run(Step(bs, size, ops[0]), size, ops[1..])
  }

  lemma StepWellFormed(bs: seq<Block>, size: nat, op: Op)
    requires WellFormed(bs, size)
    ensures WellFormed(Step(bs, size, op), size)
  {
    match op
    case Malloc(n) =>
      if n < TWO32 && n != 0 && !Refused(n, size) {
        var k := FirstFit(bs, size, Rounded(n), 0);
        if k < |bs| { TakeWellFormed(bs, k, size, Rounded(n)); }
      }
    case Free(ptr) =>
      var k := Find(bs, ptr, 0);
      if k < |bs| { ReleaseWellFormed(bs, k, size); }
    case Trim(ptr, n) =>
      var k := Find(bs, ptr, 0);
      if n < TWO32 && !Refused(n, size) && k < |bs| { ShrinkWellFormed(bs, k, size, Rounded(n)); }
  }

  /** After any run from mem_init the blocks tile the heap and no two neighbours are free. */
  lemma {:induction false} RunWellFormed(bs: seq<Block>, size: nat, ops: seq<Op>)
    requires WellFormed(bs, size)
    ensures WellFormed(Run(bs, size, ops), size)
    decreases |ops|
  {
    if ops != [] {
      StepWellFormed(bs, size, ops[0]);
      RunWellFormed(Step(bs, size, ops[0]), size, ops[1..]);
    }
  }

  lemma InitialWellFormed(size: nat)
    requires HeapSize(size)
    ensures WellFormed(INITIAL, size) && Live(INITIAL, size) == {}
  {
  }

  /** Once everything has been freed the heap is the single block of mem_init again. */
  lemma NothingLiveIsInitial(bs: seq<Block>, size: nat)
    requires WellFormed(bs, size)
    ensures Live(bs, size) == {} <==> bs == INITIAL
  {
    forall k | 0 <= k < |bs| && bs[k].used ensures AllocAt(bs, k, size) in Live(bs, size) {}
    assert |bs| > 1 ==> !BothFree(bs, 0);
  }

  lemma CapacityAligned(bs: seq<Block>, k: nat, size: nat)
    requires Tiled(bs, size) && k < |bs|
    ensures Capacity(bs, k, size) % ALIGN == 0 && MIN_DATA <= Capacity(bs, k, size) < size
  {
    assert Placed(bs, k, size);
    if k + 1 < |bs| { assert Before(bs, k, k + 1) && Placed(bs, k + 1, size); }
  }

  /** A non-empty request fails exactly when no free block has the bytes asked for: rounding
      the size up, refusing sizes that overflow and searching only the rounded size lose
      nothing. */
  lemma MallocFailsIffNoneFits(bs: seq<Block>, size: nat, n: nat)
    requires WellFormed(bs, size) && 0 < n < TWO32
    ensures (Refused(n, size) || FirstFit(bs, size, Rounded(n), 0) == |bs|) <==>
            (forall k | 0 <= k < |bs| :: !Fits(bs, k, size, n))
  {
    forall k | 0 <= k < |bs| ensures Fits(bs, k, size, n) <==> !Refused(n, size) && Fits(bs, k, size, Rounded(n)) {
      CapacityAligned(bs, k, size);
    }
  }

  // ----- the live allocations say everything about the layout

  /** Where block `i` of the one list begins, block `i` of the other does. */
  lemma SameStart(a: seq<Block>, b: seq<Block>, size: nat, i: nat)
    requires WellFormed(a, size) && WellFormed(b, size) && Live(a, size) == Live(b, size)
    requires 0 < i <= |a| && i <= |b| && a[i - 1] == b[i - 1]
    ensures AddrAt(a, i, size) == AddrAt(b, i, size)
  {
    if a[i - 1].used {
      assert AllocAt(a, i - 1, size) in Live(a, size);
      AtIndex(b, size, AllocAt(a, i - 1, size), i - 1);
    } else {
      NextIsUsed(a, b, size, i);
      NextIsUsed(b, a, size, i);
    }
  }

  /** Only one block has a given address. */
  lemma AtIndex(bs: seq<Block>, size: nat, x: Alloc, k: nat)
    requires Tiled(bs, size) && x in Live(bs, size) && k < |bs| && bs[k].addr + HDR == x.ptr
    ensures bs[k].used && AllocAt(bs, k, size) == x
  {
    var j := IndexOf(bs, size, x);
    assert (j < k ==> Before(bs, j, k)) && (k < j ==> Before(bs, k, j));
  }

  /** Behind a free block comes a used one, which the other list has as well, no earlier. */
  lemma NextIsUsed(a: seq<Block>, b: seq<Block>, size: nat, i: nat)
    requires WellFormed(a, size) && WellFormed(b, size) && Live(a, size) == Live(b, size)
    requires 0 < i <= |a| && i <= |b| && a[i - 1] == b[i - 1] && !a[i - 1].used
    ensures AddrAt(b, i, size) <= AddrAt(a, i, size)
  {
    if i < |a| {
      assert !BothFree(a, i - 1);
      assert AllocAt(a, i, size) in Live(b, size);
      var j := IndexOf(b, size, AllocAt(a, i, size));
      assert Before(a, i - 1, i) && (j < i - 1 ==> Before(b, j, i - 1)) && (i < j ==> Before(b, i, j));
    } else if i < |b| {
      assert !BothFree(b, i - 1);
      assert AllocAt(b, i, size) in Live(a, size);
      var j := IndexOf(a, size, AllocAt(b, i, size));
      assert Before(b, i - 1, i) && (j < i - 1 ==> Before(a, j, i - 1));
    }
  }

  lemma {:induction false} SameFront(a: seq<Block>, b: seq<Block>, size: nat, n: nat)
    requires WellFormed(a, size) && WellFormed(b, size) && Live(a, size) == Live(b, size)
    requires n <= |a| && n <= |b|
    ensures a[..n] == b[..n]
  {
    if n > 0 {
      var i := n - 1;
      SameFront(a, b, size, i);
      if i > 0 {
        assert a[i - 1] == a[..i][i - 1] == b[..i][i - 1] == b[i - 1];
        SameStart(a, b, size, i);
      }
      if a[i].used { AtIndex(b, size, AllocAt(a, i, size), i); }
      if b[i].used { AtIndex(a, size, AllocAt(b, i, size), i); }
      assert a[i] == b[i] && a[..n] == a[..i] + [a[i]] && b[..n] == b[..i] + [b[i]];
    }
  }

  lemma NoLonger(a: seq<Block>, b: seq<Block>, size: nat)
    requires WellFormed(a, size) && WellFormed(b, size) && Live(a, size) == Live(b, size)
    ensures |b| <= |a|
  {
    if |a| < |b| {
      SameFront(a, b, size, |a|);
      assert a[|a| - 1] == a[..|a|][|a| - 1] == b[..|a|][|a| - 1] == b[|a| - 1];
      assert Placed(b, |a|, size);
      SameStart(a, b, size, |a|);
    }
  }

  /** Two well-formed heaps with the same live allocations are the same: all that is not in use, and all
      headers, are where they must be. So what a call does to the live allocations is all it does. */
  lemma LiveDetermines(a: seq<Block>, b: seq<Block>, size: nat)
    requires WellFormed(a, size) && WellFormed(b, size)
    ensures Live(a, size) == Live(b, size) <==> a == b
  {
    if Live(a, size) == Live(b, size) {
      NoLonger(a, b, size);
      NoLonger(b, a, size);
      SameFront(a, b, size, |a|);
      assert a[..|a|] == a && b[..|b|] == b;
    }
  }

  // ----- the user's view of each call

  /** `m` is the least multiple of the alignment that holds `n` bytes and the minimum. */
  predicate Aligned(n: nat, m: nat) { m % ALIGN == 0 && m >= MIN_DATA && n <= m && (m < n + ALIGN || m == MIN_DATA) }

  lemma RoundedAligned(n: nat, size: nat)
    requires n < TWO32 && HeapSize(size) && !Refused(n, size)
    ensures Aligned(n, Rounded(n))
  {
  }

  lemma AlignedUnique(n: nat, m: nat, k: nat)
    requires Aligned(n, m) && Aligned(n, k)
    ensures m == k
  {
  }

  lemma AlignedFits(n: nat, m: nat, room: int)
    requires Aligned(n, m) && room % ALIGN == 0 && MIN_DATA <= room && n <= room
    ensures m <= room
  {
  }

  /** The free blocks, with their data areas. */
  ghost function Spare(bs: seq<Block>, size: nat): set<Alloc> {
    set k | 0 <= k < |bs| && !bs[k].used :: AllocAt(bs, k, size)
  }

  ghost predicate SomeSpare(bs: seq<Block>, size: nat, n: nat) { exists y :: y in Spare(bs, size) && y.len >= n }

  /** No free block of `n` bytes lies lower. */
  ghost predicate LowestSpare(bs: seq<Block>, size: nat, n: nat, y: Alloc) {
    y in Spare(bs, size) && y.len >= n && forall z | z in Spare(bs, size) && z.len >= n :: y.ptr <= z.ptr
  }

  /** What is handed out of the free block `y` for `n` bytes: the aligned size, if what is left can hold a
      header and the minimum, otherwise all. */
  ghost predicate Served(y: Alloc, n: nat, x: Alloc) { exists m: nat :: Aligned(n, m) && ServedAs(y, m, x) }

  predicate ServedAs(y: Alloc, m: nat, x: Alloc) {
    x.ptr == y.ptr && x.len == if y.len - m >= HDR + MIN_DATA then m else y.len
  }

  ghost function LeftOver(y: Alloc, x: Alloc): set<Alloc> {
    if 0 <= x.len < y.len then {Alloc(x.ptr + x.len + HDR, y.len - x.len - HDR)} else {}
  }

  /** mem_malloc of `n` bytes leads from `a` to `b` and returns `r`. */
  ghost predicate MallocDone(a: seq<Block>, b: seq<Block>, size: nat, n: nat, r: Ptr) {
    if n == 0 || !SomeSpare(a, size, n) then r == Null && b == a
    else exists x, y :: LowestSpare(a, size, n, y) && Served(y, n, x) && r == At(x.ptr) && Handed(a, b, size, x, y)
  }

  /** `x` is in use now, a part of `y`, which was free. */
  ghost predicate Handed(a: seq<Block>, b: seq<Block>, size: nat, x: Alloc, y: Alloc) {
    && x !in Live(a, size) && Live(b, size) == Live(a, size) + {x}
    && Spare(b, size) == Spare(a, size) - {y} + LeftOver(y, x)
  }

  lemma SpareFits(bs: seq<Block>, size: nat, n: nat)
    ensures SomeSpare(bs, size, n) <==> exists k | 0 <= k < |bs| :: Fits(bs, k, size, n)
  {
    if SomeSpare(bs, size, n) {
      var y :| y in Spare(bs, size) && y.len >= n;
      var k :| 0 <= k < |bs| && !bs[k].used && AllocAt(bs, k, size) == y;
      assert Fits(bs, k, size, n);
    }
    if k :| 0 <= k < |bs| && Fits(bs, k, size, n) { assert AllocAt(bs, k, size) in Spare(bs, size); }
  }

  /** The first fitting block is the lowest. */
  lemma FirstIsLowest(bs: seq<Block>, size: nat, n: nat, k: nat)
    requires Tiled(bs, size) && k < |bs| && Fits(bs, k, size, n) && forall j | 0 <= j < k :: !Fits(bs, j, size, n)
    ensures LowestSpare(bs, size, n, AllocAt(bs, k, size))
  {
    forall z | z in Spare(bs, size) && z.len >= n ensures AllocAt(bs, k, size).ptr <= z.ptr {
      var j :| 0 <= j < |bs| && !bs[j].used && AllocAt(bs, j, size) == z;
      assert Fits(bs, j, size, n) && (k < j ==> Before(bs, k, j));
    }
  }

  ghost function SpareIndex(bs: seq<Block>, size: nat, y: Alloc): (k: nat)
    requires y in Spare(bs, size)
    ensures k < |bs| && !bs[k].used && AllocAt(bs, k, size) == y
  {
    var k :| 0 <= k < |bs| && !bs[k].used && AllocAt(bs, k, size) == y; k
  }

  lemma TakeSpare(bs: seq<Block>, k: nat, size: nat, need: nat)
    requires Tiled(bs, size) && k < |bs| && Fits(bs, k, size, need) && need % ALIGN == 0 && need >= MIN_DATA
    ensures var r, y := Take(bs, k, size, need), AllocAt(bs, k, size);
            k < |r| && Spare(r, size) == Spare(bs, size) - {y} + LeftOver(y, AllocAt(r, k, size))
  {
    if Splits(bs, k, size, need) { SplitSpare(bs, k, size, need); } else { WholeSpare(bs, k, size); }
  }

  lemma WholeSpare(bs: seq<Block>, k: nat, size: nat)
    requires Tiled(bs, size) && k < |bs| && !bs[k].used
    ensures Spare(bs[k := Block(bs[k].addr, true)], size) == Spare(bs, size) - {AllocAt(bs, k, size)}
  {
    var r, y := bs[k := Block(bs[k].addr, true)], AllocAt(bs, k, size);
    forall j | 0 <= j < |bs| ensures AllocAt(r, j, size) == AllocAt(bs, j, size) {}
    forall z | z in Spare(bs, size) - {y} ensures z in Spare(r, size) {
      var j := SpareIndex(bs, size, z);
      assert !r[j].used && AllocAt(r, j, size) == z;
    }
    forall z | z in Spare(r, size) ensures z in Spare(bs, size) - {y} {
      var j := SpareIndex(r, size, z);
      assert j != k && AllocAt(bs, j, size) == z && if j < k then Before(bs, j, k) else Before(bs, k, j);
    }
  }

  lemma SplitSpare(bs: seq<Block>, k: nat, size: nat, need: nat)
    requires Tiled(bs, size) && k < |bs| && !bs[k].used && Splits(bs, k, size, need)
    ensures var r, y := Split(bs, k, need), AllocAt(bs, k, size);
            Spare(r, size) == Spare(bs, size) - {y} + LeftOver(y, AllocAt(r, k, size))
  {
    var r, y := Split(bs, k, need), AllocAt(bs, k, size);
    assert LeftOver(y, AllocAt(r, k, size)) == {AllocAt(r, k + 1, size)};
    forall z | z in Spare(bs, size) - {y} ensures z in Spare(r, size) {
      SplitAt(bs, k, size, need, SpareIndex(bs, size, z));
    }
    forall z | z in Spare(r, size) ensures z in Spare(bs, size) - {y} + {AllocAt(r, k + 1, size)} {
      var i := SpareIndex(r, size, z);
      if i != k + 1 { SplitAt(bs, k, size, need, if i < k then i else i - 1); }
    }
    assert !r[k + 1].used;
  }

  lemma SplitAt(bs: seq<Block>, k: nat, size: nat, need: nat, j: nat)
    requires Tiled(bs, size) && k < |bs| && j < |bs| && j != k
    ensures var r, i := Split(bs, k, need), if j < k then j else j + 1;
            i < |r| && r[i] == bs[j] && AllocAt(r, i, size) == AllocAt(bs, j, size) != AllocAt(bs, k, size)
  {
    assert if j < k then Before(bs, j, k) else Before(bs, k, j);
  }

  /** mem_malloc, in all cases: of the lowest free block that has the bytes asked for it hands out the
      aligned size, and leaves the rest free, if that can hold a block; it fails exactly if there is no
      such block, and then changes nothing. */
  lemma MallocLive(bs: seq<Block>, size: nat, n: nat)
    requires WellFormed(bs, size) && n < TWO32
    ensures MallocDone(bs, Step(bs, size, Malloc(n)), size, n, MallocPtr(bs, size, n))
  {
    if n > 0 {
      MallocFailsIffNoneFits(bs, size, n);
      SpareFits(bs, size, n);
      if SomeSpare(bs, size, n) { MallocServes(bs, size, n); }
    }
  }

  lemma MallocServes(bs: seq<Block>, size: nat, n: nat)
    requires WellFormed(bs, size) && 0 < n < TWO32 && SomeSpare(bs, size, n)
    requires !Refused(n, size) && FirstFit(bs, size, Rounded(n), 0) < |bs|
    ensures MallocDone(bs, Step(bs, size, Malloc(n)), size, n, MallocPtr(bs, size, n))
  {
    var k := FirstFit(bs, size, Rounded(n), 0);
    RoundedAligned(n, size);
    FitIsLowest(bs, size, n, k);
    TakeServes(bs, k, size, Rounded(n));
    var x, y := AllocAt(Take(bs, k, size, Rounded(n)), k, size), AllocAt(bs, k, size);
    assert Served(y, n, x);
  }

  lemma FitIsLowest(bs: seq<Block>, size: nat, n: nat, k: nat)
    requires Tiled(bs, size) && n < TWO32 && !Refused(n, size) && k < |bs| && k == FirstFit(bs, size, Rounded(n), 0)
    ensures LowestSpare(bs, size, n, AllocAt(bs, k, size))
  {
    RoundedAligned(n, size);
    forall j | 0 <= j < k ensures !Fits(bs, j, size, n) { RoundingFits(bs, size, n, j); }
    FirstIsLowest(bs, size, n, k);
  }

  /** As capacities are aligned, too, a block that has the bytes has the rounded number. */
  lemma RoundingFits(bs: seq<Block>, size: nat, n: nat, k: nat)
    requires Tiled(bs, size) && n < TWO32 && !Refused(n, size) && k < |bs|
    ensures Fits(bs, k, size, n) ==> Fits(bs, k, size, Rounded(n))
  {
    CapacityAligned(bs, k, size);
    RoundedAligned(n, size);
    if Fits(bs, k, size, n) { AlignedFits(n, Rounded(n), Capacity(bs, k, size)); }
  }

  lemma TakeServes(bs: seq<Block>, k: nat, size: nat, need: nat)
    requires Tiled(bs, size) && k < |bs| && Fits(bs, k, size, need) && need % ALIGN == 0 && need >= MIN_DATA
    ensures var r, y := Take(bs, k, size, need), AllocAt(bs, k, size);
            k < |r| && var x := AllocAt(r, k, size); ServedAs(y, need, x) && Handed(bs, r, size, x, y)
  {
    TakeLive(bs, k, size, need);
    TakeSpare(bs, k, size, need);
  }

  // ----- how many bytes are in use

  /** Data bytes in the used blocks, or in the free ones, from block `k` on. */
  function BytesFrom(bs: seq<Block>, size: nat, used: bool, k: nat): int
    decreases |bs| - k
  {
    if k >= |bs| then 0
    else (if bs[k].used == used then Capacity(bs, k, size) else 0) + BytesFrom(bs, size, used, k + 1)
  }

  function UsedBytes(bs: seq<Block>, size: nat): int { BytesFrom(bs, size, true, 0) }

  function SpareBytes(bs: seq<Block>, size: nat): int { BytesFrom(bs, size, false, 0) }

  /** Nothing is ever lost: used bytes, free bytes and headers make up the heap. */
  lemma BytesConserved(bs: seq<Block>, size: nat)
    requires Tiled(bs, size)
    ensures UsedBytes(bs, size) + SpareBytes(bs, size) + |bs| * HDR == size
  {
    BytesConservedFrom(bs, size, 0);
  }

  lemma {:induction false} BytesConservedFrom(bs: seq<Block>, size: nat, k: nat)
    requires k <= |bs|
    ensures BytesFrom(bs, size, true, k) + BytesFrom(bs, size, false, k) + (|bs| - k) * HDR
            == size - AddrAt(bs, k, size)
    decreases |bs| - k
  {
    if k < |bs| { BytesConservedFrom(bs, size, k + 1); }
  }

  lemma {:induction false} SameTail(a: seq<Block>, b: seq<Block>, size: nat, i: nat, j: nat)
    requires i <= |a| && j <= |b| && a[i..] == b[j..]
    ensures BytesFrom(a, size, true, i) == BytesFrom(b, size, true, j)
    decreases |a| - i
  {
    assert |a| - i == |a[i..]| == |b[j..]| == |b| - j;
    if i < |a| {
      assert a[i] == a[i..][0] == b[j..][0] == b[j] && a[i + 1..] == a[i..][1..] && b[j + 1..] == b[j..][1..];
      assert i + 1 < |a| ==> a[i + 1] == a[i..][1] == b[j..][1] == b[j + 1];
      SameTail(a, b, size, i + 1, j + 1);
    }
  }

  lemma {:induction false} SameHead(a: seq<Block>, b: seq<Block>, size: nat, k: nat, i: nat, d: int)
    requires i <= k < |a| && k < |b| && a[..k] == b[..k] && a[k].addr == b[k].addr
    requires BytesFrom(b, size, true, k) == BytesFrom(a, size, true, k) + d
    ensures BytesFrom(b, size, true, i) == BytesFrom(a, size, true, i) + d
    decreases k - i
  {
    if i < k {
      assert a[i] == a[..k][i] == b[..k][i] == b[i];
      assert i + 1 < k ==> a[i + 1] == a[..k][i + 1] == b[..k][i + 1] == b[i + 1];
      SameHead(a, b, size, k, i + 1, d);
    }
  }

  lemma TakeUsed(bs: seq<Block>, k: nat, size: nat, need: nat)
    requires k < |bs| && Fits(bs, k, size, need)
    ensures var r := Take(bs, k, size, need);
            k < |r| && UsedBytes(r, size) == UsedBytes(bs, size) + AllocAt(r, k, size).len
  {
    var r := Take(bs, k, size, need);
    if Splits(bs, k, size, need) {
      assert r[k + 2..] == bs[k + 1..];
      SameTail(bs, r, size, k + 1, k + 2);
      assert BytesFrom(r, size, true, k + 1) == BytesFrom(r, size, true, k + 2);
    } else {
      assert r[k + 1..] == bs[k + 1..];
      SameTail(bs, r, size, k + 1, k + 1);
    }
    assert r[..k] == bs[..k];
    SameHead(bs, r, size, k, 0, AllocAt(r, k, size).len);
  }

  /** So an allocation never has more than the aligned size and what no further block could use. */
  lemma MallocBounded(bs: seq<Block>, size: nat, n: nat, x: Alloc)
    requires WellFormed(bs, size) && n < TWO32
    requires x in Live(Step(bs, size, Malloc(n)), size) && x !in Live(bs, size)
    ensures n <= x.len < Max(n + ALIGN, MIN_DATA) + HDR + MIN_DATA
    ensures UsedBytes(Step(bs, size, Malloc(n)), size) == UsedBytes(bs, size) + x.len
  {
    var k := FirstFit(bs, size, Rounded(n), 0);
    RoundedAligned(n, size);
    TakeServes(bs, k, size, Rounded(n));
    TakeUsed(bs, k, size, Rounded(n));
  }

  lemma FreeLive(bs: seq<Block>, size: nat, x: Alloc)
    requires WellFormed(bs, size) && x in Live(bs, size)
    ensures Live(Step(bs, size, Free(x.ptr)), size) == Live(bs, size) - {x}
  {
    var j := IndexOf(bs, size, x);
    var k := Find(bs, x.ptr, 0);
    assert (j < k ==> Before(bs, j, k)) && (k < j ==> Before(bs, k, j));
    ReleaseLive(bs, k, size);
  }

  /** There is a free block right behind the allocation. */
  ghost predicate SpareBehind(bs: seq<Block>, size: nat, x: Alloc) {
    exists y :: y in Spare(bs, size) && y.ptr == x.ptr + x.len + HDR
  }

  /** mem_trim to `n` bytes makes `x` into `y`: of the aligned size, if what is cut off can join a free
      block or hold one, and otherwise as it was. */
  ghost predicate TrimDone(bs: seq<Block>, size: nat, x: Alloc, n: nat, y: Alloc) {
    exists m: nat :: Aligned(n, m) && m <= x.len && TrimmedAs(x, m, SpareBehind(bs, size, x), y)
  }

  predicate TrimmedAs(x: Alloc, m: nat, joins: bool, y: Alloc) {
    y.ptr == x.ptr && y.len == if joins || x.len - m >= HDR + MIN_DATA then m else x.len
  }

  lemma SameAddress(bs: seq<Block>, size: nat, j: nat, k: nat)
    requires Tiled(bs, size) && j < |bs| && k <= |bs| && bs[j].addr == AddrAt(bs, k, size)
    ensures j == k
  {
    assert Placed(bs, j, size);
    assert k < |bs| ==> (j < k ==> Before(bs, j, k)) && (k < j ==> Before(bs, k, j));
  }

  lemma BehindIsNext(bs: seq<Block>, size: nat, k: nat)
    requires Tiled(bs, size) && k < |bs|
    ensures SpareBehind(bs, size, AllocAt(bs, k, size)) <==> k + 1 < |bs| && !bs[k + 1].used
  {
    var x := AllocAt(bs, k, size);
    if SpareBehind(bs, size, x) {
      var y :| y in Spare(bs, size) && y.ptr == x.ptr + x.len + HDR;
      SameAddress(bs, size, SpareIndex(bs, size, y), k + 1);
    }
    if k + 1 < |bs| && !bs[k + 1].used { assert AllocAt(bs, k + 1, size) in Spare(bs, size); }
  }

  /** mem_trim changes no other allocation. */
  lemma TrimLive(bs: seq<Block>, size: nat, x: Alloc, n: nat)
    requires WellFormed(bs, size) && x in Live(bs, size) && n <= x.len
    ensures exists y :: TrimDone(bs, size, x, n, y)
                        && Live(Step(bs, size, Trim(x.ptr, n)), size) == Live(bs, size) - {x} + {y}
  {
    var j := IndexOf(bs, size, x);
    var k := Find(bs, x.ptr, 0);
    assert (j < k ==> Before(bs, j, k)) && (k < j ==> Before(bs, k, j));
    CapacityAligned(bs, k, size);
    assert n < size && !Refused(n, size);
    RoundedAligned(n, size);
    ShrinkLive(bs, k, size, Rounded(n));
    BehindIsNext(bs, size, k);
    var y := AllocAt(Shrink(bs, k, size, Rounded(n)), k, size);
    assert TrimDone(bs, size, x, n, y) by { TrimExact(bs, k, size, n); }
  }

  lemma TrimExact(bs: seq<Block>, k: nat, size: nat, n: nat)
    requires Tiled(bs, size) && k < |bs| && bs[k].used && n < TWO32 && !Refused(n, size) && n <= Capacity(bs, k, size)
    requires SpareBehind(bs, size, AllocAt(bs, k, size)) <==> k + 1 < |bs| && !bs[k + 1].used
    ensures var r := Shrink(bs, k, size, Rounded(n));
            k < |r| && TrimDone(bs, size, AllocAt(bs, k, size), n, AllocAt(r, k, size))
  {
    RoundedAligned(n, size);
    CapacityAligned(bs, k, size);
    AlignedFits(n, Rounded(n), Capacity(bs, k, size));
    ShrinkAs(bs, k, size, Rounded(n));
  }

  lemma ShrinkAs(bs: seq<Block>, k: nat, size: nat, need: nat)
    requires k < |bs| && MIN_DATA <= need <= Capacity(bs, k, size)
    ensures var r := Shrink(bs, k, size, need);
            k < |r| && TrimmedAs(AllocAt(bs, k, size), need, k + 1 < |bs| && !bs[k + 1].used, AllocAt(r, k, size))
  {
  }

  /** More than there is cannot be had by trimming; then nothing changes. */
  lemma TrimTooMuch(bs: seq<Block>, size: nat, k: nat, n: nat)
    requires Tiled(bs, size) && k < |bs| && n < TWO32
    ensures n > Capacity(bs, k, size) <==> Refused(n, size) || Rounded(n) > Capacity(bs, k, size)
    ensures n > Capacity(bs, k, size) && !Refused(n, size) ==> Shrink(bs, k, size, Rounded(n)) == bs
  {
    CapacityAligned(bs, k, size);
    if !Refused(n, size) {
      RoundedAligned(n, size);
      if n <= Capacity(bs, k, size) { AlignedFits(n, Rounded(n), Capacity(bs, k, size)); }
    }
  }

  /** mem_trim asserts that the block it cuts does not end at the end of the heap. That is
      not so in every run: a request for all of a heap of at least two blocks' size
      succeeds, and shrinking it reaches the assertion. */
  lemma TrimAssertionReachable(size: nat)
    requires HeapSize(size) && size >= 2 * (HDR + MIN_DATA)
    ensures var bs := Run(INITIAL, size, [Malloc(size - HDR)]);
            && bs == [Block(0, true)] && Find(bs, HDR, 0) == 0
            && !Refused(1, size) && Splits(bs, 0, size, Rounded(1))
            && Step(bs, size, Trim(HDR, 1)) == [Block(0, true), Block(HDR + MIN_DATA, false)]
  {
    var n := size - HDR;
    assert AlignUp(n) == n && Rounded(n) == n && Rounded(1) == MIN_DATA;
    assert FirstFit(INITIAL, size, n, 0) == 0;
    var ops := [Malloc(n)];
    assert ops[1..] == [];
    assert Run(INITIAL, size, ops) == Run(Step(INITIAL, size, ops[0]), size, ops[1..]);
  }
}
