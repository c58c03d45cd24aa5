/** How a block list is stored in the heap.

    First as a table of `struct mem` headers by index, where the effect of relinking a few
    headers on the encoded list is worked out; then as the bytes of the heap, where a header
    at index p keeps `next` in bytes p..p+3, `prev` in bytes p+4..p+7 (little endian) and
    `used` in byte p+8. */
module HeapImage {
  import opened Basics
  import opened HeapLayout

  // ----- tables of headers

  datatype Hdr = Hdr(next: int, prev: int, used: int)

  type Table = map<int, Hdr>

  /** The header that block `k` of the list must have. */
  function HdrFor(bs: seq<Block>, k: nat, size: nat): Hdr
    requires k < |bs|
  {
    Hdr(AddrAt(bs, k + 1, size), if k == 0 then 0 else bs[k - 1].addr, if bs[k].used then 1 else 0)
  }

  /** ram_end: marked used and linked to itself. */
  function EndHdr(size: nat): Hdr { Hdr(size, size, 1) }

  predicate Holds(t: Table, p: int, h: Hdr) { p in t && t[p] == h }

  predicate EncodesAt(t: Table, bs: seq<Block>, k: nat, size: nat)
    requires k < |bs|
  {
    Holds(t, bs[k].addr, HdrFor(bs, k, size))
  }

  ghost predicate Encodes(t: Table, bs: seq<Block>, size: nat) {
    && (forall k | 0 <= k < |bs| :: EncodesAt(t, bs, k, size))
    && Holds(t, size, EndHdr(size))
  }

  predicate Apart(p: int, q: int) { p + HDR <= q || q + HDR <= p }

  predicate ApartAll(ps: set<int>, q: int) { forall p | p in ps :: Apart(p, q) }

  /** Headers that touch none of the given places are as before. */
  ghost predicate KeptBut(t: Table, t': Table, ps: set<int>) {
    t'.Keys == t.Keys && forall q {:trigger ApartAll(ps, q)} | q in t && ApartAll(ps, q) :: t'[q] == t[q]
  }

  /** A free header at `mid` has been linked between `ptr` and `next`; the end marker's own
      links stay. */
  ghost predicate LinkedIn(t: Table, t': Table, ptr: int, mid: int, next: int, size: nat) {
    && KeptBut(t, t', {ptr, mid, next})
    && ptr in t && next in t
    && Holds(t', ptr, t[ptr].(next := mid))
    && Holds(t', mid, Hdr(next, ptr, 0))
    && Holds(t', next, if next == size then t[next] else t[next].(prev := mid))
  }

  /** `ptr` and `next` have been linked directly. */
  ghost predicate LinkedOut(t: Table, t': Table, ptr: int, next: int, size: nat) {
    && KeptBut(t, t', {ptr, next})
    && ptr in t && next in t
    && Holds(t', ptr, t[ptr].(next := next))
    && Holds(t', next, if next == size then t[next] else t[next].(prev := ptr))
  }

  /** The flag of the header at `ptr` has been set. */
  ghost predicate Flagged(t: Table, t': Table, ptr: int, used: bool) {
    && KeptBut(t, t', {ptr})
    && ptr in t
    && Holds(t', ptr, t[ptr].(used := if used then 1 else 0))
  }

  lemma KeptCompose(t: Table, t1: Table, t2: Table, ps: set<int>, qs: set<int>)
    requires KeptBut(t, t1, ps) && KeptBut(t1, t2, qs)
    ensures KeptBut(t, t2, ps + qs)
  {
    forall q | q in t && ApartAll(ps + qs, q) ensures t2[q] == t[q] {
      assert ApartAll(ps, q) && ApartAll(qs, q);
    }
  }

  lemma KeptAt(t: Table, t': Table, p: int, q: int)
    requires KeptBut(t, t', {p}) && Apart(p, q) && q in t
    ensures q in t' && t'[q] == t[q]
  {
    assert ApartAll({p}, q);
  }

  /** The header writes that make up a LinkedIn step. */
  lemma LinkInSteps(t: Table, t1: Table, t2: Table, t3: Table, ptr: int, mid: int, next: int, size: nat)
    requires Apart(ptr, mid) && Apart(mid, next) && Apart(ptr, next) && ptr in t && next in t
    requires KeptBut(t, t1, {mid}) && Holds(t1, mid, Hdr(next, ptr, 0))
    requires KeptBut(t1, t2, {ptr}) && ptr in t1 && Holds(t2, ptr, t1[ptr].(next := mid))
    requires if next == size then t3 == t2
             else KeptBut(t2, t3, {next}) && next in t2 && Holds(t3, next, t2[next].(prev := mid))
    ensures LinkedIn(t, t3, ptr, mid, next, size)
  {
    KeptAt(t, t1, mid, ptr); KeptAt(t, t1, mid, next);
    KeptAt(t1, t2, ptr, mid); KeptAt(t1, t2, ptr, next);
    KeptCompose(t, t1, t2, {mid}, {ptr});
    if next != size {
      KeptAt(t2, t3, next, mid); KeptAt(t2, t3, next, ptr);
      KeptCompose(t, t2, t3, {mid} + {ptr}, {next});
    }
    forall q | q in t && ApartAll({ptr, mid, next}, q) ensures t3[q] == t[q] {
      assert ApartAll({mid} + {ptr}, q) && ApartAll({mid} + {ptr} + {next}, q);
    }
  }

  lemma LinkOutSteps(t: Table, t1: Table, t2: Table, ptr: int, next: int, size: nat)
    requires Apart(ptr, next) && ptr in t && next in t
    requires KeptBut(t, t1, {ptr}) && Holds(t1, ptr, t[ptr].(next := next))
    requires if next == size then t2 == t1
             else KeptBut(t1, t2, {next}) && next in t1 && Holds(t2, next, t1[next].(prev := ptr))
    ensures LinkedOut(t, t2, ptr, next, size)
  {
    KeptAt(t, t1, ptr, next);
    if next != size {
      KeptAt(t1, t2, next, ptr);
      KeptCompose(t, t1, t2, {ptr}, {next});
    }
    forall q | q in t && ApartAll({ptr, next}, q) ensures t2[q] == t[q] {
      assert ApartAll({ptr}, q) && ApartAll({ptr} + {next}, q);
    }
  }

  lemma BlockApart(bs: seq<Block>, j: nat, k: nat, size: nat)
    requires Tiled(bs, size) && j < |bs| && k <= |bs| && j != k
    ensures Apart(AddrAt(bs, k, size), bs[j].addr) && Apart(bs[j].addr, AddrAt(bs, k, size))
  {
    assert Placed(bs, j, size);
    if k < |bs| {
      assert if j < k then Before(bs, j, k) else Before(bs, k, j);
    }
  }

  lemma EndApart(bs: seq<Block>, k: nat, size: nat)
    requires Tiled(bs, size) && k < |bs|
    ensures Apart(bs[k].addr, size) && bs[k].addr != size
  {
    assert Placed(bs, k, size);
  }

  lemma FlagEncodes(t: Table, t': Table, bs: seq<Block>, k: nat, size: nat, used: bool)
    requires Tiled(bs, size) && Encodes(t, bs, size) && k < |bs|
    requires Flagged(t, t', bs[k].addr, used)
    ensures Encodes(t', bs[k := Block(bs[k].addr, used)], size)
  {
    var r := bs[k := Block(bs[k].addr, used)];
    forall j | 0 <= j < |r| ensures EncodesAt(t', r, j, size) {
      assert EncodesAt(t, bs, j, size);
      if j != k {
        BlockApart(bs, j, k, size);
        assert ApartAll({bs[k].addr}, bs[j].addr);
      }
    }
    EndApart(bs, k, size);
    assert ApartAll({bs[k].addr}, size);
  }

  /** Linking in a free header behind block `k` encodes the list with block `k` cut. */
  lemma LinkInEncodes(t: Table, t': Table, bs: seq<Block>, k: nat, need: nat, size: nat)
    requires Tiled(bs, size) && Encodes(t, bs, size) && k < |bs|
    requires need % ALIGN == 0 && need >= MIN_DATA && Splits(bs, k, size, need)
    requires LinkedIn(t, t', bs[k].addr, bs[k].addr + HDR + need, AddrAt(bs, k + 1, size), size)
    ensures Encodes(t', Cut(bs, k, need), size)
  {
    var r := Cut(bs, k, need);
    var ps := {bs[k].addr, bs[k].addr + HDR + need, AddrAt(bs, k + 1, size)};
    CutTiled(bs, k, size, need);
    forall j | 0 <= j < |r| ensures EncodesAt(t', r, j, size) {
      if j < k || j > k + 2 {
        assert EncodesAt(t, bs, if j < k then j else j - 1, size);
        LinkInKeeps(bs, r, k, need, size, j);
      } else if j != k + 1 {
        assert EncodesAt(t, bs, if j == k then k else k + 1, size);
      }
    }
    EndApart(r, k, size);
    EndApart(r, k + 1, size);
    if k + 2 < |r| { EndApart(r, k + 2, size); assert ApartAll(ps, size); }
  }

  lemma LinkInKeeps(bs: seq<Block>, r: seq<Block>, k: nat, need: nat, size: nat, j: nat)
    requires k < |bs| && r == Cut(bs, k, need) && Tiled(r, size) && j < |r| && (j < k || j > k + 2)
    ensures ApartAll({bs[k].addr, bs[k].addr + HDR + need, AddrAt(bs, k + 1, size)}, r[j].addr)
    ensures var i := if j < k then j else j - 1; r[j] == bs[i] && HdrFor(r, j, size) == HdrFor(bs, i, size)
  {
    BlockApart(r, j, k, size); BlockApart(r, j, k + 1, size); BlockApart(r, j, k + 2, size);
    assert r[k].addr == bs[k].addr && r[k + 1].addr == bs[k].addr + HDR + need;
    assert AddrAt(r, k + 2, size) == AddrAt(bs, k + 1, size);
  }

  /** Linking out the header of block `k + 1` encodes the list with that block merged. */
  lemma LinkOutEncodes(t: Table, t': Table, bs: seq<Block>, k: nat, size: nat)
    requires Tiled(bs, size) && Encodes(t, bs, size) && k + 1 < |bs|
    requires LinkedOut(t, t', bs[k].addr, AddrAt(bs, k + 2, size), size)
    ensures Encodes(t', Merge(bs, k + 1), size)
  {
    var r := Merge(bs, k + 1);
    var ps := {bs[k].addr, AddrAt(bs, k + 2, size)};
    forall j | 0 <= j < |r| ensures EncodesAt(t', r, j, size) {
      var i := if j <= k then j else j + 1;
      assert EncodesAt(t, bs, i, size);
      assert r[j] == bs[i];
      if j < k || j > k + 1 {
        BlockApart(bs, i, k, size); BlockApart(bs, i, k + 2, size);
        assert ApartAll(ps, bs[i].addr);
        assert HdrFor(r, j, size) == HdrFor(bs, i, size);
      } else if j == k + 1 {
        EndApart(bs, k + 2, size);
      }
    }
    EndApart(bs, k, size);
    if k + 2 < |bs| { EndApart(bs, k + 2, size); assert ApartAll(ps, size); }
  }

  /** Linking in a free header in place of block `k + 1`, which is free, encodes the list
      with that block moved down. */
  lemma MoveEncodes(t: Table, t': Table, bs: seq<Block>, k: nat, need: nat, size: nat)
    requires Tiled(bs, size) && Encodes(t, bs, size) && k + 1 < |bs| && !bs[k + 1].used
    requires need % ALIGN == 0 && MIN_DATA <= need < Capacity(bs, k, size)
    requires LinkedIn(t, t', bs[k].addr, bs[k].addr + HDR + need, AddrAt(bs, k + 2, size), size)
    ensures Encodes(t', bs[k + 1 := Block(bs[k].addr + HDR + need, false)], size)
  {
    var r := bs[k + 1 := Block(bs[k].addr + HDR + need, false)];
    var ps := {bs[k].addr, bs[k].addr + HDR + need, AddrAt(bs, k + 2, size)};
    MoveTiled(bs, k, size, need);
    forall j | 0 <= j < |r| ensures EncodesAt(t', r, j, size) {
      if j < k || j > k + 2 {
        assert EncodesAt(t, bs, j, size);
        BlockApart(r, j, k, size); BlockApart(r, j, k + 1, size); BlockApart(r, j, k + 2, size);
        assert ApartAll(ps, r[j].addr);
        assert HdrFor(r, j, size) == HdrFor(bs, j, size);
      } else if j != k + 1 {
        assert EncodesAt(t, bs, j, size);
        EndApart(r, j, size);
      }
    }
    EndApart(r, k, size);
    EndApart(r, k + 1, size);
    if k + 2 < |r| { EndApart(r, k + 2, size); assert ApartAll(ps, size); }
  }

  // ----- bytes

  type Image = seq<byte>

  function Word(b0: int, b1: int, b2: int, b3: int): int {
    b0 + 256 * (b1 + 256 * (b2 + 256 * b3))
  }

  function Octet(v: int): byte { v % 256 }

  lemma WordOfOctets(v: int)
    requires 0 <= v < TWO32
    ensures Word(Octet(v), Octet(v / 256), Octet(v / 256 / 256), Octet(v / 256 / 256 / 256)) == v
  {
    var w := v / 256;
    var h := w / 256;
    assert h == Octet(h) + 256 * Octet(h / 256);
    assert w == Octet(w) + 256 * h;
  }

  predicate InRam(m: Image, p: int) { 0 <= p && p + HDR <= |m| }

  function WordAt(m: Image, p: int): int
    requires 0 <= p && p + 4 <= |m|
  {
    Word(m[p], m[p + 1], m[p + 2], m[p + 3])
  }

  /** The `struct mem` at index `p`. */
  function HdrAt(m: Image, p: int): Hdr
    requires InRam(m, p)
  {
    Hdr(WordAt(m, p), WordAt(m, p + 4), m[p + 8])
  }

  ghost function TableOf(m: Image): Table {
    map p | 0 <= p <= |m| - HDR :: HdrAt(m, p)
  }

  /** Byte `i` is in none of the headers at the given places. */
  predicate Clear(ps: set<int>, i: int) { forall p | p in ps :: !(p <= i < p + HDR) }

  /** Only bytes of the headers at the given places differ. */
  ghost predicate BytesKeptBut(m: Image, m': Image, ps: set<int>) {
    |m| == |m'| && forall i {:trigger Clear(ps, i)} | 0 <= i < |m| && Clear(ps, i) :: m'[i] == m[i]
  }

  lemma BytesCompose(m: Image, m1: Image, m2: Image, ps: set<int>, qs: set<int>)
    requires BytesKeptBut(m, m1, ps) && BytesKeptBut(m1, m2, qs)
    ensures BytesKeptBut(m, m2, ps + qs)
  {
    forall i | 0 <= i < |m| && Clear(ps + qs, i) ensures m2[i] == m[i] {
      assert Clear(ps, i) && Clear(qs, i);
    }
  }

  lemma BytesSame(m: Image, ps: set<int>)
    ensures BytesKeptBut(m, m, ps)
  {
  }

  lemma BytesWiden(m: Image, m': Image, ps: set<int>, qs: set<int>)
    requires BytesKeptBut(m, m', ps) && ps <= qs
    ensures BytesKeptBut(m, m', qs)
  {
    forall i | 0 <= i < |m| && Clear(qs, i) ensures m'[i] == m[i] {
      assert Clear(ps, i);
    }
  }

  lemma LinkInBytes(m: Image, m1: Image, m2: Image, m3: Image, ptr: int, mid: int, next: int, size: nat)
    requires BytesKeptBut(m, m1, {mid}) && BytesKeptBut(m1, m2, {ptr})
    requires if next == size then m3 == m2 else BytesKeptBut(m2, m3, {next})
    ensures BytesKeptBut(m, m3, {mid, ptr, next})
  {
    BytesCompose(m, m1, m2, {mid}, {ptr});
    if next == size {
      BytesWiden(m, m2, {mid} + {ptr}, {mid, ptr, next});
    } else {
      BytesCompose(m, m2, m3, {mid} + {ptr}, {next});
      BytesWiden(m, m3, {mid} + {ptr} + {next}, {mid, ptr, next});
    }
  }

  lemma HeaderFrame(m: Image, m': Image, p: int)
    requires |m| == |m'| && forall i | 0 <= i < |m| && !(p <= i < p + HDR) :: m'[i] == m[i]
    ensures KeptBut(TableOf(m), TableOf(m'), {p}) && BytesKeptBut(m, m', {p})
  {
    forall q | q in TableOf(m) && ApartAll({p}, q) ensures TableOf(m')[q] == TableOf(m)[q] {
      assert Apart(p, q);
      assert WordAt(m', q) == WordAt(m, q) && WordAt(m', q + 4) == WordAt(m, q + 4) && m'[q + 8] == m[q + 8];
    }
    forall i | 0 <= i < |m| && Clear({p}, i) ensures m'[i] == m[i] {
      assert p in {p};
    }
  }

  ghost predicate DataKept(m: Image, m': Image, lo: int, hi: int) {
    |m| == |m'| && forall i | 0 <= i < |m| && lo <= i < hi :: m'[i] == m[i]
  }

  /** The bytes that live allocations own are as before. */
  ghost predicate PayloadsKept(m: Image, m': Image, bs: seq<Block>, size: nat) {
    forall k | 0 <= k < |bs| && bs[k].used :: DataKept(m, m', bs[k].addr + HDR, AddrAt(bs, k + 1, size))
  }

  /** No header lies inside the data of a block. */
  lemma HeaderOutsideData(bs: seq<Block>, j: nat, i: nat, size: nat)
    requires Tiled(bs, size) && j < |bs| && i <= |bs|
    ensures AddrAt(bs, i, size) <= bs[j].addr || AddrAt(bs, j + 1, size) <= AddrAt(bs, i, size)
  {
    assert Placed(bs, j, size) && (j + 1 < |bs| ==> Placed(bs, j + 1, size));
    if i < j { assert Before(bs, i, j); }
    if j + 1 < i < |bs| { assert Before(bs, j + 1, i); }
  }

  lemma DataMissed(m: Image, m': Image, ps: set<int>, lo: int, hi: int)
    requires BytesKeptBut(m, m', ps) && forall p | p in ps :: p + HDR <= lo || hi <= p
    ensures DataKept(m, m', lo, hi)
  {
    forall i | 0 <= i < |m| && lo <= i < hi ensures m'[i] == m[i] {
      assert Clear(ps, i);
    }
  }

  /** Header writes at block starts, and at one more place inside block `k`, leave the data
      of every other block alone. */
  lemma OthersKept(m: Image, m': Image, ps: set<int>, bs: seq<Block>, k: nat, mid: int, size: nat, j: nat)
    requires Tiled(bs, size) && BytesKeptBut(m, m', ps) && k < |bs| && j < |bs| && j != k
    requires bs[k].addr + HDR <= mid && mid + HDR <= AddrAt(bs, k + 1, size)
    requires forall p | p in ps :: p == mid || exists i: nat | i <= |bs| :: p == AddrAt(bs, i, size)
    ensures DataKept(m, m', bs[j].addr + HDR, AddrAt(bs, j + 1, size))
  {
    forall p | p in ps ensures p + HDR <= bs[j].addr + HDR || AddrAt(bs, j + 1, size) <= p {
      if p == mid {
        assert k + 1 < j ==> Before(bs, k + 1, j);
        assert j + 1 < k ==> Before(bs, j + 1, k);
      } else {
        var i: nat :| i <= |bs| && p == AddrAt(bs, i, size);
        HeaderOutsideData(bs, j, i, size);
      }
    }
    DataMissed(m, m', ps, bs[j].addr + HDR, AddrAt(bs, j + 1, size));
  }

  /** Where the three headers of a cut lie. */
  lemma CarvePlaces(bs: seq<Block>, k: nat, need: nat, size: nat)
    requires Tiled(bs, size) && k < |bs| && need >= MIN_DATA && Splits(bs, k, size, need)
    ensures var ptr, mid, next := bs[k].addr, bs[k].addr + HDR + need, AddrAt(bs, k + 1, size);
            && ptr + HDR <= mid && mid + HDR <= next && next <= size <= MAX_HEAP
            && Apart(ptr, mid) && Apart(mid, next) && Apart(ptr, next)
  {
    assert k + 1 < |bs| ==> Placed(bs, k + 1, size);
  }

  lemma FlagKeeps(m: Image, m': Image, bs: seq<Block>, k: nat, size: nat)
    requires Tiled(bs, size) && k < |bs| && BytesKeptBut(m, m', {bs[k].addr})
    ensures PayloadsKept(m, m', bs, size)
  {
    forall j | 0 <= j < |bs| && bs[j].used ensures DataKept(m, m', bs[j].addr + HDR, AddrAt(bs, j + 1, size)) {
      HeaderOutsideData(bs, j, k, size);
      DataMissed(m, m', {bs[k].addr}, bs[j].addr + HDR, AddrAt(bs, j + 1, size));
    }
  }

  lemma CarveKeeps(m: Image, m': Image, bs: seq<Block>, k: nat, need: nat, size: nat)
    requires Tiled(bs, size) && k < |bs| && need >= MIN_DATA && Splits(bs, k, size, need)
    requires BytesKeptBut(m, m', {bs[k].addr + HDR + need, bs[k].addr, AddrAt(bs, k + 1, size)})
    ensures forall j | 0 <= j < |bs| && j != k :: DataKept(m, m', bs[j].addr + HDR, AddrAt(bs, j + 1, size))
    ensures DataKept(m, m', bs[k].addr + HDR, bs[k].addr + HDR + need)
  {
    var ps := {bs[k].addr + HDR + need, bs[k].addr, AddrAt(bs, k + 1, size)};
    assert bs[k].addr == AddrAt(bs, k, size);
    forall j | 0 <= j < |bs| && j != k ensures DataKept(m, m', bs[j].addr + HDR, AddrAt(bs, j + 1, size)) {
      OthersKept(m, m', ps, bs, k, bs[k].addr + HDR + need, size, j);
    }
    DataMissed(m, m', ps, bs[k].addr + HDR, bs[k].addr + HDR + need);
  }

  /** mem_malloc may stop its search once fewer than `need` bytes lie above. */
  lemma NoneFitsAbove(bs: seq<Block>, size: nat, need: nat, k: nat)
    requires Tiled(bs, size) && k <= |bs| && AddrAt(bs, k, size) >= size - need
    ensures forall j | k <= j < |bs| :: !Fits(bs, j, size, need)
  {
    forall j | k <= j < |bs| ensures !Fits(bs, j, size, need) {
      assert k == j || Before(bs, k, j);
      assert j + 1 < |bs| ==> Placed(bs, j + 1, size);
    }
  }

  /** Handing out block `k` changes the lowest free block only if it was block `k`. */
  lemma TakeLowest(bs: seq<Block>, k: nat, size: nat, need: nat)
    requires Tiled(bs, size) && k < |bs| && !bs[k].used
    ensures var r, f := Take(bs, k, size, need), FirstFree(bs, 0);
            && k < |r| && r[k] == Block(bs[k].addr, true)
            && if AddrAt(bs, f, size) == bs[k].addr then forall j | 0 <= j < k :: r[j].used
               else FirstFree(r, 0) == f && AddrAt(r, f, size) == AddrAt(bs, f, size)
  {
    var r, f := Take(bs, k, size, need), FirstFree(bs, 0);
    assert forall j | 0 <= j < k :: r[j] == bs[j];
    assert f < k ==> Before(bs, f, k);
    if f < k { FirstFreeUnique(r, f); }
  }

  /** The indices of all headers, the end marker's included. */
  ghost function Starts(bs: seq<Block>, size: nat): set<int> {
    set i | 0 <= i <= |bs| :: AddrAt(bs, i, size)
  }

  lemma StartsKeep(m: Image, m': Image, bs: seq<Block>, size: nat)
    requires Tiled(bs, size) && BytesKeptBut(m, m', Starts(bs, size))
    ensures PayloadsKept(m, m', bs, size)
  {
    forall j | 0 <= j < |bs| && bs[j].used ensures DataKept(m, m', bs[j].addr + HDR, AddrAt(bs, j + 1, size)) {
      forall p | p in Starts(bs, size) ensures p + HDR <= bs[j].addr + HDR || AddrAt(bs, j + 1, size) <= p {
        var i :| 0 <= i <= |bs| && p == AddrAt(bs, i, size);
        HeaderOutsideData(bs, j, i, size);
      }
      DataMissed(m, m', Starts(bs, size), bs[j].addr + HDR, AddrAt(bs, j + 1, size));
    }
  }

  lemma MergeStarts(bs: seq<Block>, k: nat, size: nat)
    requires 0 < k < |bs|
    ensures Starts(Merge(bs, k), size) <= Starts(bs, size)
  {
    var r := Merge(bs, k);
    forall p | p in Starts(r, size) ensures p in Starts(bs, size) {
      var i :| 0 <= i <= |r| && p == AddrAt(r, i, size);
      assert p == AddrAt(bs, if i < k then i else i + 1, size);
    }
  }

  /** Where the headers of a merge lie. */
  lemma MergePlaces(bs: seq<Block>, k: nat, size: nat)
    requires Tiled(bs, size) && k + 1 < |bs|
    ensures Apart(bs[k].addr, AddrAt(bs, k + 2, size)) && bs[k].addr <= size <= MAX_HEAP
    ensures AddrAt(bs, k + 2, size) <= size
    ensures {bs[k].addr, AddrAt(bs, k + 2, size)} <= Starts(bs, size)
  {
    BlockApart(bs, k, k + 2, size);
    assert Placed(bs, k, size) && (k + 2 < |bs| ==> Placed(bs, k + 2, size));
    assert bs[k].addr == AddrAt(bs, k, size);
  }

  /** Joining two free neighbours leaves the lowest free block where it was. */
  lemma MergeLowest(bs: seq<Block>, k: nat, size: nat)
    requires Tiled(bs, size) && 0 < k < |bs| && !bs[k].used && !bs[k - 1].used
    ensures var r, f := Merge(bs, k), FirstFree(bs, 0);
            f < k && FirstFree(r, 0) == f && AddrAt(r, f, size) == AddrAt(bs, f, size) && bs[f].addr != bs[k].addr
  {
    var r, f := Merge(bs, k), FirstFree(bs, 0);
    assert f < k;
    assert forall j | 0 <= j < k :: r[j] == bs[j];
    assert Before(bs, f, k);
    FirstFreeUnique(r, f);
  }

  // ----- the checks mem_free makes before it believes a pointer

  /** The table has a header at every index up to the end marker. */
  ghost predicate Covers(t: Table, size: nat) { forall p | 0 <= p <= size :: p in t }

  /** mem_link_valid: both neighbours point back. */
  ghost predicate LinkValid(t: Table, size: nat, p: nat)
    requires Covers(t, size) && p <= size
  {
    && 0 <= t[p].next <= size && 0 <= t[p].prev <= size
    && (t[p].prev == p || t[t[p].prev].next == p)
    && (t[p].next == size || t[t[p].next].prev == p)
  }

  /** Aligned, inside the heap, marked used and correctly linked. */
  ghost predicate FreeAccepts(t: Table, size: nat, off: int)
    requires Covers(t, size)
  {
    && off % ALIGN == 0 && HDR <= off && off + MIN_DATA <= size
    && t[off - HDR].used != 0 && LinkValid(t, size, off - HDR)
  }

  /** A live pointer passes all of mem_free's checks. */
  lemma LiveAccepted(t: Table, bs: seq<Block>, k: nat, size: nat)
    requires WellFormed(bs, size) && Covers(t, size) && Encodes(t, bs, size)
    requires k < |bs| && bs[k].used
    ensures FreeAccepts(t, size, bs[k].addr + HDR)
  {
    assert Placed(bs, k, size) && EncodesAt(t, bs, k, size);
    if k > 0 { assert Placed(bs, k - 1, size) && EncodesAt(t, bs, k - 1, size); }
    if k + 1 < |bs| { assert Placed(bs, k + 1, size) && EncodesAt(t, bs, k + 1, size); }
  }

  lemma RetagStarts(bs: seq<Block>, k: nat, size: nat, used: bool)
    requires k < |bs|
    ensures Starts(bs[k := Block(bs[k].addr, used)], size) == Starts(bs, size)
  {
    var r := bs[k := Block(bs[k].addr, used)];
    assert forall i | 0 <= i <= |bs| :: AddrAt(r, i, size) == AddrAt(bs, i, size);
  }

  lemma LinkOutUsed(t: Table, t': Table, ptr: int, next: int, size: nat, q: int)
    requires LinkedOut(t, t', ptr, next, size) && q in t
    requires q == ptr || q == next || ApartAll({ptr, next}, q)
    ensures q in t' && t'[q].used == t[q].used
  {
  }

  /** mem_free's update of lfree: the freed block becomes the lowest if it lies below. */
  lemma FreedLowest(bs: seq<Block>, k: nat, size: nat)
    requires Tiled(bs, size) && k < |bs| && bs[k].used
    ensures var r, f := bs[k := Block(bs[k].addr, false)], FirstFree(bs, 0);
            AddrAt(r, FirstFree(r, 0), size) ==
            if bs[k].addr < AddrAt(bs, f, size) then bs[k].addr else AddrAt(bs, f, size)
  {
    var r, f := bs[k := Block(bs[k].addr, false)], FirstFree(bs, 0);
    assert Placed(bs, k, size);
    if f < k {
      assert Before(bs, f, k);
      FirstFreeUnique(r, f);
    } else {
      assert f < |bs| ==> Before(bs, k, f);
      FirstFreeUnique(r, k);
    }
  }

  /** mem_trim's updates of lfree. */
  lemma MovedLowest(bs: seq<Block>, k: nat, need: nat, size: nat)
    requires Tiled(bs, size) && k + 1 < |bs| && bs[k].used && !bs[k + 1].used
    ensures var r := bs[k + 1 := Block(bs[k].addr + HDR + need, false)];
            AddrAt(r, FirstFree(r, 0), size) ==
            if AddrAt(bs, FirstFree(bs, 0), size) == bs[k + 1].addr then bs[k].addr + HDR + need
            else AddrAt(bs, FirstFree(bs, 0), size)
  {
    var r, f := bs[k + 1 := Block(bs[k].addr + HDR + need, false)], FirstFree(bs, 0);
    assert f < k + 1 ==> Before(bs, f, k + 1);
    FirstFreeUnique(r, f);
  }

  lemma MoveFacts(bs: seq<Block>, k: nat, need: nat, size: nat)
    requires WellFormed(bs, size) && k + 1 < |bs| && bs[k].used && !bs[k + 1].used
    requires need % ALIGN == 0 && MIN_DATA <= need < Capacity(bs, k, size)
    ensures var r := bs[k + 1 := Block(bs[k].addr + HDR + need, false)];
            && r == Shrink(bs, k, size, need) && WellFormed(r, size)
            && AddrAt(r, FirstFree(r, 0), size) ==
               if AddrAt(bs, FirstFree(bs, 0), size) == bs[k + 1].addr then bs[k].addr + HDR + need
               else AddrAt(bs, FirstFree(bs, 0), size)
  {
    ShrinkWellFormed(bs, k, size, need);
    MovedLowest(bs, k, need, size);
  }

  lemma SplitLowest(bs: seq<Block>, k: nat, need: nat, size: nat)
    requires Tiled(bs, size) && k < |bs| && bs[k].used && Splits(bs, k, size, need)
    ensures var r, f := Cut(bs, k, need), AddrAt(bs, FirstFree(bs, 0), size);
            AddrAt(r, FirstFree(r, 0), size) ==
            if bs[k].addr + HDR + need < f then bs[k].addr + HDR + need else f
  {
    var r, f := Cut(bs, k, need), FirstFree(bs, 0);
    assert forall j | 0 <= j <= k :: r[j] == bs[j];
    if f < k {
      assert Before(bs, f, k);
      FirstFreeUnique(r, f);
    } else {
      assert k + 1 < f < |bs| ==> Before(bs, k + 1, f);
      assert k + 1 < |bs| ==> Placed(bs, k + 1, size);
      FirstFreeUnique(r, k + 1);
    }
  }

  lemma MovePlaces(bs: seq<Block>, k: nat, need: nat, size: nat)
    requires Tiled(bs, size) && k + 1 < |bs| && MIN_DATA <= need < Capacity(bs, k, size)
    ensures var ptr, mid, next := bs[k].addr, bs[k].addr + HDR + need, AddrAt(bs, k + 2, size);
            && ptr + HDR <= mid && mid + HDR <= next && next <= size <= MAX_HEAP
            && Apart(ptr, mid) && Apart(mid, next) && Apart(ptr, next)
  {
    assert Placed(bs, k + 1, size) && (k + 2 < |bs| ==> Placed(bs, k + 2, size) && Before(bs, k + 1, k + 2));
  }

  /** mem_trim leaves other live data alone, and the part of its own that it keeps. */
  ghost predicate TrimKept(m: Image, m': Image, bs: seq<Block>, k: nat, need: nat, size: nat)
    requires k < |bs|
  {
    && (forall j | 0 <= j < |bs| && bs[j].used && j != k :: DataKept(m, m', bs[j].addr + HDR, AddrAt(bs, j + 1, size)))
    && DataKept(m, m', bs[k].addr + HDR, bs[k].addr + HDR + need)
  }

  lemma MoveKeeps(m: Image, m': Image, bs: seq<Block>, k: nat, need: nat, size: nat)
    requires Tiled(bs, size) && k + 1 < |bs| && !bs[k + 1].used && MIN_DATA <= need < Capacity(bs, k, size)
    requires BytesKeptBut(m, m', {bs[k].addr + HDR + need, bs[k].addr, AddrAt(bs, k + 2, size)})
    ensures TrimKept(m, m', bs, k, need, size)
  {
    var mid := bs[k].addr + HDR + need;
    var ps := {mid, bs[k].addr, AddrAt(bs, k + 2, size)};
    MovePlaces(bs, k, need, size);
    forall j | 0 <= j < |bs| && bs[j].used && j != k
      ensures DataKept(m, m', bs[j].addr + HDR, AddrAt(bs, j + 1, size))
    {
      HeaderOutsideData(bs, j, k, size); HeaderOutsideData(bs, j, k + 2, size);
      assert k + 2 < j ==> Before(bs, k + 2, j);
      assert j + 1 < k ==> Before(bs, j + 1, k);
      assert k + 2 < |bs| ==> Before(bs, k + 1, k + 2);
      DataMissed(m, m', ps, bs[j].addr + HDR, AddrAt(bs, j + 1, size));
    }
    DataMissed(m, m', ps, bs[k].addr + HDR, mid);
  }

  /** Writing one's own data disturbs no header. */
  lemma DataWriteEncodes(m: Image, m': Image, bs: seq<Block>, k: nat, i: int, size: nat)
    requires Tiled(bs, size) && |m| == |m'| == size + HDR && Encodes(TableOf(m), bs, size)
    requires k < |bs| && bs[k].addr + HDR <= i < AddrAt(bs, k + 1, size)
    requires forall j | 0 <= j < |m| && j != i :: m'[j] == m[j]
    ensures Encodes(TableOf(m'), bs, size)
  {
    forall j | 0 <= j <= |bs|
      ensures var p := AddrAt(bs, j, size); p in TableOf(m) && p in TableOf(m') && TableOf(m')[p] == TableOf(m)[p]
    {
      var p := AddrAt(bs, j, size);
      HeaderOutsideData(bs, k, j, size);
      if j < |bs| { assert Placed(bs, j, size); }
      assert WordAt(m', p) == WordAt(m, p) && WordAt(m', p + 4) == WordAt(m, p + 4) && m'[p + 8] == m[p + 8];
    }
    assert AddrAt(bs, |bs|, size) == size;
    forall j | 0 <= j < |bs| ensures EncodesAt(TableOf(m'), bs, j, size) {
      assert EncodesAt(TableOf(m), bs, j, size) && AddrAt(bs, j, size) == bs[j].addr;
    }
  }
}
