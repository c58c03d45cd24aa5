/** Reading and writing bytes at an offset of a pbuf chain: pbuf_skip, pbuf_copy_partial, pbuf_take
    and pbuf_take_at, against slices of the flat bytes. */
module PbufBytes {
  import opened Basics
  import opened IdList
  import opened PbufRefs
  import opened PbufChain

  datatype Err = ERR_OK | ERR_MEM

  // ----- slices

  /** The bytes from `offset` on, at most `len` of them, as far as there are any. */
  function Slice(bytes: seq<byte>, offset: nat, len: nat): seq<byte> {
    bytes[Min(offset, |bytes|)..Min(offset + len, |bytes|)]
  }

  function Overwritten(bytes: seq<byte>, offset: nat, data: seq<byte>): seq<byte>
    requires offset + |data| <= |bytes|
  {
    bytes[..offset] + data + bytes[offset + |data|..]
  }

  /** `now` is `bytes` with the data written at the offset. */
  predicate Overwrites(now: seq<byte>, bytes: seq<byte>, offset: nat, data: seq<byte>) {
    offset + |data| <= |bytes| && now == Overwritten(bytes, offset, data)
  }

  /** Reading back what was written returns it, and other slices are unaffected. */
  lemma ReadBack(bytes: seq<byte>, offset: nat, data: seq<byte>, at: nat, n: nat)
    requires offset + |data| <= |bytes|
    ensures Slice(Overwritten(bytes, offset, data), offset, |data|) == data
    ensures at + n <= offset || offset + |data| <= at ==>
              Slice(Overwritten(bytes, offset, data), at, n) == Slice(bytes, at, n)
  {
    var w := Overwritten(bytes, offset, data);
    assert w[offset..offset + |data|] == data;
    if at + n <= offset || offset + |data| <= at {
      forall i | Min(at, |bytes|) <= i < Min(at + n, |bytes|) ensures w[i] == bytes[i] { }
      SliceSame(w, bytes, at, n);
    }
  }

  lemma SliceSame(a: seq<byte>, b: seq<byte>, at: nat, n: nat)
    requires |a| == |b| && forall i | Min(at, |a|) <= i < Min(at + n, |a|) :: a[i] == b[i]
    ensures Slice(a, at, n) == Slice(b, at, n)
  {
    var lo, hi := Min(at, |a|), Min(at + n, |a|);
    forall i | 0 <= i < hi - lo ensures a[lo..hi][i] == b[lo..hi][i] { assert a[lo + i] == b[lo + i]; }
  }

  lemma SliceSkip(a: seq<byte>, b: seq<byte>, offset: nat, len: nat)
    requires offset >= |a|
    ensures Slice(a + b, offset, len) == Slice(b, offset - |a|, len)
  {
  }

  lemma SliceTake(a: seq<byte>, b: seq<byte>, offset: nat, len: nat)
    requires offset <= |a|
    ensures var n := Min(|a| - offset, len);
            Slice(a + b, offset, len) == a[offset..offset + n] + Slice(b, 0, len - n)
  {
    if len <= |a| - offset {
      assert (a + b)[offset..offset + len] == a[offset..offset + len] && b[0..0] == [];
    } else {
      var end := Min(len - (|a| - offset), |b|);
      assert (a + b)[offset..|a| + end] == a[offset..] + b[..end];
    }
  }

  lemma TakeStep(got: seq<byte>, a: seq<byte>, b: seq<byte>, offset: nat, len: nat, n: nat)
    requires offset <= |a| && n == Min(|a| - offset, len)
    ensures got + Slice(a + b, offset, len) == got + a[offset..offset + n] + Slice(b, 0, len - n)
  {
    SliceTake(a, b, offset, len);
  }

  // ----- reading

  /** Position of the pbuf that holds the byte at `offset`, or the length of the path. */
  function Holder(s: Store, path: seq<Id>, offset: nat): nat {
    if path == [] || offset < |DataOf(s, path[0])| then 0
    else 1 + Holder(s, path[1..], offset - |DataOf(s, path[0])|)
  }

  lemma {:induction false} HolderUnique(s: Store, path: seq<Id>, offset: nat, k: nat)
    requires k <= |path| && |Flat(s, path[..k])| <= offset
    requires k < |path| ==> offset < |Flat(s, path[..k])| + |DataOf(s, path[k])|
    ensures k == Holder(s, path, offset)
  {
    if k == 0 {
      assert path[..0] == [];
    } else {
      assert path[..k][1..] == path[1..][..k - 1];
      HolderUnique(s, path[1..], offset - |DataOf(s, path[0])|, k - 1);
    }
  }

  /** pbuf_skip_const: the pbuf that holds the byte at `offset`, and the offset in it. */
  method SkipConst(s: Store, p: Option<Id>, offset: nat, ghost path: seq<Id>)
    returns (q: Option<Id>, left: nat, ghost k: nat)
    requires Chain(s, path) && p == Head(path) && offset < TWO16
    ensures k <= |path| && q == Head(path[k..]) && left + |Flat(s, path[..k])| == offset
    ensures q.Some? ==> q.value in s && left < |s[q.value].data|
    ensures q.Some? <==> offset < |Flat(s, path)|
    ensures k == Holder(s, path, offset)
  {
    q, left, k := p, offset, 0;
    assert path[..0] == [] && (path != [] ==> LinkAt(s, path, 0));
    while q.Some? && |s[q.value].data| <= left
      invariant k <= |path| && q == Head(path[k..]) && left + |Flat(s, path[..k])| == offset
      invariant q.Some? ==> q.value in s
      decreases |path| - k
    {
      assert LinkAt(s, path, k);
      PrefixStep(s, path, k);
      left := left - |s[q.value].data|;
      q := s[q.value].next;
      k := k + 1;
      assert k < |path| ==> LinkAt(s, path, k);
    }
    FlatCut(s, path, k);
    if q.Some? { FlatAt(s, path, k); }
    HolderUnique(s, path, offset, k);
  }

  /** `got` is what there is of the `length` bytes from `start` on. */
  predicate IsSlice(got: seq<byte>, bytes: seq<byte>, start: nat, length: nat) {
    && |got| == Min(length, Max(|bytes| - start, 0))
    && forall i | 0 <= i < |got| :: start + i < |bytes| && got[i] == bytes[start + i]
  }

  lemma SliceIs(bytes: seq<byte>, start: nat, length: nat)
    ensures IsSlice(Slice(bytes, start, length), bytes, start, length)
  {
  }

  /** pbuf_copy_partial: exactly the slice, clipped to the chain, arrives in the buffer. */
  method CopyPartial(s: Store, buf: Id, dst: array<byte>, length: nat, start: nat, ghost path: seq<Id>)
    returns (copied: nat)
    requires Chain(s, path) && path != [] && path[0] == buf
    requires length < TWO16 && start < TWO16 && length <= dst.Length
    modifies dst
    ensures copied <= dst.Length && IsSlice(dst[..copied], Flat(s, path), start, length)
    ensures forall i | copied <= i < dst.Length :: dst[i] == old(dst[i])
  {
    copied := 0;
    var p, len: nat, offset: nat := Some(buf), length, start;
    ghost var k: nat := 0;
    assert path[0..] == path && LinkAt(s, path, 0);
    while len != 0 && p.Some?
      invariant k <= |path| && p == Head(path[k..]) && copied + len <= dst.Length
      invariant dst[..copied] + Slice(Flat(s, path[k..]), offset, len) == Slice(Flat(s, path), start, length)
      invariant forall i | copied <= i < dst.Length :: dst[i] == old(dst[i])
      decreases |path| - k
    {
      assert LinkAt(s, path, k);
      FlatAt(s, path, k);
      copied, len, offset := CopyFrom(s[p.value].data, dst, copied, len, offset, Flat(s, path[k + 1..]));
      p := s[p.value].next;
      k := k + 1;
    }
    assert Slice(Flat(s, path[k..]), offset, len) == [];
    assert dst[..copied] == Slice(Flat(s, path), start, length);
    SliceIs(Flat(s, path), start, length);
  }

  /** One round: skip the pbuf, or copy from it what is wanted. */
  method CopyFrom(data: seq<byte>, dst: array<byte>, at: nat, want: nat, skip: nat, ghost rest: seq<byte>)
    returns (copied: nat, len: nat, offset: nat)
    requires at + want <= dst.Length
    modifies dst
    ensures at <= copied && copied + len == at + want
    ensures dst[..copied] + Slice(rest, offset, len) == old(dst[..at]) + Slice(data + rest, skip, want)
    ensures forall i | copied <= i < dst.Length :: dst[i] == old(dst[i])
  {
    copied, len, offset := at, want, skip;
    if offset != 0 && offset >= |data| {
      SliceSkip(data, rest, offset, len);
      offset := offset - |data|;
    } else {
      var n := |data| - offset;
      if n > len { n := len; }
      TakeStep(dst[..at], data, rest, offset, len, n);
      Memcpy(dst, copied, data[offset..offset + n]);
      copied := copied + n;
      len := len - n;
      offset := 0;
    }
  }

  method Memcpy(dst: array<byte>, at: nat, src: seq<byte>)
    requires at + |src| <= dst.Length
    modifies dst
    ensures dst[..at + |src|] == old(dst[..at]) + src
    ensures forall i | at + |src| <= i < dst.Length :: dst[i] == old(dst[i])
  {
    forall i | 0 <= i < |src| { dst[at + i] := src[i]; }
  }

  // ----- writing

  function WithData(s: Store, x: Id, data: seq<byte>): Store
    requires x in s
  {
    s[x := s[x].(data := data)]
  }

  /** Nothing but payload bytes of pbufs on the path differs. */
  predicate PayloadAt(s: Store, t: Store, path: seq<Id>, x: Id)
    requires x in s && x in t
  {
    |t[x].data| == |s[x].data| && t[x] == s[x].(data := t[x].data) && (x !in path ==> t[x] == s[x])
  }

  ghost predicate Payload(s: Store, t: Store, path: seq<Id>) {
    s.Keys == t.Keys && forall x {:trigger PayloadAt(s, t, path, x)} | x in s :: x in t && PayloadAt(s, t, path, x)
  }

  lemma PayloadSame(s: Store, path: seq<Id>)
    ensures Payload(s, s, path)
  {
    assert forall x | x in s :: PayloadAt(s, s, path, x);
  }

  lemma PayloadStep(s: Store, t: Store, path: seq<Id>, x: Id, data: seq<byte>)
    requires Payload(s, t, path) && x in t && x in path && |data| == |t[x].data|
    ensures Payload(s, WithData(t, x, data), path)
  {
    var u := WithData(t, x, data);
    forall y | y in s ensures y in u && PayloadAt(s, u, path, y) { assert y in t.Keys && PayloadAt(s, t, path, y); }
  }

  /** Chains, totals and reference counts do not depend on what the payload is. */
  lemma PayloadKeeps(s: Store, t: Store, path: seq<Id>, hs: multiset<Id>)
    requires Payload(s, t, path) && RefsOk(s, hs) && Chain(s, path) && Totals(s, path)
    ensures RefsOk(t, hs) && Chain(t, path) && Totals(t, path)
  {
    forall x | x in s ensures x in t && SamePointers(s, t, x) { assert PayloadAt(s, t, path, x); }
    RefsKept(s, t, hs);
    forall i | 0 <= i < |path| ensures SameNext(s, t, path[i]) {
      assert LinkAt(s, path, i) && PayloadAt(s, t, path, path[i]);
    }
    ChainSame(s, t, path);
    forall i | 0 <= i < |path| ensures TotalAt(t, path, i) {
      assert TotalAt(s, path, i) && PayloadAt(s, t, path, path[i]);
      SameLength(s, t, path, path[i..]);
    }
  }

  lemma {:induction false} SameLength(s: Store, t: Store, path: seq<Id>, part: seq<Id>)
    requires Payload(s, t, path)
    ensures |Flat(t, part)| == |Flat(s, part)|
  {
    if part != [] {
      assert part[0] in s.Keys <==> part[0] in t.Keys;
      if part[0] in s { assert PayloadAt(s, t, path, part[0]); }
      SameLength(s, t, path, part[1..]);
    }
  }

  /** Writing the payload of one pbuf replaces its part of the flat bytes. */
  lemma WriteFlat(s: Store, path: seq<Id>, k: nat, data: seq<byte>)
    requires Distinct(path) && k < |path| && path[k] in s
    ensures var t := WithData(s, path[k], data);
            && Flat(t, path[..k]) == Flat(s, path[..k]) && Flat(t, path[k + 1..]) == Flat(s, path[k + 1..])
            && Flat(t, path) == Flat(s, path[..k]) + data + Flat(s, path[k + 1..])
  {
    var t, a, b := WithData(s, path[k], data), path[..k], path[k + 1..];
    forall i | 0 <= i < |a| ensures SameData(s, t, a[i]) { assert Apart(path, i, k); }
    forall i | 0 <= i < |b| ensures SameData(s, t, b[i]) { assert Apart(path, k, k + 1 + i); }
    FlatSame(s, t, a);
    FlatSame(s, t, b);
    FlatCut(t, path, k);
    FlatAt(t, path, k);
  }

  /** The loop of pbuf_take: the first bytes of the chain are replaced. */
  method Fill(s: Store, buf: Id, data: seq<byte>, ghost path: seq<Id>) returns (t: Store)
    requires Chain(s, path) && path != [] && path[0] == buf && |data| <= |Flat(s, path)|
    ensures Payload(s, t, path) && Flat(t, path) == data + Flat(s, path)[|data|..]
  {
    t := s;
    var p, copied: nat := buf, 0;
    ghost var k, bytes := 0, Flat(s, path);
    PayloadSame(s, path);
    FillStart(s, path, data);
    while |data| - copied != 0
      invariant (k < |path| ==> p == path[k]) && Payload(s, t, path) && Filled(t, path, k, data, copied, bytes)
      decreases |path| - k
    {
      t, p, copied := FillOne(s, t, p, data, copied, path, k, bytes);
      k := k + 1;
    }
    assert data[..|data|] == data;
  }

  /** One round of pbuf_take. */
  method FillOne(ghost s: Store, t: Store, p: Id, data: seq<byte>, at: nat, ghost path: seq<Id>, ghost k: nat,
                 ghost bytes: seq<byte>)
    returns (u: Store, q: Id, copied: nat)
    requires Payload(s, t, path) && Filled(t, path, k, data, at, bytes) && at < |data| && (k < |path| ==> p == path[k])
    ensures Payload(s, u, path) && Filled(u, path, k + 1, data, copied, bytes)
    ensures k < |path| && (k + 1 < |path| ==> q == path[k + 1])
  {
    FillMore(t, path, k, data, at, bytes);
    var n := |data| - at;
    if n > |t[p].data| { n := |t[p].data|; }
    FillStep(t, path, k, data, at, n, bytes);
    PayloadStep(s, t, path, p, data[at..at + n] + t[p].data[n..]);
    u := Filling(t, p, data, at, n);
    copied := at + n;
    q := if t[p].next.Some? then t[p].next.value else p;
  }

  /** The first `copied` bytes have been written over those of `bytes`, to the first `k` pbufs. */
  ghost predicate Filled(t: Store, path: seq<Id>, k: nat, data: seq<byte>, copied: nat, bytes: seq<byte>) {
    && k <= |path| && Chain(t, path) && copied <= |data| <= |bytes|
    && Flat(t, path) == data[..copied] + bytes[copied..] && (copied < |data| ==> |Flat(t, path[..k])| == copied)
  }

  /** `n` bytes of the data, from `at` on, go to the front of the pbuf `x`. */
  function Filling(t: Store, x: Id, data: seq<byte>, at: nat, n: nat): Store
    requires x in t && n <= |t[x].data| && at + n <= |data|
  {
    WithData(t, x, data[at..at + n] + t[x].data[n..])
  }

  lemma FillStart(s: Store, path: seq<Id>, data: seq<byte>)
    requires Chain(s, path) && |data| <= |Flat(s, path)|
    ensures Filled(s, path, 0, data, 0, Flat(s, path))
  {
    assert path[..0] == [] && Flat(s, path)[0..] == Flat(s, path);
  }

  /** While bytes are left there is another pbuf to take them. */
  lemma FillMore(t: Store, path: seq<Id>, k: nat, data: seq<byte>, copied: nat, bytes: seq<byte>)
    requires Filled(t, path, k, data, copied, bytes) && copied < |data|
    ensures k < |path| && path[k] in t && t[path[k]].next == (if k + 1 < |path| then Some(path[k + 1]) else None)
  {
    assert path[..|path|] == path;
    assert k < |path| ==> LinkAt(t, path, k);
  }

  lemma FillStep(t: Store, path: seq<Id>, k: nat, data: seq<byte>, copied: nat, n: nat, bytes: seq<byte>)
    requires k < |path| && path[k] in t && Filled(t, path, k, data, copied, bytes) && copied < |data|
    requires n == Min(|data| - copied, |t[path[k]].data|)
    ensures Filled(Filling(t, path[k], data, copied, n), path, k + 1, data, copied + n, bytes)
  {
    var d := data[copied..copied + n] + t[path[k]].data[n..];
    DataChain(t, path, path[k], d);
    FillWhole(t, path, k, data, copied, n, bytes);
    FillLength(t, path, k, d);
  }

  lemma DataChain(s: Store, path: seq<Id>, x: Id, data: seq<byte>)
    requires Chain(s, path) && x in s
    ensures Chain(WithData(s, x, data), path)
  {
    var t := WithData(s, x, data);
    forall i | 0 <= i < |path| ensures SameNext(s, t, path[i]) { assert LinkAt(s, path, i); }
    ChainSame(s, t, path);
  }

  lemma FillLength(t: Store, path: seq<Id>, k: nat, d: seq<byte>)
    requires Distinct(path) && k < |path| && path[k] in t
    ensures |Flat(WithData(t, path[k], d), path[..k + 1])| == |Flat(t, path[..k])| + |d|
  {
    WriteFlat(t, path, k, d);
    PrefixStep(WithData(t, path[k], d), path, k);
  }

  lemma FillWhole(t: Store, path: seq<Id>, k: nat, data: seq<byte>, copied: nat, n: nat, bytes: seq<byte>)
    requires Distinct(path) && k < |path| && path[k] in t && n <= |t[path[k]].data| && copied + n <= |data|
    requires |Flat(t, path[..k])| == copied <= |bytes| && Flat(t, path) == data[..copied] + bytes[copied..]
    requires copied + n <= |bytes|
    ensures Flat(Filling(t, path[k], data, copied, n), path) == data[..copied + n] + bytes[copied + n..]
  {
    FillTarget(t, path, k, data, copied, n, bytes);
    FlatWritten(t, path, k, data[copied..copied + n] + t[path[k]].data[n..], data[..copied + n] + bytes[copied + n..]);
  }

  lemma FillTarget(t: Store, path: seq<Id>, k: nat, data: seq<byte>, copied: nat, n: nat, bytes: seq<byte>)
    requires k < |path| && path[k] in t && n <= |t[path[k]].data| && copied + n <= |data| && copied + n <= |bytes|
    requires |Flat(t, path[..k])| == copied && Flat(t, path) == data[..copied] + bytes[copied..]
    ensures Flat(t, path[..k]) + (data[copied..copied + n] + t[path[k]].data[n..]) + Flat(t, path[k + 1..])
            == data[..copied + n] + bytes[copied + n..]
  {
    Sections(t, path, k);
    Written(Flat(t, path[..k]), t[path[k]].data, Flat(t, path[k + 1..]), bytes, data, copied, n);
  }

  lemma FlatWritten(s: Store, path: seq<Id>, k: nat, data: seq<byte>, now: seq<byte>)
    requires Distinct(path) && k < |path| && path[k] in s
    requires Flat(s, path[..k]) + data + Flat(s, path[k + 1..]) == now
    ensures Flat(WithData(s, path[k], data), path) == now
  {
    WriteFlat(s, path, k, data);
  }

  lemma Written(a: seq<byte>, b: seq<byte>, c: seq<byte>, bytes: seq<byte>, data: seq<byte>, copied: nat, n: nat)
    requires |a| == copied <= |bytes| && copied + n <= |data| && n <= |b|
    requires a + (b + c) == data[..copied] + bytes[copied..]
    ensures a + (data[copied..copied + n] + b[n..]) + c == data[..copied + n] + bytes[copied + n..]
  {
    assert a == (a + (b + c))[..copied] == data[..copied];
    assert b + c == (a + (b + c))[copied..] == bytes[copied..];
    assert (b + c)[n..] == b[n..] + c;
    assert data[..copied + n] == data[..copied] + data[copied..copied + n];
  }

  // ----- pbuf_take_at

  /** The bytes from the end of the first `k` pbufs on are replaced by `mid`. */
  lemma WriteSuffix(s: Store, t: Store, path: seq<Id>, k: nat)
    requires Chain(s, path) && k <= |path| && Payload(s, t, path[k..])
    ensures Payload(s, t, path) && Flat(t, path) == Flat(s, path[..k]) + Flat(t, path[k..])
  {
    forall x | x in s ensures x in t && PayloadAt(s, t, path, x) {
      assert PayloadAt(s, t, path[k..], x);
      assert x in path[k..] ==> x in path;
    }
    forall i | 0 <= i < k ensures SameData(s, t, path[..k][i]) {
      assert LinkAt(s, path, i) && PayloadAt(s, t, path[k..], path[i]);
      forall j | 0 <= j < |path[k..]| ensures path[k..][j] != path[i] { assert Apart(path, i, k + j); }
    }
    FlatSame(s, t, path[..k]);
    FlatCut(t, path, k);
  }

  /** The part that goes into the pbuf with the offset, and the part for the pbufs behind it. */
  lemma WriteHead(s: Store, path: seq<Id>, k: nat, left: nat, part: seq<byte>)
    requires Chain(s, path) && k < |path| && path[k] in s && left + |part| <= |s[path[k]].data|
    ensures var t := WithData(s, path[k], Overwritten(s[path[k]].data, left, part));
            Payload(s, t, path[k..]) && Chain(t, path[k + 1..]) && Flat(t, path[k + 1..]) == Flat(s, path[k + 1..])
            && Flat(t, path[k..]) == Overwritten(s[path[k]].data, left, part) + Flat(s, path[k + 1..])
  {
    var d := Overwritten(s[path[k]].data, left, part);
    var t, r := WithData(s, path[k], d), path[k + 1..];
    assert path[k] == path[k..][0];
    forall x | x in s ensures x in t && PayloadAt(s, t, path[k..], x) { }
    ChainSuffix(s, path, k + 1);
    DataChain(s, r, path[k], d);
    WriteFlat(s, path, k, d);
    FlatAt(t, path, k);
  }

  /** pbuf_take: all or nothing, decided by the 16-bit total of the head. */
  method Take(s: Store, buf: Id, data: seq<byte>, ghost path: seq<Id>) returns (t: Store, err: Err)
    requires Chain(s, path) && Totals(s, path) && path != [] && path[0] == buf && |data| < TWO16
    ensures err == ERR_OK <==> |data| <= |Flat(s, path)| % TWO16
    ensures err == ERR_OK ==> && |data| <= |Flat(s, path)| && Payload(s, t, path)
                              && Flat(t, path) == data + Flat(s, path)[|data|..]
    ensures err == ERR_MEM ==> t == s
  {
    assert TotalAt(s, path, 0) && path[0..] == path;
    if s[buf].totLen < |data| { return s, ERR_MEM; }
    t := Fill(s, buf, data, path);
    err := ERR_OK;
  }

  lemma PayloadTwice(s: Store, t: Store, u: Store, path: seq<Id>, k: nat)
    requires k < |path| && Payload(s, t, path[k..]) && Payload(t, u, path[k + 1..])
    ensures Payload(s, u, path[k..])
  {
    assert path[k..][1..] == path[k + 1..];
    forall x | x in s ensures x in u && PayloadAt(s, u, path[k..], x) {
      assert x in t.Keys && PayloadAt(s, t, path[k..], x) && PayloadAt(t, u, path[k + 1..], x);
      assert x in path[k + 1..] ==> x in path[k..];
    }
  }

  /** What the total of the pbuf with the offset says about the pbufs behind it. */
  lemma RestTotal(b: nat, d: nat, n: nat)
    requires d < n <= b % TWO16
    ensures d <= b && (b - d) % TWO16 >= n - d
  {
    var k := b / TWO16;
    assert b == b % TWO16 + k * TWO16;
    assert b - d == (b % TWO16 - d) + k * TWO16;
    ModShift(b % TWO16 - d, k);
  }

  lemma Sections(s: Store, path: seq<Id>, k: nat)
    requires k < |path| && path[k] in s
    ensures Flat(s, path) == Flat(s, path[..k]) + (s[path[k]].data + Flat(s, path[k + 1..]))
  {
    FlatCut(s, path, k);
    FlatAt(s, path, k);
  }

  lemma OverwriteWithin(bytes: seq<byte>, a: seq<byte>, d: seq<byte>, r: seq<byte>, left: nat, data: seq<byte>)
    requires bytes == a + (d + r) && left + |data| <= |d|
    ensures Overwrites(a + Overwritten(d, left, data) + r, bytes, |a| + left, data)
  {
    var o := |a| + left;
    assert bytes[..o] == a + d[..left];
    assert bytes[o + |data|..] == d[left + |data|..] + r;
  }

  /** The first part of the data ends `d`, the rest of it begins what is behind. */
  predicate Across(now: seq<byte>, bytes: seq<byte>, a: seq<byte>, d: seq<byte>, r: seq<byte>, left: nat,
                   data: seq<byte>, first: nat) {
    && bytes == a + (d + r) && first <= |data| && left + first == |d| && |data| - first <= |r|
    && now == a + (Overwritten(d, left, data[..first]) + (data[first..] + r[|data| - first..]))
  }

  lemma OverwriteAcross(now: seq<byte>, bytes: seq<byte>, a: seq<byte>, d: seq<byte>, r: seq<byte>, left: nat,
                        data: seq<byte>, first: nat)
    requires Across(now, bytes, a, d, r, left, data, first)
    ensures Overwrites(now, bytes, |a| + left, data)
  {
    var o := |a| + left;
    assert bytes[..o] == a + d[..left];
    assert bytes[o + |data|..] == r[|data| - first..];
    assert data == data[..first] + data[first..] && d[left + first..] == [];
    assert Overwritten(d, left, data[..first]) == d[..left] + data[..first];
  }

  /** `n` bytes at the offset lie in the chain as far as the 16-bit total of the pbuf tells that holds the
      first of them. */
  predicate Reaches(s: Store, path: seq<Id>, offset: nat, n: nat) {
    var k := Holder(s, path, offset);
    && k < |path|
    && offset - |Flat(s, path[..k])| + n <= |Flat(s, path[k..])| % TWO16
  }

  lemma {:induction false} HolderAt(s: Store, path: seq<Id>, offset: nat)
    ensures var k := Holder(s, path, offset);
            && k <= |path| && |Flat(s, path[..k])| <= offset && (k < |path| <==> offset < |Flat(s, path)|)
  {
    var k := Holder(s, path, offset);
    if path == [] || offset < |DataOf(s, path[0])| {
      assert path[..k] == [];
    } else {
      HolderAt(s, path[1..], offset - |DataOf(s, path[0])|);
      assert path[..k][1..] == path[1..][..k - 1];
    }
  }

  /** In a chain below 65536 bytes that is the same as to lie in it; in a longer one it is less. */
  lemma ReachesFits(s: Store, path: seq<Id>, offset: nat, n: nat)
    ensures Reaches(s, path, offset, n) ==> offset < |Flat(s, path)| && offset + n <= |Flat(s, path)|
    ensures |Flat(s, path)| < TWO16 && offset < |Flat(s, path)| && offset + n <= |Flat(s, path)| ==>
              Reaches(s, path, offset, n)
  {
    HolderAt(s, path, offset);
    var k := Holder(s, path, offset);
    var before, rest := |Flat(s, path[..k])|, |Flat(s, path[k..])|;
    assert |Flat(s, path)| == before + rest by { FlatCut(s, path, k); }
    ReachNumbers(offset, before, rest, n);
  }

  /** A chain of two pbufs and 65536 bytes, with right totals, of which not even the first byte can be
      written. */
  lemma LongRefused(half: seq<byte>) returns (s: Store, path: seq<Id>)
    requires |half| == 0x8000
    ensures Chain(s, path) && Totals(s, path) && |Flat(s, path)| == TWO16 && !Reaches(s, path, 0, 1)
  {
    s := map[0 := Pbuf(Some(1), half, 0, 1, false), 1 := Pbuf(None, half, 0x8000, 1, false)];
    path := [0, 1];
    assert path[1..] == [1] && path[0..] == path && [1][1..] == [];
    assert Flat(s, [1]) == half + Flat(s, []) && Flat(s, path) == half + Flat(s, [1]);
    forall i | 0 <= i < 2 ensures LinkAt(s, path, i) && TotalAt(s, path, i) { }
    assert Holder(s, path, 0) == 0 && path[..0] == [];
  }

  lemma ReachNumbers(offset: nat, before: nat, rest: nat, n: nat)
    requires before <= offset
    ensures offset - before + n <= rest % TWO16 ==> offset + n <= before + rest
    ensures before + rest < TWO16 && offset + n <= before + rest ==> offset - before + n <= rest % TWO16
  {
  }

  /** pbuf_take_at. The data is written if the offset lies in the chain and the chain is long enough
      from there on, as far as its 16-bit total tells; otherwise nothing changes. In particular the
      inner pbuf_take cannot fail after the first part has been written. */
  method TakeAt(s: Store, buf: Option<Id>, data: seq<byte>, offset: nat, ghost path: seq<Id>)
    returns (t: Store, err: Err)
    requires Chain(s, path) && Totals(s, path) && buf == Head(path) && |data| < TWO16 && offset < TWO16
    ensures err == ERR_OK ==> && offset + |data| <= |Flat(s, path)| && Payload(s, t, path)
                              && Flat(t, path) == Overwritten(Flat(s, path), offset, data)
    ensures err == ERR_MEM ==> t == s
    ensures err == ERR_OK <==> Reaches(s, path, offset, |data|)
  {
    var q, left;
    ghost var k;
    q, left, k := SkipConst(s, buf, offset, path);
    if q.None? { return s, ERR_MEM; }
    assert TotalAt(s, path, k);
    FlatCut(s, path, k);
    if s[q.value].totLen < left + |data| { return s, ERR_MEM; }
    t, err := WriteFrom(s, q.value, data, left, path, k);
  }

  /** The writing half: the first part in place, the rest by pbuf_take. */
  method WriteFrom(s: Store, q: Id, data: seq<byte>, left: nat, ghost path: seq<Id>, ghost k: nat)
    returns (t: Store, err: Err)
    requires Chain(s, path) && Totals(s, path) && k < |path| && path[k] == q && q in s && |data| < TWO16
    requires left < |s[q].data| && left + |data| <= |Flat(s, path[k..])| % TWO16
    ensures err == ERR_OK && Payload(s, t, path)
    ensures Overwrites(Flat(t, path), Flat(s, path), |Flat(s, path[..k])| + left, data)
  {
    var first := Min(|s[q].data| - left, |data|);
    if |data| - first > 0 {
      t, err := WriteAcross(s, q, data, left, first, path, k);
    } else {
      t := WithData(s, q, Overwritten(s[q].data, left, data));
      err := ERR_OK;
      WroteWithin(s, path, k, left, data);
    }
  }

  /** The data does not fit the pbuf with the offset. */
  method WriteAcross(s: Store, q: Id, data: seq<byte>, left: nat, first: nat, ghost path: seq<Id>, ghost k: nat)
    returns (t: Store, err: Err)
    requires Chain(s, path) && Totals(s, path) && k < |path| && path[k] == q && q in s && |data| < TWO16
    requires first < |data| && left + first == |s[q].data| && left + |data| <= |Flat(s, path[k..])| % TWO16
    ensures err == ERR_OK && Payload(s, t, path)
    ensures Overwrites(Flat(t, path), Flat(s, path), |Flat(s, path[..k])| + left, data)
  {
    var u := WithData(s, q, Overwritten(s[q].data, left, data[..first]));
    RestReady(s, path, k, left, data, first);
    t, err := Take(u, s[q].next.value, data[first..], path[k + 1..]);
    WroteAcross(s, u, t, path, k, left, data, first);
  }

  /** After the first part the rest of the chain is as it was, and long enough by its own total. */
  lemma RestReady(s: Store, path: seq<Id>, k: nat, left: nat, data: seq<byte>, first: nat)
    requires Chain(s, path) && Totals(s, path) && k < |path| && path[k] in s
    requires first < |data| && left + first == |s[path[k]].data| && left + |data| <= |Flat(s, path[k..])| % TWO16
    ensures var u := WithData(s, path[k], Overwritten(s[path[k]].data, left, data[..first]));
            && k + 1 < |path| && s[path[k]].next == Some(path[k + 1])
            && Chain(u, path[k + 1..]) && Totals(u, path[k + 1..]) && Flat(u, path[k + 1..]) == Flat(s, path[k + 1..])
            && |data| - first <= |Flat(s, path[k + 1..])| % TWO16
  {
    var u := WithData(s, path[k], Overwritten(s[path[k]].data, left, data[..first]));
    WriteHead(s, path, k, left, data[..first]);
    RestThere(s, path, k, left + |data|);
    RestWhole(s, u, path, k);
  }

  lemma WroteWithin(s: Store, path: seq<Id>, k: nat, left: nat, data: seq<byte>)
    requires Chain(s, path) && k < |path| && path[k] in s && left + |data| <= |s[path[k]].data|
    ensures var t := WithData(s, path[k], Overwritten(s[path[k]].data, left, data));
            Payload(s, t, path) && Overwrites(Flat(t, path), Flat(s, path), |Flat(s, path[..k])| + left, data)
  {
    PayloadSame(s, path);
    PayloadStep(s, s, path, path[k], Overwritten(s[path[k]].data, left, data));
    WithinBytes(s, path, k, left, data);
  }

  lemma WithinBytes(s: Store, path: seq<Id>, k: nat, left: nat, data: seq<byte>)
    requires Distinct(path) && k < |path| && path[k] in s && left + |data| <= |s[path[k]].data|
    ensures var t := WithData(s, path[k], Overwritten(s[path[k]].data, left, data));
            Overwrites(Flat(t, path), Flat(s, path), |Flat(s, path[..k])| + left, data)
  {
    var a, d, r := Flat(s, path[..k]), s[path[k]].data, Flat(s, path[k + 1..]);
    OverwriteWithin(Flat(s, path), a, d, r, left, data) by { Sections(s, path, k); }
    FlatWritten(s, path, k, Overwritten(d, left, data), a + Overwritten(d, left, data) + r);
  }

  /** `part` went to the pbuf with the offset, `rest` to the pbufs behind it. */
  lemma AcrossParts(s: Store, u: Store, t: Store, path: seq<Id>, k: nat, part: seq<byte>)
    requires Chain(s, path) && k < |path| && path[k] in s && |part| == |s[path[k]].data|
    requires u == WithData(s, path[k], part) && Payload(u, t, path[k + 1..])
    ensures Payload(s, t, path) && Flat(t, path) == Flat(s, path[..k]) + (part + Flat(t, path[k + 1..]))
  {
    PayloadOne(s, path, k, part);
    PayloadTwice(s, u, t, path, k);
    WriteSuffix(s, t, path, k);
    AcrossFlat(u, t, path, k);
  }

  lemma PayloadOne(s: Store, path: seq<Id>, k: nat, part: seq<byte>)
    requires k < |path| && path[k] in s && |part| == |s[path[k]].data|
    ensures Payload(s, WithData(s, path[k], part), path[k..])
  {
    PayloadSame(s, path[k..]);
    assert path[k] == path[k..][0];
    PayloadStep(s, s, path[k..], path[k], part);
  }

  lemma WroteAcross(s: Store, u: Store, t: Store, path: seq<Id>, k: nat, left: nat, data: seq<byte>, first: nat)
    requires Chain(s, path) && k < |path| && path[k] in s && first <= |data| && left + first == |s[path[k]].data|
    requires u == WithData(s, path[k], Overwritten(s[path[k]].data, left, data[..first]))
    requires Payload(u, t, path[k + 1..]) && |data| - first <= |Flat(s, path[k + 1..])|
    requires Flat(t, path[k + 1..]) == data[first..] + Flat(s, path[k + 1..])[|data| - first..]
    ensures Payload(s, t, path) && Overwrites(Flat(t, path), Flat(s, path), |Flat(s, path[..k])| + left, data)
  {
    AcrossParts(s, u, t, path, k, Overwritten(s[path[k]].data, left, data[..first]));
    AcrossBytes(s, path, k, left, data, first, Flat(t, path));
  }

  lemma AcrossBytes(s: Store, path: seq<Id>, k: nat, left: nat, data: seq<byte>, first: nat, now: seq<byte>)
    requires k < |path| && path[k] in s && first <= |data| && left + first == |s[path[k]].data|
    requires |data| - first <= |Flat(s, path[k + 1..])|
    requires now == Flat(s, path[..k]) + (Overwritten(s[path[k]].data, left, data[..first])
                                          + (data[first..] + Flat(s, path[k + 1..])[|data| - first..]))
    ensures Overwrites(now, Flat(s, path), |Flat(s, path[..k])| + left, data)
  {
    Sections(s, path, k);
    OverwriteAcross(now, Flat(s, path), Flat(s, path[..k]), s[path[k]].data, Flat(s, path[k + 1..]), left, data, first);
  }

  lemma RestThere(s: Store, path: seq<Id>, k: nat, n: nat)
    requires Chain(s, path) && k < |path| && path[k] in s && |s[path[k]].data| < n <= |Flat(s, path[k..])| % TWO16
    ensures k + 1 < |path| && s[path[k]].next == Some(path[k + 1])
    ensures |Flat(s, path[k + 1..])| % TWO16 >= n - |s[path[k]].data|
  {
    FlatAt(s, path, k);
    RestTotal(|Flat(s, path[k..])|, |s[path[k]].data|, n);
    assert LinkAt(s, path, k);
  }

  lemma RestWhole(s: Store, t: Store, path: seq<Id>, k: nat)
    requires Chain(s, path) && Totals(s, path) && k < |path| && Payload(s, t, path[k..])
    ensures Totals(t, path[k + 1..])
  {
    TotalsSuffix(s, path, k + 1);
    var r := path[k + 1..];
    forall i | 0 <= i < |r| ensures TotalAt(t, r, i) {
      assert TotalAt(s, r, i) && PayloadAt(s, t, path[k..], r[i]);
      SameLength(s, t, path[k..], r[i..]);
    }
  }

  lemma AcrossFlat(u: Store, t: Store, path: seq<Id>, k: nat)
    requires Distinct(path) && k < |path| && path[k] in u && Payload(u, t, path[k + 1..])
    ensures Flat(t, path[k..]) == DataOf(u, path[k]) + Flat(t, path[k + 1..])
  {
    assert PayloadAt(u, t, path[k + 1..], path[k]);
    var r := path[k + 1..];
    forall j | 0 <= j < |r| ensures r[j] != path[k] { assert Apart(path, k, k + 1 + j); }
    FlatAt(t, path, k);
  }
}
