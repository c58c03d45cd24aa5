/** inet_chksum.c on a little-endian host: the three versions of lwip_standard_chksum, and the
    sums over pbuf chains with and without an IPv4 pseudo-header.

    Accumulators are 32 bits wide and wrap; the contracts show that no carry is lost for the
    lengths the source admits. */
module Checksum {
  import opened Basics
  import opened InternetSum

  function AddU32(a: int, b: int): (r: int)
    ensures 0 <= r < TWO32 && (0 <= a + b < TWO32 ==> r == a + b)
  {
    (a + b) % TWO32
  }

  /** What lwip_standard_chksum returns: the RFC 1071 sum as a u16_t in host byte order. */
  function HostOrder(d: seq<byte>): int { Swap(RfcSum(d)) }

  /** Two FOLD_U32T reduce any 32-bit sum to its 16-bit value. */
  method FoldTwice(u: int) returns (r: int)
    requires 0 <= u < TWO32
    ensures Same(r, u) && r <= M
  {
    FoldSame(u);
    var v := Fold(u);
    FoldSame(v);
    r := Fold(v);
    SameTrans(r, v, u);
  }

  /** What versions 1 and 2 return for a 32-bit sum: folded twice, the bytes swapped if it was taken in the
      other byte order. */
  function Finished(sum: int, swapped: bool): int {
    if swapped then Swap(Fold(Fold(sum))) else Fold(Fold(sum))
  }

  /** The value for the data, with whatever carry 32 bits lose. Version 1 adds in network order; so does
      version 2 from an odd address on, otherwise it adds in host order. */
  function Returned(d: seq<byte>, net: bool): int { Finished(WordSum(d, net) % TWO32, net) }

  predicate ReturnsRight(d: seq<byte>, net: bool) { Returned(d, net) == HostOrder(d) }

  /** Version 1: two bytes at a time, most significant first, byte order restored at the end. */
  method StandardChksum1(d: seq<byte>) returns (r: int)
    ensures r == Returned(d, true) && (|d| <= MAX_LEN ==> r == HostOrder(d))
  {
    ReturnedFits(d, true);
    var acc := SumBigEndian(d);
    FoldSmall(Fold(acc));
    acc := Fold(acc);
    if acc >= 65536 {
      acc := Fold(acc);
    }
    r := Swap(acc);
  }

  lemma FoldSmall(u: int)
    ensures 0 <= u < 65536 ==> Fold(u) == u
  {
  }

  /** Up to the limit no carry is lost. */
  lemma ReturnedFits(d: seq<byte>, net: bool)
    ensures |d| <= MAX_LEN ==> ReturnsRight(d, net)
  {
    if |d| <= MAX_LEN {
      ShortRight(d, net);
      ReturnedRight(d, net);
    }
  }

  lemma AddWraps(acc: int, x: int, rest: int)
    ensures (AddU32(acc, x) + rest) % TWO32 == (acc + (x + rest)) % TWO32
  {
    var q := (acc + x) / TWO32;
    assert acc + x == AddU32(acc, x) + q * TWO32;
    WrapBy(AddU32(acc, x) + rest, q);
  }

  method SumBigEndian(d: seq<byte>) returns (acc: int)
    ensures acc == NetSum(d) % TWO32
  {
    var i, len := 0, |d|;
    acc := 0;
    assert d[0..] == d;
    while len > 1
      invariant 0 <= i && len == |d| - i >= 0
      invariant 0 <= acc < TWO32 && (acc + NetSum(d[i..])) % TWO32 == NetSum(d) % TWO32
    {
      SumFrom(d, i);
      AddWraps(acc, Be(d[i], d[i + 1]), NetSum(d[i + 2..]));
      acc := AddU32(acc, Be(d[i], d[i + 1]));
      i, len := i + 2, len - 2;
    }
    SumFrom(d, i);
    if len > 0 {
      AddWraps(acc, Be(d[i], 0), 0);
      acc := AddU32(acc, Be(d[i], 0));
    }
  }

  /** Version 2: 16-bit words from the first even address on; the bytes before and after are
      put in the two halves of `t`, and an odd start is undone by swapping the result. */
  method StandardChksum2(d: seq<byte>, addr: nat) returns (r: int)
    ensures r == Returned(d, addr % 2 == 1) && (|d| <= MAX_LEN ==> r == HostOrder(d))
  {
    var odd := addr % 2 == 1;
    ReturnedFits(d, odd);
    var sum := SumFromEven(d, odd);
    r := Finish(odd, sum);
  }

  /** As the callers use it. */
  method ShortChksum(d: seq<byte>, addr: nat) returns (r: int)
    requires |d| <= 0xFFFF
    ensures r == HostOrder(d)
  {
    r := StandardChksum2(d, addr);
  }

  /** The end of versions 2 and 3: fold twice, then undo an odd start. */
  method Finish(odd: bool, sum: int) returns (r: int)
    ensures r == Finished(sum, odd)
  {
    r := Fold(sum);
    r := Fold(r);
    if odd { r := Swap(r); }
  }

  lemma FinishedSame(d: seq<byte>, net: bool, sum: int)
    requires Same(sum, WordSum(d, net)) && sum < TWO32
    ensures Finished(sum, net) == HostOrder(d)
  {
    FoldedTwice(sum);
    var f := Fold(Fold(sum));
    SameTrans(f, sum, WordSum(d, net));
    if net { NetValue(f, d); } else { HostValue(f, d); }
  }

  lemma FoldedTwice(u: int)
    requires 0 <= u < TWO32
    ensures Same(Fold(Fold(u)), u) && Fold(Fold(u)) <= M
  {
    FoldSame(u);
    FoldSame(Fold(u));
    SameTrans(Fold(Fold(u)), Fold(u), u);
  }

  /** The returned value is right for a buffer exactly if the wrapped sum stands for the true one. */
  lemma ReturnedRight(d: seq<byte>, net: bool)
    ensures ReturnsRight(d, net) <==> SumRight(d, net)
  {
    var s := WordSum(d, net) % TWO32;
    FoldedTwice(s);
    if Same(s, WordSum(d, net)) { FinishedSame(d, net, s); }
    if Returned(d, net) == HostOrder(d) { ReturnedBack(d, net, s); }
  }

  lemma ReturnedBack(d: seq<byte>, net: bool, s: int)
    requires 0 <= s < TWO32 && Finished(s, net) == HostOrder(d)
    ensures Same(s, WordSum(d, net))
  {
    FoldedTwice(s);
    var f := Fold(Fold(s));
    RfcIsNet(d);
    SwapSame(RfcSum(d));
    SwapSame(f);
    Flip(RfcSum(d), d);
    SameAgain(f, s, WordSum(d, net));
  }

  /** Version 1, and version 2 from either alignment, return the right value for all data of a length
      exactly if the length is at most MAX_LEN, two more than the source claims. */
  lemma LengthExact(n: nat, net: bool)
    ensures (forall d: seq<byte> | |d| == n :: ReturnsRight(d, net)) <==> n <= MAX_LEN
  {
    LimitExact(n, net);
    forall d: seq<byte> ensures ReturnsRight(d, net) <==> SumRight(d, net) { ReturnedRight(d, net); }
  }

  method SumFromEven(d: seq<byte>, odd: bool) returns (sum: int)
    ensures sum == WordSum(d, odd) % TWO32
  {
    var i, len, tLow, tHigh := 0, |d|, 0, 0;
    sum := 0;
    ghost var total := WordSum(d, odd);
    assert d[0..] == d;
    if odd && len > 0 {
      tHigh := Le(0, d[0]);
      i, len := 1, len - 1;
      SumCons(d[0], d[1..]);
      assert d == [d[0]] + d[1..];
    }
    while len > 1
      invariant 0 <= i && len == |d| - i >= 0
      invariant 0 <= sum < TWO32 && (sum + (tHigh + HostSum(d[i..]))) % TWO32 == total % TWO32
    {
      SumFrom(d, i);
      AddWraps(sum, Le(d[i], d[i + 1]), tHigh + HostSum(d[i + 2..]));
      sum := AddU32(sum, Le(d[i], d[i + 1]));
      i, len := i + 2, len - 2;
    }
    SumFrom(d, i);
    if len > 0 {
      tLow := Le(d[i], 0);
    }
    sum := AddU32(sum, tLow + tHigh);
  }

  // ----- version 3

  /** The "ping" and "pong" additions: a 32-bit sum with the carry added back. */
  function AddCarry(s: int, x: int): int {
    var tmp := AddU32(s, x);
    if tmp < s then tmp + 1 else tmp
  }

  lemma AddCarrySame(s: int, x: int)
    requires 0 <= s < TWO32 && 0 <= x < TWO32
    ensures Same(AddCarry(s, x), s + x) && AddCarry(s, x) < TWO32
  {
    if s + x >= TWO32 {
      assert AddU32(s, x) == s + x - TWO32;
      assert Laps(AddCarry(s, x), s + x, 65537);
    } else {
      SameSelf(s + x);
    }
  }

  /** A 32-bit load of two words. */
  function Load32(w0: int, w1: int): int { w0 + 65536 * w1 }

  lemma Load32Same(w0: int, w1: int)
    requires 0 <= w0 <= M && 0 <= w1 <= M
    ensures Same(Load32(w0, w1), w0 + w1) && Load32(w0, w1) < TWO32
  {
    assert Laps(Load32(w0, w1), w0 + w1, -w1);
  }

  /** One ping-pong round adds eight bytes. */
  lemma RoundSame(s: int, a: int, w0: int, w1: int, w2: int, w3: int)
    requires Same(s, a) && s < TWO32
    requires 0 <= w0 <= M && 0 <= w1 <= M && 0 <= w2 <= M && 0 <= w3 <= M
    ensures var t := AddCarry(AddCarry(s, Load32(w0, w1)), Load32(w2, w3));
            Same(t, a + w0 + w1 + w2 + w3) && t < TWO32
  {
    HalfRound(s, a, w0, w1);
    HalfRound(AddCarry(s, Load32(w0, w1)), a + w0 + w1, w2, w3);
  }

  lemma HalfRound(s: int, a: int, w0: int, w1: int)
    requires Same(s, a) && s < TWO32 && 0 <= w0 <= M && 0 <= w1 <= M
    ensures Same(AddCarry(s, Load32(w0, w1)), a + w0 + w1) && AddCarry(s, Load32(w0, w1)) < TWO32
  {
    var x := Load32(w0, w1);
    Load32Same(w0, w1);
    AddCarrySame(s, x);
    SameAdd(s, a, x, w0 + w1);
    SameTrans(AddCarry(s, x), s + x, a + (w0 + w1));
  }

  lemma SumEight(d: seq<byte>, i: nat)
    requires i + 8 <= |d|
    ensures HostSum(d[i..]) == Le(d[i], d[i + 1]) + Le(d[i + 2], d[i + 3]) + Le(d[i + 4], d[i + 5])
                               + Le(d[i + 6], d[i + 7]) + HostSum(d[i + 8..])
  {
    SumFrom(d, i);
    SumFrom(d, i + 2);
    SumFrom(d, i + 4);
    SumFrom(d, i + 6);
  }

  /** The unrolled loop of version 3, eight bytes per round, and the fold after it. */
  method SumRounds(d: seq<byte>, i0: nat, sum0: int) returns (sum: int, i: nat, ghost a: int)
    requires i0 <= |d| && 0 <= sum0 < TWO32
    ensures i0 <= i <= |d| && |d| - i <= 7
    ensures Same(sum, a) && sum <= 2 * M && a + HostSum(d[i..]) == sum0 + HostSum(d[i0..])
  {
    sum, i, a := sum0, i0, sum0;
    SameSelf(sum0);
    while |d| - i > 7
      invariant i0 <= i <= |d|
      invariant Same(sum, a) && sum < TWO32 && a + HostSum(d[i..]) == sum0 + HostSum(d[i0..])
    {
      var w0, w1, w2, w3 := Le(d[i], d[i + 1]), Le(d[i + 2], d[i + 3]), Le(d[i + 4], d[i + 5]), Le(d[i + 6], d[i + 7]);
      SumEight(d, i);
      RoundSame(sum, a, w0, w1, w2, w3);
      var tmp := AddCarry(sum, Load32(w0, w1));
      sum := AddCarry(tmp, Load32(w2, w3));
      a := a + w0 + w1 + w2 + w3;
      i := i + 8;
    }
    FoldSame(sum);
    SameTrans(Fold(sum), sum, a);
    sum := Fold(sum);
  }

  /** The last words and the two end bytes of version 3. */
  method SumTail(d: seq<byte>, i0: nat, sum0: int, tHigh: int) returns (sum: int)
    requires i0 <= |d| && |d| - i0 <= 7 && 0 <= sum0 <= 2 * M && 0 <= tHigh <= M
    ensures sum == sum0 + tHigh + HostSum(d[i0..]) < TWO32
  {
    var i, tLow := i0, 0;
    sum := sum0;
    while |d| - i > 1
      invariant i0 <= i <= |d|
      invariant sum0 <= sum && sum + HostSum(d[i..]) == sum0 + HostSum(d[i0..])
    {
      SumFrom(d, i);
      sum := AddU32(sum, Le(d[i], d[i + 1]));
      i := i + 2;
    }
    SumFrom(d, i);
    if |d| - i > 0 {
      tLow := Le(d[i], 0);
    }
    sum := AddU32(sum, tLow + tHigh);
  }

  /** The start of version 3: align to 16, then to 32 bits. */
  method AlignStart(d: seq<byte>, addr: nat) returns (i: nat, tHigh: int, sum: int)
    ensures i <= |d| && 0 <= tHigh <= M && 0 <= sum <= M
    ensures sum + tHigh + HostSum(d[i..]) == if addr % 2 == 1 then NetSum(d) else HostSum(d)
  {
    i, tHigh, sum := 0, 0, 0;
    assert d[0..] == d;
    if addr % 2 == 1 && |d| > 0 {
      tHigh := Le(0, d[0]);
      i := 1;
      SumCons(d[0], d[1..]);
      assert d == [d[0]] + d[1..];
    }
    if (addr + i) % 4 != 0 && |d| - i > 1 {
      SumFrom(d, i);
      sum := Le(d[i], d[i + 1]);
      i := i + 2;
    }
  }

  /** Version 3: align, eight bytes at a time with the carries added back, and the rest as in
      version 2. It has no limit on the length. */
  method StandardChksum3(d: seq<byte>, addr: nat) returns (r: int)
    ensures r == HostOrder(d)
  {
    var i, tHigh, sum := AlignStart(d, addr);
    ghost var a;
    sum, i, a := SumRounds(d, i, sum);
    ghost var rest := tHigh + HostSum(d[i..]);
    SameSelf(rest);
    SameAdd(sum, a, rest, rest);
    sum := SumTail(d, i, sum, tHigh);
    FinishedSame(d, addr % 2 == 1, sum);
    r := Finish(addr % 2 == 1, sum);
  }

  // ----- chains

  predicate Odd(n: int) { n % 2 == 1 }

  lemma OddAdd(a: int, b: int)
    ensures Odd(a + b) == (Odd(a) != Odd(b))
  {
  }

  lemma AddCases(p: seq<byte>, q: seq<byte>)
    ensures NetSum(p + q) == NetSum(p) + (if Odd(|p|) then HostSum(q) else NetSum(q))
    ensures HostSum(p + q) == HostSum(p) + (if Odd(|p|) then NetSum(q) else HostSum(q))
  {
    if Odd(|p|) { SumAppendOdd(p, q); } else { SumAppendEven(p, q); }
  }

  predicate Payloads(pieces: seq<seq<byte>>) {
    forall k | 0 <= k < |pieces| :: |pieces[k]| <= 0xFFFF
  }

  /** The accumulator of a chain loop after the bytes `p`: while an odd number of bytes has
      been summed it is kept byte-swapped. */
  ghost predicate Running(acc: int, swapped: bool, p: seq<byte>) {
    0 <= acc <= M && Same(acc, if swapped then NetSum(p) else HostSum(p))
  }

  lemma HostOrderSame(d: seq<byte>)
    ensures 0 <= HostOrder(d) <= M && Same(HostOrder(d), HostSum(d))
  {
    RfcIsNet(d);
    SwapSame(RfcSum(d));
    Flip(RfcSum(d), d);
  }

  /** Adding the sum of a piece and folding. */
  lemma AddPiece(acc: int, swapped: bool, p: seq<byte>, q: seq<byte>)
    requires Running(acc, swapped, p) && swapped == Odd(|p|)
    ensures Running(Fold(acc + HostOrder(q)), swapped, p + q)
  {
    HostOrderSame(q);
    AddSum(acc, swapped, p, q, HostOrder(q));
  }

  lemma AddSum(acc: int, swapped: bool, p: seq<byte>, q: seq<byte>, c: int)
    requires Running(acc, swapped, p) && swapped == Odd(|p|) && c <= M && Same(c, HostSum(q))
    ensures Running(Fold(acc + c), swapped, p + q)
  {
    FoldAdd(acc, if swapped then NetSum(p) else HostSum(p), c, HostSum(q));
    AddCases(p, q);
  }

  lemma Swapping(acc: int, swapped: bool, p: seq<byte>)
    requires Running(acc, swapped, p)
    ensures Running(Swap(acc), !swapped, p)
  {
    SwapSame(acc);
    Flip(acc, p);
  }

  /** The body of the chain loops. */
  method AddPbuf(acc: int, swapped: bool, ghost p: seq<byte>, q: seq<byte>, addr: nat)
    returns (acc': int, swapped': bool)
    requires Running(acc, swapped, p) && swapped == Odd(|p|) && |q| <= 0xFFFF
    ensures Running(acc', swapped', p + q) && swapped' == Odd(|p + q|)
  {
    var c := ShortChksum(q, addr);
    AddPiece(acc, swapped, p, q);
    OddAdd(|p|, |q|);
    acc', swapped' := Fold(acc + c), swapped;
    if Odd(|q|) {
      Swapping(acc', swapped, p + q);
      swapped' := !swapped;
      acc' := Swap(acc');
    }
  }

  /** The loop shared by the chain checksums. `head` is data of even length already in acc. */
  method SumChain(pieces: seq<seq<byte>>, addrs: seq<nat>, ghost head: seq<byte>, acc0: int) returns (acc: int)
    requires Payloads(pieces) && |addrs| == |pieces|
    requires !Odd(|head|) && Running(acc0, false, head)
    ensures Running(acc, false, head + Flatten(pieces))
  {
    var i, swapped := 0, false;
    acc := acc0;
    ghost var p := head;
    while i < |pieces|
      invariant 0 <= i <= |pieces|
      invariant p == head + Flatten(pieces[..i])
      invariant Running(acc, swapped, p) && swapped == Odd(|p|)
    {
      acc, swapped := AddPbuf(acc, swapped, p, pieces[i], addrs[i]);
      HeadGrows(pieces, i, head);
      p := p + pieces[i];
      i := i + 1;
    }
    assert pieces[..|pieces|] == pieces;
    acc := SwapBack(acc, swapped, p);
  }

  lemma HeadGrows(pieces: seq<seq<byte>>, i: nat, head: seq<byte>)
    requires i < |pieces|
    ensures head + Flatten(pieces[..i]) + pieces[i] == head + Flatten(pieces[..i + 1])
  {
    FlattenSnoc(pieces, i);
  }

  /** The end of the chain loops. */
  method SwapBack(acc: int, swapped: bool, ghost p: seq<byte>) returns (r: int)
    requires Running(acc, swapped, p)
    ensures Running(r, false, p)
  {
    r := acc;
    if swapped {
      Swapping(acc, swapped, p);
      r := Swap(r);
    }
  }

  /** inet_chksum. */
  method InetChksum(d: seq<byte>, addr: nat) returns (r: int)
    requires |d| <= 0xFFFF
    ensures r == M - HostOrder(d)
  {
    var c := ShortChksum(d, addr);
    r := M - c;
  }

  /** inet_chksum_pbuf: the split into pbufs does not matter. */
  method InetChksumPbuf(pieces: seq<seq<byte>>, addrs: seq<nat>) returns (r: int)
    requires Payloads(pieces) && |addrs| == |pieces|
    ensures r == M - HostOrder(Flatten(pieces))
  {
    SameSelf(0);
    var acc := SumChain(pieces, addrs, [], 0);
    assert [] + Flatten(pieces) == Flatten(pieces);
    HostValue(acc, Flatten(pieces));
    r := M - acc;
  }

  /** The value returned is meant to be stored as it is: on a little-endian host its bytes in
      memory are the complement of the RFC sum in network order. */
  lemma StoredInPlace(d: seq<byte>)
    ensures var r, c := M - HostOrder(d), M - RfcSum(d);
            r % 256 == c / 256 && r / 256 == c % 256
  {
    RfcIsNet(d);
    ComplementBytes(RfcSum(d));
  }

  lemma ComplementBytes(x: int)
    requires 0 <= x <= M
    ensures var r, c := M - Swap(x), M - x;
            r % 256 == c / 256 && r / 256 == c % 256
  {
    var h, l := x / 256, x % 256;
    SwapBytes(x, h, l);
    Digits(M - Swap(x), 255 - l, 255 - h);
    Digits(M - x, 255 - h, 255 - l);
  }

  lemma Digits(n: int, h: int, l: int)
    requires n == 256 * h + l && 0 <= l < 256
    ensures n / 256 == h && n % 256 == l
  {
  }

  // ----- pseudo-headers

  /** The 12-byte IPv4 pseudo-header of section 3.1 of RFC 9293. */
  function PseudoHeader(src: seq<byte>, dst: seq<byte>, proto: byte, protoLen: int): seq<byte>
    requires 0 <= protoLen <= 0xFFFF
  {
    src + dst + [0, proto, protoLen / 256, protoLen % 256]
  }

  lemma Sum4(d: seq<byte>)
    requires |d| == 4
    ensures HostSum(d) == Le(d[0], d[1]) + Le(d[2], d[3])
  {
    assert d[2..][2..] == [];
  }

  /** Moving the last four pseudo-header bytes behind the data does not change the sum. */
  lemma PseudoSum(head: seq<byte>, tail: seq<byte>, data: seq<byte>)
    requires !Odd(|head|) && !Odd(|tail|)
    ensures HostSum(head + tail + data) == HostSum(head + data) + HostSum(tail)
  {
    OddAdd(|head|, |tail|);
    AddCases(head + tail, data);
    AddCases(head, tail);
    AddCases(head, data);
  }

  /** The four address words, folded. */
  method SumAddresses(src: seq<byte>, dst: seq<byte>) returns (acc: int)
    requires |src| == 4 && |dst| == 4
    ensures Running(acc, false, src + dst)
  {
    Sum4(src);
    Sum4(dst);
    SumAppendEven(src, dst);
    var u := Le(src[0], src[1]) + Le(src[2], src[3]) + Le(dst[0], dst[1]) + Le(dst[2], dst[3]);
    acc := FoldTwice(u);
  }

  /** The end of the pseudo-header sums: protocol and length in network byte order. */
  method AddProto(acc: int, ghost head: seq<byte>, ghost data: seq<byte>, proto: byte, protoLen: int) returns (r: int)
    requires !Odd(|head|) && Running(acc, false, head + data) && 0 <= protoLen <= 0xFFFF
    ensures r == M - HostOrder(head + [0, proto, protoLen / 256, protoLen % 256] + data)
  {
    ghost var tail: seq<byte> := [0, proto, protoLen / 256, protoLen % 256];
    ghost var all := head + tail + data;
    Sum4(tail);
    PseudoSum(head, tail, data);
    Htons(proto);
    Htons(protoLen);
    var t := Swap(proto) + Swap(protoLen);
    r := Complemented(acc, HostSum(head + data), t, all);
  }

  method Complemented(acc: int, ghost a: int, t: int, ghost all: seq<byte>) returns (r: int)
    requires Same(acc, a) && acc <= M && 0 <= t <= 2 * M && a + t == HostSum(all)
    ensures r == M - HostOrder(all)
  {
    SameSelf(t);
    SameAdd(acc, a, t, t);
    var v := FoldTwice(acc + t);
    SameTrans(v, acc + t, HostSum(all));
    HostValue(v, all);
    r := M - v;
  }

  /** lwip_htons gives the two bytes of a number in network order. */
  lemma Htons(n: int)
    requires 0 <= n <= M
    ensures Swap(n) == Le(n / 256, n % 256) && (n < 256 ==> Swap(n) == Le(0, n))
    ensures 0 <= Swap(n) <= M
  {
    SwapBytes(n, n / 256, n % 256);
  }

  /** inet_chksum_pseudo and inet_cksum_pseudo_base. */
  method InetChksumPseudo(pieces: seq<seq<byte>>, addrs: seq<nat>, proto: byte, protoLen: int,
                          src: seq<byte>, dst: seq<byte>)
    returns (r: int)
    requires Payloads(pieces) && |addrs| == |pieces| && 0 <= protoLen <= 0xFFFF && |src| == 4 && |dst| == 4
    ensures r == M - HostOrder(PseudoHeader(src, dst, proto, protoLen) + Flatten(pieces))
  {
    var acc := SumAddresses(src, dst);
    acc := SumChain(pieces, addrs, src + dst, acc);
    r := AddProto(acc, src + dst, Flatten(pieces), proto, protoLen);
  }

  /** The chain loop of inet_cksum_pseudo_partial_base, over the first chksumLen bytes. The
      parity test looks at the whole last pbuf rather than at the part that was summed, which
      is harmless because nothing follows. `tripped` reports the assertion in the loop. */
  method SumChainPartial(pieces: seq<seq<byte>>, addrs: seq<nat>, chksumLen: nat, ghost head: seq<byte>, acc0: int)
    returns (acc: int, tripped: bool)
    requires Payloads(pieces) && |addrs| == |pieces| && chksumLen <= 0xFFFF
    requires !Odd(|head|) && Running(acc0, false, head)
    ensures Running(acc, false, head + Flatten(pieces)[..Min(chksumLen, |Flatten(pieces)|)])
    ensures tripped <==> pieces != [] && chksumLen - |pieces[0]| >= 0x7FFF
  {
    var i, swapped, left := 0, false, chksumLen;
    acc, tripped := acc0, false;
    ghost var done: seq<byte> := [];
    assert head + [] == head;
    while i < |pieces| && left > 0
      invariant 0 <= i <= |pieces| && 0 <= left && (i == 0 ==> left == chksumLen)
      invariant Progress(pieces, i, done, left, chksumLen) && Running(acc, swapped, head + done)
      invariant left > 0 ==> swapped == Odd(|head + done|)
      invariant tripped <==> i > 0 && chksumLen - |pieces[0]| >= 0x7FFF
      invariant i > 0 && left > 0 ==> left <= chksumLen - |pieces[0]|
    {
      var q := pieces[i];
      var chklen := Min(|q|, left);
      ProgressStep(pieces, i, done, left, chksumLen, head);
      acc, swapped := AddPbufPart(acc, swapped, head + done, q, chklen, addrs[i]);
      done := done + q[..chklen];
      left := left - chklen;
      if left >= 0x7FFF { tripped := true; }
      i := i + 1;
    }
    ProgressEnds(pieces, i, done, left, chksumLen);
    acc := SwapBack(acc, swapped, head + done);
  }

  /** The first bytes of the chain are done, and `left` are still to come. */
  ghost predicate Progress(pieces: seq<seq<byte>>, i: nat, done: seq<byte>, left: int, chksumLen: nat) {
    && |done| + left == chksumLen && done <= Flatten(pieces)
    && (left > 0 ==> i <= |pieces| && done == Flatten(pieces[..i]))
  }

  lemma ProgressStep(pieces: seq<seq<byte>>, i: nat, done: seq<byte>, left: int, chksumLen: nat, head: seq<byte>)
    requires Progress(pieces, i, done, left, chksumLen) && i < |pieces| && left > 0
    ensures var part := pieces[i][..Min(|pieces[i]|, left)];
            && Progress(pieces, i + 1, done + part, left - |part|, chksumLen)
            && head + (done + part) == head + done + part
  {
    PrefixGrows(pieces, i, Min(|pieces[i]|, left));
  }

  lemma ProgressEnds(pieces: seq<seq<byte>>, i: nat, done: seq<byte>, left: int, chksumLen: nat)
    requires Progress(pieces, i, done, left, chksumLen) && left >= 0 && (left == 0 || i == |pieces|)
    ensures done == Flatten(pieces)[..Min(chksumLen, |Flatten(pieces)|)]
  {
    assert i == |pieces| ==> pieces[..i] == pieces;
  }

  method AddPbufPart(acc: int, swapped: bool, ghost p: seq<byte>, q: seq<byte>, n: nat, addr: nat)
    returns (acc': int, swapped': bool)
    requires Running(acc, swapped, p) && swapped == Odd(|p|) && n <= |q| <= 0xFFFF
    ensures Running(acc', swapped', p + q[..n]) && (n == |q| ==> swapped' == Odd(|p + q[..n]|))
  {
    var c := ShortChksum(q[..n], addr);
    AddPiece(acc, swapped, p, q[..n]);
    acc', swapped' := Fold(acc + c), swapped;
    OddAdd(|p|, n);
    if Odd(|q|) {
      Swapping(acc', swapped, p + q[..n]);
      swapped' := !swapped;
      acc' := Swap(acc');
    }
  }

  lemma PrefixGrows(pieces: seq<seq<byte>>, i: nat, n: nat)
    requires i < |pieces| && n <= |pieces[i]|
    ensures Flatten(pieces[..i]) + pieces[i][..n] <= Flatten(pieces)
    ensures n == |pieces[i]| ==> Flatten(pieces[..i]) + pieces[i][..n] == Flatten(pieces[..i + 1])
  {
    FlattenSnoc(pieces, i);
    FlattenSplit(pieces, i + 1);
  }

  /** inet_chksum_pseudo_partial: the pseudo-header and the first chksumLen bytes. */
  method InetChksumPseudoPartial(pieces: seq<seq<byte>>, addrs: seq<nat>, proto: byte, protoLen: int, chksumLen: nat,
                                 src: seq<byte>, dst: seq<byte>) returns (r: int, tripped: bool)
    requires Payloads(pieces) && |addrs| == |pieces| && 0 <= protoLen <= 0xFFFF && |src| == 4 && |dst| == 4
    requires chksumLen <= 0xFFFF
    ensures r == M - HostOrder(PseudoHeader(src, dst, proto, protoLen)
                               + Flatten(pieces)[..Min(chksumLen, |Flatten(pieces)|)])
    ensures tripped <==> pieces != [] && chksumLen - |pieces[0]| >= 0x7FFF
  {
    var acc := SumAddresses(src, dst);
    acc, tripped := SumChainPartial(pieces, addrs, chksumLen, src + dst, acc);
    r := AddProto(acc, src + dst, Flatten(pieces)[..Min(chksumLen, |Flatten(pieces)|)], proto, protoLen);
  }
}
