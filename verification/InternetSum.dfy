/** The Internet checksum of section 2 of RFC 1071, as arithmetic.

    RfcSum adds 16-bit big-endian words with end-around carry. The C code sums in other ways
    (little-endian words, 32-bit words, wide accumulators folded at the end); the lemmas
    here reduce each of them to RfcSum. */
module InternetSum {
  import opened Basics

  const M: int := 65535

  function Be(a: int, b: int): int { 256 * a + b }

  function Le(a: int, b: int): int { a + 256 * b }

  function OnesAdd(a: int, b: int): int { if a + b > M then a + b - M else a + b }

  /** The one's-complement sum of the data, an odd last byte padded with zero. */
  function RfcSum(d: seq<byte>): int {
    if |d| == 0 then 0
    else if |d| == 1 then Be(d[0], 0)
    else OnesAdd(Be(d[0], d[1]), RfcSum(d[2..]))
  }

  /** Plain sum of the words, first byte most significant. */
  function NetSum(d: seq<byte>): (s: int)
    ensures 0 <= s <= M * ((|d| + 1) / 2)
  {
    if |d| == 0 then 0
    else if |d| == 1 then Be(d[0], 0)
    else Be(d[0], d[1]) + NetSum(d[2..])
  }

  /** Plain sum of the words as a little-endian machine reads them. */
  function HostSum(d: seq<byte>): (s: int)
    ensures 0 <= s <= M * ((|d| + 1) / 2)
  {
    if |d| == 0 then 0
    else if |d| == 1 then Le(d[0], 0)
    else Le(d[0], d[1]) + HostSum(d[2..])
  }

  // ----- sums modulo 65535

  predicate Laps(a: int, b: int, q: int) { b - a == M * q }

  /** The same one's-complement number: congruent modulo 65535, where the all-zero sum is
      kept apart from the other zero, 0xFFFF. */
  ghost predicate Same(a: int, b: int) {
    0 <= a && 0 <= b && (a == 0 <==> b == 0) && exists q :: Laps(a, b, q)
  }

  lemma SameUnique(a: int, b: int, n: int)
    requires Same(a, n) && Same(b, n) && a <= M && b <= M
    ensures a == b
  {
    var q, q' :| Laps(a, n, q) && Laps(b, n, q');
    assert a - b == M * (q' - q);
  }

  lemma SameTrans(a: int, b: int, c: int)
    requires Same(a, b) && Same(b, c)
    ensures Same(a, c)
  {
    var q, q' :| Laps(a, b, q) && Laps(b, c, q');
    assert Laps(a, c, q + q');
  }

  lemma SameAdd(a: int, b: int, c: int, d: int)
    requires Same(a, b) && Same(c, d)
    ensures Same(a + c, b + d)
  {
    var q, q' :| Laps(a, b, q) && Laps(c, d, q');
    assert Laps(a + c, b + d, q + q');
  }

  lemma SameScale(a: int, b: int)
    requires Same(a, b)
    ensures Same(256 * a, 256 * b)
  {
    var q :| Laps(a, b, q);
    assert Laps(256 * a, 256 * b, 256 * q);
  }

  lemma SameSelf(a: int)
    requires 0 <= a
    ensures Same(a, a)
  {
    assert Laps(a, a, 0);
  }

  /** FOLD_U32T. */
  function Fold(u: int): int { u / 65536 + u % 65536 }

  lemma FoldSame(u: int)
    requires 0 <= u
    ensures Same(Fold(u), u)
    ensures u < 0x1_0000_0000 ==> Fold(u) <= 2 * M
    ensures u <= 2 * M ==> Fold(u) <= M
  {
    assert Laps(Fold(u), u, u / 65536);
  }

  /** Adding two folded sums and folding the carry. */
  lemma FoldAdd(c: int, a: int, c': int, a': int)
    requires Same(c, a) && c <= M && Same(c', a') && c' <= M
    ensures Same(Fold(c + c'), a + a') && 0 <= Fold(c + c') <= M
  {
    SameAdd(c, a, c', a');
    FoldSame(c + c');
    SameTrans(Fold(c + c'), c + c', a + a');
  }

  /** SWAP_BYTES_IN_WORD. */
  function Swap(w: int): int { (w % 256) * 256 + (w / 256) % 256 }

  lemma SwapBytes(w: int, h: int, l: int)
    requires w == 256 * h + l && 0 <= h < 256 && 0 <= l < 256
    ensures Swap(w) == 256 * l + h
  {
    assert w / 256 == h && w % 256 == l;
  }

  lemma SwapSame(w: int)
    requires 0 <= w <= M
    ensures 0 <= Swap(w) <= M && Swap(Swap(w)) == w && Same(Swap(w), 256 * w)
    ensures Swap(M - w) == M - Swap(w)
  {
    var h, l := w / 256, w % 256;
    SwapBytes(w, h, l);
    SwapBytes(Swap(w), l, h);
    SwapBytes(M - w, 255 - h, 255 - l);
    assert Laps(Swap(w), 256 * w, h);
  }

  lemma {:induction false} RfcIsNet(d: seq<byte>)
    ensures Same(RfcSum(d), NetSum(d)) && RfcSum(d) <= M
  {
    if |d| < 2 {
      assert RfcSum(d) == NetSum(d);
      SameSelf(NetSum(d));
    } else {
      RfcIsNet(d[2..]);
      var w, r, n := Be(d[0], d[1]), RfcSum(d[2..]), NetSum(d[2..]);
      var q :| Laps(r, n, q);
      assert Laps(OnesAdd(w, r), w + n, if w + r > M then q + 1 else q);
    }
  }

  /** Reading the words in the other byte order multiplies the sum by 256. */
  lemma {:induction false} HostIsSwappedNet(d: seq<byte>)
    ensures Same(HostSum(d), 256 * NetSum(d)) && Same(NetSum(d), 256 * HostSum(d))
  {
    if |d| == 0 {
      SameSelf(0);
    } else if |d| == 1 {
      WordSwapped(d[0], 0);
    } else {
      HostIsSwappedNet(d[2..]);
      WordSwapped(d[0], d[1]);
      SameAdd(Le(d[0], d[1]), 256 * Be(d[0], d[1]), HostSum(d[2..]), 256 * NetSum(d[2..]));
      SameAdd(Be(d[0], d[1]), 256 * Le(d[0], d[1]), NetSum(d[2..]), 256 * HostSum(d[2..]));
    }
  }

  lemma WordSwapped(a: byte, b: byte)
    ensures Same(Le(a, b), 256 * Be(a, b)) && Same(Be(a, b), 256 * Le(a, b))
  {
    assert Laps(Le(a, b), 256 * Be(a, b), a) && Laps(Be(a, b), 256 * Le(a, b), b);
  }

  /** Swapping the bytes of a folded sum changes the byte order of the words summed. */
  lemma Flip(c: int, d: seq<byte>)
    requires 0 <= c <= M
    ensures Same(c, HostSum(d)) ==> Same(Swap(c), NetSum(d))
    ensures Same(c, NetSum(d)) ==> Same(Swap(c), HostSum(d))
  {
    HostIsSwappedNet(d);
    if Same(c, HostSum(d)) { FlipSum(c, HostSum(d), NetSum(d)); }
    if Same(c, NetSum(d)) { FlipSum(c, NetSum(d), HostSum(d)); }
  }

  lemma FlipSum(c: int, a: int, b: int)
    requires 0 <= c <= M && Same(c, a) && Same(b, 256 * a)
    ensures Same(Swap(c), b)
  {
    SwapSame(c);
    SameScale(c, a);
    SameTrans(Swap(c), 256 * c, 256 * a);
    SameBack(Swap(c), 256 * a, b);
  }

  lemma SameAgain(f: int, s: int, n: int)
    requires Same(f, s) && Same(f, n)
    ensures Same(s, n)
  {
    var q, q' :| Laps(f, s, q) && Laps(f, n, q');
    assert Laps(s, n, q' - q);
  }

  lemma SameBack(a: int, n: int, b: int)
    requires Same(a, n) && Same(b, n)
    ensures Same(a, b)
  {
    var q, q' :| Laps(a, n, q) && Laps(b, n, q');
    assert Laps(a, b, q - q');
  }

  /** A 16-bit value with the little-endian sum is the byte-swapped RFC sum. */
  lemma HostValue(c: int, d: seq<byte>)
    requires Same(c, HostSum(d)) && c <= M
    ensures c == Swap(RfcSum(d))
  {
    RfcIsNet(d);
    SwapSame(RfcSum(d));
    Flip(RfcSum(d), d);
    SameUnique(c, Swap(RfcSum(d)), HostSum(d));
  }

  lemma NetValue(c: int, d: seq<byte>)
    requires Same(c, NetSum(d)) && c <= M
    ensures c == RfcSum(d)
  {
    RfcIsNet(d);
    SameUnique(c, RfcSum(d), NetSum(d));
  }

  // ----- sums of concatenations

  /** After an even number of bytes the sums add. */
  lemma {:induction false} SumAppendEven(p: seq<byte>, q: seq<byte>)
    requires |p| % 2 == 0
    ensures NetSum(p + q) == NetSum(p) + NetSum(q) && HostSum(p + q) == HostSum(p) + HostSum(q)
  {
    if |p| == 0 {
      assert p + q == q;
    } else {
      SumAppendEven(p[2..], q);
      assert (p + q)[2..] == p[2..] + q;
    }
  }

  /** After an odd number of bytes the words of `q` change byte order. */
  lemma {:induction false} SumAppendOdd(p: seq<byte>, q: seq<byte>)
    requires |p| % 2 == 1
    ensures NetSum(p + q) == NetSum(p) + HostSum(q) && HostSum(p + q) == HostSum(p) + NetSum(q)
  {
    if |p| == 1 {
      SumCons(p[0], q);
      assert p == [p[0]];
    } else {
      SumAppendOdd(p[2..], q);
      assert (p + q)[2..] == p[2..] + q;
    }
  }

  lemma {:induction false} SumCons(x: byte, q: seq<byte>)
    ensures NetSum([x] + q) == Be(x, 0) + HostSum(q)
    ensures HostSum([x] + q) == x + NetSum(q)
    decreases |q|
  {
    if |q| == 1 {
      assert ([x] + q)[2..] == [];
    } else if |q| >= 2 {
      SumCons(q[1], q[2..]);
      assert ([x] + q)[2..] == [q[1]] + q[2..];
    }
  }

  /** One step of a loop that walks over the words of `d`. */
  lemma SumFrom(d: seq<byte>, i: nat)
    requires i <= |d|
    ensures i == |d| ==> NetSum(d[i..]) == 0 && HostSum(d[i..]) == 0
    ensures i + 1 == |d| ==> NetSum(d[i..]) == Be(d[i], 0) && HostSum(d[i..]) == Le(d[i], 0)
    ensures i + 2 <= |d| ==> NetSum(d[i..]) == Be(d[i], d[i + 1]) + NetSum(d[i + 2..])
                             && HostSum(d[i..]) == Le(d[i], d[i + 1]) + HostSum(d[i + 2..])
  {
    if i + 2 <= |d| { assert d[i..][2..] == d[i + 2..]; }
  }

  /** The longest buffer whose plain word sum always fits 32 bits. */
  const MAX_LEN: nat := 0x20002

  lemma SumFits(d: seq<byte>)
    requires |d| <= MAX_LEN
    ensures NetSum(d) < 0x1_0000_0000 && HostSum(d) < 0x1_0000_0000
  {
    var k := (|d| + 1) / 2;
    assert k <= 65537;
    assert M * k <= M * 65537;
  }

  // ----- what the checksum is for

  /** What a change by `e` of the byte at `i` does to the sum. */
  function Shift(e: int, i: nat): int { if i % 2 == 0 then 256 * e else e }

  lemma {:induction false} NetUpdate(d: seq<byte>, i: nat, x: byte)
    requires i < |d|
    ensures NetSum(d[i := x]) == NetSum(d) + Shift(x - d[i], i)
    decreases i
  {
    if i >= 2 {
      NetUpdate(d[2..], i - 2, x);
      assert d[i := x][2..] == d[2..][i - 2 := x];
      NetHead(d);
      NetHead(d[i := x]);
      ShiftTwo(x - d[i], i);
    } else if |d| >= 2 {
      NetHead(d);
      NetHead(d[i := x]);
      assert d[i := x][2..] == d[2..];
    }
  }

  lemma NetHead(d: seq<byte>)
    requires |d| >= 2
    ensures NetSum(d) == Be(d[0], d[1]) + NetSum(d[2..])
  {
  }

  lemma ShiftTwo(e: int, i: nat)
    requires i >= 2
    ensures Shift(e, i) == Shift(e, i - 2)
  {
  }

  lemma NetStore(d: seq<byte>, i: nat, hi: byte, lo: byte)
    requires i % 2 == 0 && i + 2 <= |d| && d[i] == 0 && d[i + 1] == 0
    ensures NetSum(d[i := hi][i + 1 := lo]) == NetSum(d) + Be(hi, lo)
  {
    NetUpdate(d, i, hi);
    NetUpdate(d[i := hi], i + 1, lo);
  }

  /** A packet whose checksum field, zero while summing, is filled with the complement of the
      sum adds up to 0xFFFF, so the receiver's own checksum of it is zero. */
  lemma ReceiverAccepts(d: seq<byte>, i: nat)
    requires i % 2 == 0 && i + 2 <= |d| && d[i] == 0 && d[i + 1] == 0
    ensures var c := M - RfcSum(d);
            0 <= c <= M && RfcSum(d[i := c / 256][i + 1 := c % 256]) == M
  {
    RfcIsNet(d);
    var c := M - RfcSum(d);
    NetStore(d, i, c / 256, c % 256);
    Complement(RfcSum(d), NetSum(d));
    NetValue(M, d[i := c / 256][i + 1 := c % 256]);
  }

  lemma Complement(r: int, n: int)
    requires Same(r, n) && r <= M
    ensures Same(M, n + (M - r))
  {
    var q :| Laps(r, n, q);
    assert Laps(M, n + (M - r), q);
  }

  /** Two packets that both pass the receiver's check never differ in exactly one byte: every
      single-byte error is noticed. */
  lemma SingleByteErrorDetected(d: seq<byte>, i: nat, x: byte)
    requires i < |d| && RfcSum(d) == M && RfcSum(d[i := x]) == M
    ensures x == d[i]
  {
    RfcIsNet(d);
    RfcIsNet(d[i := x]);
    NetUpdate(d, i, x);
    var e := Shift(x - d[i], i);
    assert -M < e < M;
    MultiplesApart(NetSum(d), e);
  }

  lemma MultiplesApart(n: int, e: int)
    requires Same(M, n) && Same(M, n + e) && -M < e < M
    ensures e == 0
  {
    var q, q' :| Laps(M, n, q) && Laps(M, n + e, q');
    assert e == M * (q' - q);
  }

  // ----- the limit on the length is exact

  function Ones(n: nat): seq<byte> { seq(n, i => 255) }

  lemma {:induction false} NetSumOnes(n: nat)
    ensures NetSum(Ones(2 * n)) == M * n
  {
    if n > 0 {
      NetSumOnes(n - 1);
      assert Ones(2 * n)[2..] == Ones(2 * (n - 1));
    }
  }

  lemma {:induction false} HostSumOnes(n: nat)
    ensures HostSum(Ones(2 * n)) == M * n
  {
    if n > 0 {
      HostSumOnes(n - 1);
      assert Ones(2 * n)[2..] == Ones(2 * (n - 1));
    }
  }

  /** The sum of the words in network or in host order. */
  function WordSum(d: seq<byte>, net: bool): int { if net then NetSum(d) else HostSum(d) }

  /** What is left of the sum in 32 bits still stands for it. */
  ghost predicate SumRight(d: seq<byte>, net: bool) {
    Same(WordSum(d, net) % TWO32, WordSum(d, net))
  }

  /** A 32-bit accumulator gets the sum of every buffer of length `n` right exactly when `n` is at most
      MAX_LEN, in either byte order. */
  lemma LimitExact(n: nat, net: bool)
    ensures (forall d: seq<byte> | |d| == n :: SumRight(d, net)) <==> n <= MAX_LEN
  {
    if n <= MAX_LEN {
      forall d: seq<byte> | |d| == n ensures SumRight(d, net) { ShortRight(d, net); }
    } else {
      var d := LongWrong(n, net);
    }
  }

  lemma ShortRight(d: seq<byte>, net: bool)
    requires |d| <= MAX_LEN
    ensures SumRight(d, net)
  {
    SumFits(d);
    SameSelf(WordSum(d, net));
  }

  lemma LongWrong(n: nat, net: bool) returns (d: seq<byte>)
    requires n > MAX_LEN
    ensures |d| == n && !SumRight(d, net)
  {
    d := Overflowing(n);
    Wrapped(WordSum(d, net));
  }

  lemma Wrapped(s: int)
    requires 0x1_0000_0000 <= s < 0x1_0000_0000 + 65535
    ensures !Same(s % 0x1_0000_0000, s)
  {
    var w := s - 0x1_0000_0000;
    assert s % 0x1_0000_0000 == w;
    forall q ensures !Laps(w, s, q) { NoLap(q); }
  }

  /** 2^32 is one more than a multiple of 65535. */
  lemma NoLap(q: int)
    ensures M * q != 0x1_0000_0000
  {
    assert 0x1_0000_0000 == M * 65537 + 1;
    assert M * q == 0x1_0000_0000 ==> M * (q - 65537) == 1;
  }

  lemma Overflowing(n: nat) returns (d: seq<byte>)
    requires n > MAX_LEN
    ensures |d| == n && NetSum(d) == 0x1_0000_0000 + 65279 && HostSum(d) == 0x1_0000_0000 + 254
  {
    var zeros: seq<byte> := seq(n - MAX_LEN - 1, i => 0);
    d := Ones(MAX_LEN) + ([255] + zeros);
    AllOnes();
    ZeroSum(zeros);
    AppendOverflow(Ones(MAX_LEN), zeros);
  }

  lemma AllOnes()
    ensures NetSum(Ones(MAX_LEN)) == HostSum(Ones(MAX_LEN)) == 0x1_0000_0000 - 1
  {
    NetSumOnes(65537);
    HostSumOnes(65537);
  }

  lemma AppendOverflow(ones: seq<byte>, zeros: seq<byte>)
    requires |ones| % 2 == 0 && HostSum(zeros) == NetSum(zeros) == 0
    ensures NetSum(ones + ([255] + zeros)) == NetSum(ones) + 65280
    ensures HostSum(ones + ([255] + zeros)) == HostSum(ones) + 255
  {
    LeadingOnes(zeros);
    SumAppendEven(ones, [255] + zeros);
  }

  lemma LeadingOnes(zeros: seq<byte>)
    requires HostSum(zeros) == NetSum(zeros) == 0
    ensures NetSum([255] + zeros) == 65280 && HostSum([255] + zeros) == 255
  {
    SumCons(255, zeros);
  }

  lemma {:induction false} ZeroSum(d: seq<byte>)
    requires forall i | 0 <= i < |d| :: d[i] == 0
    ensures HostSum(d) == NetSum(d) == 0
  {
    if |d| >= 2 { ZeroSum(d[2..]); }
  }
}
