/** What several modules share: optional values, bytes, and 32-bit wraparound. */
module Basics {

  datatype Option<T> = None | Some(value: T)

  type byte = b: int | 0 <= b < 256

  function Min(a: int, b: int): int { if a < b then a else b }

  function Max(a: int, b: int): int { if a < b then b else a }

  /** The numbers below `n`. */
  ghost function Upto(n: nat): (s: set<nat>)
    ensures |s| == n && forall x: nat :: x in s <==> x < n
  {
    if n == 0 then {} else Upto(n - 1) + {n - 1}
  }

  const TWO16: nat := 0x1_0000

  const TWO32: nat := 0x1_0000_0000

  function U32(x: int): int { x % TWO32 }

  lemma WrapBy(x: int, k: int)
    ensures U32(x + k * TWO32) == U32(x)
  {
  }

  lemma WrapDifference(a: int, b: int)
    ensures U32(U32(a) - U32(b)) == U32(a - b)
  {
    WrapBy(U32(a) - U32(b), a / TWO32 - b / TWO32);
    assert a == U32(a) + a / TWO32 * TWO32 && b == U32(b) + b / TWO32 * TWO32;
  }

  lemma WrapSum(a: int, b: int)
    ensures U32(U32(a) + b) == U32(a + b)
  {
    WrapBy(U32(a) + b, a / TWO32);
  }

  /** The bytes of a chain, given the payload of each pbuf. */
  function Flatten(pieces: seq<seq<byte>>): seq<byte> {
    if pieces == [] then [] else pieces[0] + Flatten(pieces[1..])
  }

  lemma {:induction false} FlattenSnoc(pieces: seq<seq<byte>>, i: nat)
    requires i < |pieces|
    ensures Flatten(pieces[..i + 1]) == Flatten(pieces[..i]) + pieces[i]
    decreases i
  {
    if i == 0 {
      assert pieces[..1] == [pieces[0]] && pieces[..1][1..] == [];
    } else {
      FlattenSnoc(pieces[1..], i - 1);
      assert pieces[1..][..i] == pieces[..i + 1][1..] && pieces[1..][..i - 1] == pieces[..i][1..];
    }
  }

  lemma {:induction false} FlattenSplit(pieces: seq<seq<byte>>, i: nat)
    requires i <= |pieces|
    ensures Flatten(pieces) == Flatten(pieces[..i]) + Flatten(pieces[i..])
    decreases i
  {
    if i == 0 {
      assert pieces[0..] == pieces;
    } else {
      FlattenSplit(pieces[1..], i - 1);
      assert pieces[1..][..i - 1] == pieces[..i][1..] && pieces[1..][i - 1..] == pieces[i..];
    }
  }
}
