/** Big integers as bytes: the minimal big-endian form of the library, byte order reversal, and the
    fixed-width little-endian form that the trees and circuits use. */
module Numbers {
  import opened Base

  function Pow256(n: nat): (p: nat)
    ensures p > 0
  {
    if n == 0 then 1 else 256 * Pow256(n - 1)
  }

  /** SetBytes: the big-endian value of a byte string. */
  function FromBigEndian(bs: Bytes): nat {
    if bs == [] then 0 else 256 * FromBigEndian(bs[..|bs| - 1]) + bs[|bs| - 1] as nat
  }

  /** big.Int.Bytes: the big-endian digits without leading zeros. */
  function Minimal(x: nat): (bs: Bytes)
    ensures bs != [] ==> bs[0] != 0
    ensures bs == [] <==> x == 0
  {
    if x == 0 then [] else Minimal(x / 256) + [(x % 256) as byte]
  }

  function Reversed(bs: Bytes): (r: Bytes)
    ensures |r| == |bs| && forall i :: 0 <= i < |bs| ==> r[i] == bs[|bs| - 1 - i]
  {
    if bs == [] then [] else [bs[|bs| - 1]] + Reversed(bs[..|bs| - 1])
  }

  /** SwapEndianness fills a new buffer from its end. */
  method SwapEndianness(b: Bytes) returns (swapped: Bytes)
    ensures swapped == Reversed(b)
  {
    var o := new byte[|b|](i => 0);
    for i := 0 to |b|
      invariant forall j :: 0 <= j < i ==> o[|b| - 1 - j] == b[j]
    {
      o[|b| - 1 - i] := b[i];
    }
    swapped := o[..];
    assert forall j :: 0 <= j < |b| ==> swapped[j] == b[|b| - 1 - j] by {
      forall j | 0 <= j < |b| ensures swapped[j] == b[|b| - 1 - j] {
        assert o[|b| - 1 - (|b| - 1 - j)] == b[|b| - 1 - j];
      }
    }
  }

  /** The little-endian value of a byte string. */
  function FromLittleEndian(bs: Bytes): nat {
    if bs == [] then 0 else bs[0] as nat + 256 * FromLittleEndian(bs[1..])
  }

  /** The low `n` bytes of a number, least significant first. */
  function LittleEndian(n: nat, x: nat): (bs: Bytes)
    ensures |bs| == n
  {
    if n == 0 then [] else [(x % 256) as byte] + LittleEndian(n - 1, x / 256)
  }

  /** Copying a byte string into a zeroed buffer of `n` bytes: what does not fit is cut off. */
  function Fit(n: nat, bs: Bytes): (r: Bytes)
    ensures |r| == n
    ensures forall i :: 0 <= i < n ==> r[i] == if i < |bs| then bs[i] else 0
  {
    if |bs| >= n then bs[..n] else bs + seq(n - |bs|, i => 0)
  }

  // ---------------------------------------------------------------- the two byte orders

  /** Reversing a big-endian string gives a little-endian string of the same value. */
  lemma {:induction false} ReversalSwapsOrder(bs: Bytes)
    ensures FromLittleEndian(Reversed(bs)) == FromBigEndian(bs)
    ensures Reversed(Reversed(bs)) == bs
    decreases |bs|
  {
    if bs != [] {
      var init := bs[..|bs| - 1];
      ReversalSwapsOrder(init);
      assert Reversed(bs)[1..] == Reversed(init);
      assert forall i :: 0 <= i < |bs| ==> Reversed(Reversed(bs))[i] == bs[i];
    }
  }

  lemma {:induction false} LittleEndianValue(n: nat, x: nat)
    ensures FromLittleEndian(LittleEndian(n, x)) == x % Pow256(n)
    decreases n
  {
    if n > 0 {
      LittleEndianValue(n - 1, x / 256);
      assert LittleEndian(n, x)[1..] == LittleEndian(n - 1, x / 256);
      ModSplit(x, Pow256(n - 1));
    }
  }

  lemma ModSplit(x: nat, p: nat)
    requires p > 0
    ensures x % (256 * p) == x % 256 + 256 * ((x / 256) % p)
  {
    var q, y := (x / 256) / p, (x / 256) % p;
    assert x / 256 == p * q + y;
    var r := x % 256 + 256 * y;
    assert x == (256 * p) * q + r by {
      assert 256 * (p * q + y) == (256 * p) * q + 256 * y;
    }
    Remainder(x, 256 * p, q, r);
  }

  /** A quotient and a remainder in range are the ones of division. */
  lemma Remainder(x: nat, m: nat, q: nat, r: nat)
    requires m > 0 && x == m * q + r && r < m
    ensures x % m == r && x / m == q
  {
    var d := x / m - q;
    assert x == m * (x / m) + x % m;
    assert m * (x / m) - m * q == m * d;
    assert d >= 1 ==> m * d >= m;
    assert d <= -1 ==> m * d + m <= 0;
  }

  lemma {:induction false} LittleEndianDigits(bs: Bytes)
    ensures LittleEndian(|bs|, FromLittleEndian(bs)) == bs && FromLittleEndian(bs) < Pow256(|bs|)
    decreases |bs|
  {
    if bs != [] {
      LittleEndianDigits(bs[1..]);
      Remainder(FromLittleEndian(bs), 256, FromLittleEndian(bs[1..]), bs[0] as nat);
    }
  }

  lemma ReversedAppend(bs: Bytes, b: byte)
    ensures Reversed(bs + [b]) == [b] + Reversed(bs)
  {
    assert (bs + [b])[..|bs|] == bs;
  }

  lemma FitFirst(n: nat, b: byte, rest: Bytes)
    requires n > 0
    ensures Fit(n, [b] + rest) == [b] + Fit(n - 1, rest)
    ensures Fit(n, []) == [0] + Fit(n - 1, [])
  {
  }

  /** The library drops leading zeros; copying the reversed digits into a buffer puts them back, and
      drops the digits beyond the width. */
  lemma {:induction false} FittedDigits(n: nat, x: nat)
    ensures Fit(n, Reversed(Minimal(x))) == LittleEndian(n, x)
    decreases n
  {
    if n > 0 {
      FittedDigits(n - 1, x / 256);
      var rest := Reversed(Minimal(x / 256));
      FitFirst(n, (x % 256) as byte, rest);
      if x > 0 {
        ReversedAppend(Minimal(x / 256), (x % 256) as byte);
      }
    }
  }

  /** How many digits a number has. */
  lemma {:induction false} MinimalLength(x: nat, n: nat)
    ensures |Minimal(x)| <= n <==> x < Pow256(n)
    decreases x
  {
    if x > 0 && n > 0 {
      MinimalLength(x / 256, n - 1);
    }
  }

  // ---------------------------------------------------------------- the conversions of the trees

  /** BytesLEToBigInt. */
  method BytesLEToBigInt(b: Bytes) returns (x: nat)
    ensures x == FromLittleEndian(b)
  {
    var swapped := SwapEndianness(b);
    x := FromBigEndian(swapped);
    ReversalSwapsOrder(b);
    ReversalSwapsOrder(swapped);
  }

  /** BigIntToBytesLE keeps the number modulo the width of the buffer. */
  method BigIntToBytesLE(blen: nat, x: nat) returns (b: Bytes)
    ensures b == LittleEndian(blen, x)
    ensures |b| == blen && FromLittleEndian(b) == x % Pow256(blen)
  {
    var swapped := SwapEndianness(Minimal(x));
    b := Fit(blen, swapped);
    FittedDigits(blen, x);
    LittleEndianValue(blen, x);
  }
}
