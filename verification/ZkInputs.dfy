/** The public inputs of the voting circuit: a 32-byte hash as two 128-bit numbers, and numbers reduced
    to the scalar field of the curve. */
module ZkInputs {
  import opened Base
  import opened Numbers

  const HALF: nat := 16

  /** The two numbers of a string of `2 * w` bytes: each half is read least significant byte first. */
  function Split(w: nat, hash: Bytes): (nat, nat)
    requires |hash| == 2 * w
  {
    (FromBigEndian(Reversed(hash[..w])), FromBigEndian(Reversed(hash[w..])))
  }

  /** BytesToArboSplit hashes its input first. */
  method BytesToArboSplit(sha256: Bytes -> Bytes, input: Bytes) returns (numbers: (nat, nat))
    requires |sha256(input)| == 2 * HALF
    ensures numbers == Split(HALF, sha256(input))
    ensures numbers.0 == FromLittleEndian(sha256(input)[..HALF]) && numbers.1 == FromLittleEndian(sha256(input)[HALF..])
  {
    var hash := sha256(input);
    var first := SwapEndianness(hash[..HALF]);
    var second := SwapEndianness(hash[HALF..]);
    ReversalSwapsOrder(hash[..HALF]);
    ReversalSwapsOrder(first);
    ReversalSwapsOrder(hash[HALF..]);
    ReversalSwapsOrder(second);
    return (FromBigEndian(first), FromBigEndian(second));
  }

  /** Zeros at the end up to `w` bytes; a longer string stays as it is. */
  function Padded(w: nat, b: Bytes): Bytes {
    if |b| < w then Fit(w, b) else b
  }

  method Pad(w: nat, b: Bytes) returns (padded: Bytes)
    ensures padded == Padded(w, b)
  {
    padded := b;
    while |padded| < w
      invariant |b| <= |padded| && (|padded| <= w || padded == b)
      invariant padded == Fit(|padded|, b)
    {
      padded := padded + [0];
    }
  }

  function Half(w: nat, x: nat): Bytes {
    Padded(w, Reversed(Minimal(x)))
  }

  function Join(w: nat, a: nat, b: nat): Bytes {
    Half(w, a) + Half(w, b)
  }

  /** SplittedArboToBytes. */
  method SplittedArboToBytes(input1: nat, input2: nat) returns (bs: Bytes)
    ensures bs == Join(HALF, input1, input2)
    ensures input1 < Pow256(HALF) && input2 < Pow256(HALF) ==> bs == LittleEndian(HALF, input1) + LittleEndian(HALF, input2)
  {
    var b1 := SwapEndianness(Minimal(input1));
    b1 := Pad(HALF, b1);
    var b2 := SwapEndianness(Minimal(input2));
    b2 := Pad(HALF, b2);
    HalfIsLittleEndian(HALF, input1);
    HalfIsLittleEndian(HALF, input2);
    return b1 + b2;
  }

  /** A half has the right width exactly when the number fits; it is then its little-endian form. */
  lemma HalfIsLittleEndian(w: nat, x: nat)
    ensures |Half(w, x)| >= w
    ensures |Half(w, x)| == w <==> x < Pow256(w)
    ensures x < Pow256(w) ==> Half(w, x) == LittleEndian(w, x)
  {
    MinimalLength(x, w);
    FittedDigits(w, x);
    var r := Reversed(Minimal(x));
    assert |r| == w ==> Fit(w, r) == r;
  }

  lemma HalfOf(half: Bytes)
    ensures var x := FromBigEndian(Reversed(half)); x < Pow256(|half|) && Half(|half|, x) == half
  {
    ReversalSwapsOrder(half);
    ReversalSwapsOrder(Reversed(half));
    LittleEndianDigits(half);
    HalfIsLittleEndian(|half|, FromBigEndian(Reversed(half)));
  }

  /** Joining the numbers of a hash returns the hash, whatever its bytes: the zeros that the library drops
      are put back. */
  lemma JoinUndoesSplit(w: nat, hash: Bytes)
    requires |hash| == 2 * w
    ensures var (a, b) := Split(w, hash); Join(w, a, b) == hash && a < Pow256(w) && b < Pow256(w)
  {
    var first, second := hash[..w], hash[w..];
    assert |first| == w && |second| == w;
    HalfOf(first);
    HalfOf(second);
    assert first + second == hash;
  }

  /** So a hash is determined by its numbers. */
  lemma SplitIsInjective(w: nat, h: Bytes, k: Bytes)
    requires |h| == |k| == 2 * w && Split(w, h) == Split(w, k)
    ensures h == k
  {
    JoinUndoesSplit(w, h);
    JoinUndoesSplit(w, k);
  }

  /** The other way round: joined numbers make a string of the right length exactly when both fit in a
      half, and splitting it returns them; a wider number makes the string longer. */
  lemma SplitUndoesJoinExactly(w: nat, a: nat, b: nat)
    ensures |Join(w, a, b)| == 2 * w <==> a < Pow256(w) && b < Pow256(w)
    ensures |Join(w, a, b)| == 2 * w ==> Split(w, Join(w, a, b)) == (a, b)
  {
    HalfIsLittleEndian(w, a);
    HalfIsLittleEndian(w, b);
    if a < Pow256(w) && b < Pow256(w) {
      var j := Join(w, a, b);
      assert j[..w] == Half(w, a) && j[w..] == Half(w, b);
      HalfBack(w, a);
      HalfBack(w, b);
    }
  }

  lemma HalfBack(w: nat, x: nat)
    requires x < Pow256(w)
    ensures FromBigEndian(Reversed(LittleEndian(w, x))) == x
  {
    var le := LittleEndian(w, x);
    LittleEndianValue(w, x);
    Remainder(x, Pow256(w), 0, x);
    ReversalSwapsOrder(le);
    ReversalSwapsOrder(Reversed(le));
  }

  const FIELD: nat := 21888242871839275222246405745257275088548364400416034343698204186575808495617

  /** BigToFF: the representative of a number, which may be negative, in the scalar field. */
  function BigToFF(iv: int): (z: nat)
    ensures z < FIELD && (iv - z) % FIELD == 0
  {
    if iv == FIELD then 0
    else if !(iv > FIELD) && !(iv < 0) then iv
    else iv % FIELD
  }

  /** Representatives are equal exactly for numbers that are equal modulo the field. */
  lemma FieldRepresentatives(a: int, b: int)
    ensures BigToFF(a) == BigToFF(b) <==> (a - b) % FIELD == 0
  {
    var x, y := BigToFF(a), BigToFF(b);
    var p, q := (a - x) / FIELD, (b - y) / FIELD;
    assert a - b == FIELD * (p - q) + x - y;
  }
}
