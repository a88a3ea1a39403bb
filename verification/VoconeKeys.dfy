/** The byte keys of the mempool and block store databases: fixed-width big-endian numbers behind a
    prefix. Iterating in lexicographic order of keys is iterating in order of sequence numbers, and the
    three kinds of block-store keys never meet. */
module VoconeKeys {
  import opened Base
  import opened Numbers

  /** The low `width` bytes of a number, most significant first. */
  function BigEndian(width: nat, x: nat): (bs: Bytes)
    ensures |bs| == width
  {
    if width == 0 then [] else BigEndian(width - 1, x / 256) + [(x % 256) as byte]
  }

  lemma {:induction false} LexAppend(a: Bytes, b: Bytes, x: byte, y: byte)
    requires |a| == |b|
    ensures LexLess(a + [x], b + [y]) <==> LexLess(a, b) || (a == b && x < y)
    decreases |a|
  {
    if a == [] {
      assert ([x])[1..] == [] && ([y])[1..] == [];
    } else {
      LexAppend(a[1..], b[1..], x, y);
      assert (a + [x])[1..] == a[1..] + [x] && (b + [y])[1..] == b[1..] + [y];
      assert a == [a[0]] + a[1..] && b == [b[0]] + b[1..];
    }
  }

  lemma {:induction false} LexPrefix(p: Bytes, a: Bytes, b: Bytes)
    ensures LexLess(p + a, p + b) <==> LexLess(a, b)
    decreases |p|
  {
    if p == [] {
      assert p + a == a && p + b == b;
    } else {
      LexPrefix(p[1..], a, b);
      assert (p + a)[1..] == p[1..] + a && (p + b)[1..] == p[1..] + b;
    }
  }

  /** Big-endian encodings of one width are ordered, and told apart, as the numbers are. */
  lemma {:induction false} BigEndianOrder(width: nat, x: nat, y: nat)
    requires x < Pow256(width) && y < Pow256(width)
    ensures LexLess(BigEndian(width, x), BigEndian(width, y)) <==> x < y
    ensures BigEndian(width, x) == BigEndian(width, y) ==> x == y
    decreases width
  {
    if width > 0 {
      var a, b := BigEndian(width - 1, x / 256), BigEndian(width - 1, y / 256);
      BigEndianOrder(width - 1, x / 256, y / 256);
      LexAppend(a, b, (x % 256) as byte, (y % 256) as byte);
      assert a == b ==> x / 256 == y / 256;
      if BigEndian(width, x) == BigEndian(width, y) {
        assert BigEndian(width, x)[..width - 1] == a && BigEndian(width, y)[..width - 1] == b;
        assert BigEndian(width, x)[width - 1] == (x % 256) as byte && BigEndian(width, y)[width - 1] == (y % 256) as byte;
      }
    }
  }

  const PREFIX_MEMPOOL: Bytes := [109, 112, 47]
  const PREFIX_TX: Bytes := [116, 120, 47]
  const PREFIX_META: Bytes := [109, 101, 116, 97, 47]
  const PREFIX_BLOCK_HASH: Bytes := [98, 108, 111, 99, 107, 104, 97, 115, 104, 47]

  function MempoolKey(s: nat): Bytes {
    PREFIX_MEMPOOL + BigEndian(8, s)
  }

  function TxKey(height: nat, i: nat): Bytes {
    PREFIX_TX + BigEndian(8, height) + [47] + BigEndian(4, i)
  }

  function MetaKey(height: nat): Bytes {
    PREFIX_META + BigEndian(8, height)
  }

  function BlockHashKey(hash: Bytes): Bytes {
    PREFIX_BLOCK_HASH + hash
  }

  /** Iterating over the mempool keys in lexicographic order visits them in order of sequence number. */
  lemma MempoolKeyOrder(s: nat, t: nat)
    requires s < Pow256(8) && t < Pow256(8)
    ensures LexLess(MempoolKey(s), MempoolKey(t)) <==> s < t
    ensures MempoolKey(s) == MempoolKey(t) <==> s == t
  {
    LexPrefix(PREFIX_MEMPOOL, BigEndian(8, s), BigEndian(8, t));
    BigEndianOrder(8, s, t);
    assert MempoolKey(s)[3..] == BigEndian(8, s) && MempoolKey(t)[3..] == BigEndian(8, t);
  }

  /** Fixed-width parts around a separator can be read back. */
  lemma PartsApart(p: Bytes, a: Bytes, b: Bytes, c: Bytes, d: Bytes)
    requires |a| == |c| && |b| == |d|
    ensures p + a + [47] + b == p + c + [47] + d <==> a == c && b == d
  {
    var x, y := p + a + [47] + b, p + c + [47] + d;
    var i, j := |p|, |p| + |a|;
    assert x[i..j] == a && y[i..j] == c && x[j + 1..] == b && y[j + 1..] == d;
  }

  lemma BehindPrefix(p: Bytes, a: Bytes, b: Bytes)
    ensures p + a == p + b <==> a == b
  {
    assert (p + a)[|p|..] == a && (p + b)[|p|..] == b;
  }

  /** Different transactions, heights and hashes have different keys, and no key of one kind is a key of
      another. */
  lemma BlockStoreKeysApart(h: nat, i: nat, g: nat, j: nat, x: Bytes, y: Bytes)
    requires h < Pow256(8) && g < Pow256(8) && i < Pow256(4) && j < Pow256(4)
    ensures TxKey(h, i) == TxKey(g, j) <==> h == g && i == j
    ensures MetaKey(h) == MetaKey(g) <==> h == g
    ensures BlockHashKey(x) == BlockHashKey(y) <==> x == y
    ensures TxKey(h, i) != MetaKey(g) && TxKey(h, i) != BlockHashKey(x) && MetaKey(h) != BlockHashKey(x)
  {
    BigEndianOrder(8, h, g);
    BigEndianOrder(4, i, j);
    PartsApart(PREFIX_TX, BigEndian(8, h), BigEndian(4, i), BigEndian(8, g), BigEndian(4, j));
    BehindPrefix(PREFIX_META, BigEndian(8, h), BigEndian(8, g));
    BehindPrefix(PREFIX_BLOCK_HASH, x, y);
    assert TxKey(h, i)[0] == 116 && MetaKey(g)[0] == 109 && MetaKey(h)[0] == 109 && BlockHashKey(x)[0] == 98;
  }
}
