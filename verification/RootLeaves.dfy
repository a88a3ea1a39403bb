/** The two ways in which the system keeps sub-tree roots inside parent leaves obey the laws that
    propagation relies on: a leaf that is a root, and a leaf with a root at a fixed offset. */
module RootLeaves {
  import opened Base
  import opened TreeLinks

  /** rootLeafGetRoot and rootLeafSetRoot: the whole leaf is the root. */
  function RootLeaf(hashLen: nat, key: Bytes, prefix: Bytes, hash: Leaves -> Bytes): TreeConfig {
    TreeConfig(
      key, prefix, hash,
      v => if |v| == hashLen then Ok(v) else Err(BadLeaf),
      (v, root) => if |v| == hashLen then Ok(root) else Err(BadLeaf))
  }

  /** The leaf has a fixed length and the sub-tree owns the `hashLen` bytes of it from `at`. */
  function RootSlot(leafLen: nat, at: nat, hashLen: nat, key: Bytes, prefix: Bytes, hash: Leaves -> Bytes): TreeConfig
    requires at + hashLen <= leafLen
  {
    TreeConfig(
      key, prefix, hash,
      v => if |v| == leafLen then Ok(v[at..at + hashLen]) else Err(BadLeaf),
      (v, root) => if |v| == leafLen && |root| == hashLen then Ok(Overwrite(v, at, root)) else Err(BadLeaf))
  }

  function Overwrite(v: Bytes, at: nat, root: Bytes): Bytes
    requires at + |root| <= |v|
  {
    v[..at] + root + v[at + |root|..]
  }

  lemma RootLeafIsLawful(hashLen: nat, key: Bytes, prefix: Bytes, hash: Leaves -> Bytes)
    requires forall m: Leaves :: |hash(m)| == hashLen
    ensures LawfulRoots(RootLeaf(hashLen, key, prefix, hash))
  {
    var c := RootLeaf(hashLen, key, prefix, hash);
    forall v: Bytes, m: Leaves ensures c.setRoot(v, c.hash(m)).Ok? <==> Accepts(c, v) {
      assert |c.hash(map[])| == hashLen;
    }
  }

  lemma RootSlotIsLawful(leafLen: nat, at: nat, hashLen: nat, key: Bytes, prefix: Bytes, hash: Leaves -> Bytes)
    requires at + hashLen <= leafLen && forall m: Leaves :: |hash(m)| == hashLen
    ensures LawfulRoots(RootSlot(leafLen, at, hashLen, key, prefix, hash))
  {
    var c := RootSlot(leafLen, at, hashLen, key, prefix, hash);
    forall v: Bytes, m: Leaves {:trigger c.setRoot(v, c.hash(m))}
      ensures c.setRoot(v, c.hash(m)).Ok? ==> c.getRoot(c.setRoot(v, c.hash(m)).value) == Ok(c.hash(m))
      ensures c.getRoot(v) == Ok(c.hash(m)) ==> c.setRoot(v, c.hash(m)) == Ok(v)
      ensures c.setRoot(v, c.hash(m)).Ok? <==> Accepts(c, v)
    {
      assert |c.hash(map[])| == hashLen && |c.hash(m)| == hashLen;
      if |v| == leafLen {
        assert Overwrite(v, at, hash(m))[at..at + hashLen] == hash(m);
        assert v == v[..at] + v[at..at + hashLen] + v[at + hashLen..];
      }
    }
  }

  lemma OverwriteApart(v: Bytes, a: nat, b: nat, x: Bytes, y: Bytes)
    requires a + |x| <= |v| && b + |y| <= |v| && (a + |x| <= b || b + |y| <= a)
    ensures Overwrite(v, a, x)[b..b + |y|] == v[b..b + |y|]
    ensures Overwrite(Overwrite(v, a, x), b, y) == Overwrite(Overwrite(v, b, y), a, x)
  {
  }

  /** Sub-trees owning disjoint parts of a shared leaf do not disturb each other. */
  lemma SlotsAreIndependent(leafLen: nat, a: nat, b: nat, hashLen: nat, key: Bytes, p1: Bytes, p2: Bytes, h1: Leaves -> Bytes, h2: Leaves -> Bytes)
    requires a + hashLen <= leafLen && b + hashLen <= leafLen && (a + hashLen <= b || b + hashLen <= a)
    requires forall m: Leaves :: |h1(m)| == hashLen
    requires forall m: Leaves :: |h2(m)| == hashLen
    ensures Independent(RootSlot(leafLen, a, hashLen, key, p1, h1), RootSlot(leafLen, b, hashLen, key, p2, h2))
  {
    var c, d := RootSlot(leafLen, a, hashLen, key, p1, h1), RootSlot(leafLen, b, hashLen, key, p2, h2);
    assert |h2(map[])| == hashLen;
    forall v: Bytes, m: Leaves {:trigger c.setRoot(v, c.hash(m))} | c.setRoot(v, c.hash(m)).Ok?
      ensures d.getRoot(c.setRoot(v, c.hash(m)).value) == d.getRoot(v)
      ensures Accepts(d, c.setRoot(v, c.hash(m)).value) <==> Accepts(d, v) {
      OverwriteApart(v, a, b, h1(m), h2(map[]));
    }
    forall v: Bytes, m: Leaves, n: Leaves {:trigger c.setRoot(v, c.hash(m)), d.hash(n)} | c.setRoot(v, c.hash(m)).Ok? && d.setRoot(v, d.hash(n)).Ok?
      ensures d.setRoot(c.setRoot(v, c.hash(m)).value, d.hash(n)) == c.setRoot(d.setRoot(v, d.hash(n)).value, c.hash(m)) {
      OverwriteApart(v, a, b, h1(m), h2(n));
    }
  }

  /** Every sub-tree has a leaf of its own in its parent, under its prefix, which is its root. */
  ghost function RootLeafSchema(hashLen: nat, hash: Leaves -> Bytes): Schema {
    (p: Path) => RootLeaf(hashLen, if p.Sub? then p.name else [], if p.Sub? then p.name else [], hash)
  }

  lemma RootLeafSchemaIsLawful(hashLen: nat, hash: Leaves -> Bytes)
    requires forall m: Leaves :: |hash(m)| == hashLen
    ensures LawfulSchema(RootLeafSchema(hashLen, hash))
  {
    var schema := RootLeafSchema(hashLen, hash);
    forall p: Path | p.Sub? ensures LawfulRoots(schema(p)) && schema(p).prefix == p.name {
      RootLeafIsLawful(hashLen, p.name, p.name, hash);
    }
    assert forall p: Path, j: Bytes {:trigger Sub(p, j)} :: schema(Sub(p, j)).parentLeafKey == j;
  }

  /** The kind and the key of a name: its first byte and the rest. */
  function SlotOf(name: Bytes): (slot: nat)
    ensures slot < 257
  {
    if name == [] then 256 else name[0] as nat
  }

  function KeyOf(name: Bytes): Bytes {
    if name == [] then [] else name[1..]
  }

  /** Sub-trees of the main tree have root leaves of their own; deeper ones, of up to 257 kinds, keep their
      roots side by side in one leaf for each key. */
  ghost function SharedLeafSchema(hashLen: nat, hash: Leaves -> Bytes): Schema {
    (p: Path) =>
      if p.Main? || p.parent.Main? then RootLeaf(hashLen, if p.Sub? then p.name else [], if p.Sub? then p.name else [], hash)
      else SlotConfig(hashLen, p.name, hash)
  }

  function SlotConfig(hashLen: nat, name: Bytes, hash: Leaves -> Bytes): TreeConfig {
    SlotFits(hashLen, SlotOf(name));
    RootSlot(257 * hashLen, SlotOf(name) * hashLen, hashLen, KeyOf(name), name, hash)
  }

  lemma SlotFits(hashLen: nat, slot: nat)
    requires slot < 257
    ensures slot * hashLen + hashLen <= 257 * hashLen
  {
    assert (slot + 1) * hashLen == slot * hashLen + hashLen;
    assert 257 * hashLen == (slot + 1) * hashLen + (256 - slot) * hashLen;
  }

  lemma SlotsApart(hashLen: nat, i: nat, j: nat)
    requires i < j
    ensures i * hashLen + hashLen <= j * hashLen
  {
    assert j * hashLen == i * hashLen + (j - i) * hashLen;
    assert (j - i) * hashLen == hashLen + (j - i - 1) * hashLen;
  }

  lemma NameIsSlotAndKey(j: Bytes, k: Bytes)
    ensures SlotOf(j) == SlotOf(k) && KeyOf(j) == KeyOf(k) ==> j == k
  {
    assert j != [] ==> j == [j[0]] + j[1..];
    assert k != [] ==> k == [k[0]] + k[1..];
  }

  lemma SlotConfigsIndependent(hashLen: nat, j: Bytes, k: Bytes, hash: Leaves -> Bytes)
    requires forall m: Leaves :: |hash(m)| == hashLen
    requires j != k && KeyOf(j) == KeyOf(k)
    ensures Independent(SlotConfig(hashLen, j, hash), SlotConfig(hashLen, k, hash))
  {
    var a, b := SlotOf(j), SlotOf(k);
    NameIsSlotAndKey(j, k);
    SlotFits(hashLen, a);
    SlotFits(hashLen, b);
    if a < b {
      SlotsApart(hashLen, a, b);
    } else {
      SlotsApart(hashLen, b, a);
    }
    SlotsAreIndependent(257 * hashLen, a * hashLen, b * hashLen, hashLen, KeyOf(j), j, k, hash, hash);
  }

  /** So the laws hold for a hierarchy in which kinds share a leaf, below one of root leaves. */
  lemma SharedLeafSchemaIsLawful(hashLen: nat, hash: Leaves -> Bytes)
    requires forall m: Leaves :: |hash(m)| == hashLen
    ensures LawfulSchema(SharedLeafSchema(hashLen, hash))
  {
    var schema := SharedLeafSchema(hashLen, hash);
    forall p: Path | p.Sub? ensures LawfulRoots(schema(p)) && schema(p).prefix == p.name {
      RootLeafIsLawful(hashLen, p.name, p.name, hash);
      SlotFits(hashLen, SlotOf(p.name));
      RootSlotIsLawful(257 * hashLen, SlotOf(p.name) * hashLen, hashLen, KeyOf(p.name), p.name, hash);
    }
    forall p: Path, j: Bytes, k: Bytes {:trigger Sub(p, j), Sub(p, k)}
      | j != k && schema(Sub(p, j)).parentLeafKey == schema(Sub(p, k)).parentLeafKey
      ensures Independent(schema(Sub(p, j)), schema(Sub(p, k)))
    {
      assert !p.Main?;
      SlotConfigsIndependent(hashLen, j, k, hash);
    }
  }

  /** Two kinds of sub-tree do hang from one leaf there. */
  lemma KindsShareLeaves(hashLen: nat, hash: Leaves -> Bytes, p: Path, a: byte, b: byte, key: Bytes)
    requires p.Sub? && a != b
    ensures var schema := SharedLeafSchema(hashLen, hash);
            schema(Sub(p, [a] + key)).parentLeafKey == schema(Sub(p, [b] + key)).parentLeafKey == key
  {
    assert ([a] + key)[1..] == key && ([b] + key)[1..] == key;
  }
}
