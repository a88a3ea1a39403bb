/** The linked hierarchy of Merkle trees on values: what it means for the roots of the
    sub-trees to have been written into the leaves of their parents.

    A tree is the map of its leaves, a place in the hierarchy is named by the sub-tree prefixes
    that lead to it, and the root of a tree is an abstract hash of its leaves. */
module TreeLinks {
  import opened Base

  type Leaves = map<Bytes, Bytes>

  /** A place in the hierarchy: the main tree, or the sub-tree with some prefix under a place. */
  datatype Path = Main | Sub(parent: Path, name: Bytes)

  type Forest = map<Path, Leaves>

  datatype Error =
    | KeyNotFound
    | KeyExists
    | BadLeaf
    | EmptyTree
    | RootNotCurrent
    | UnknownVersion

  /** How a sub-tree hangs from its parent: the leaf that holds its root, its storage prefix,
      its hash, and the two functions that read and write the root inside the leaf. */
  datatype TreeConfig = TreeConfig(
    parentLeafKey: Bytes,
    prefix: Bytes,
    hash: Leaves -> Bytes,
    getRoot: Bytes -> Result<Bytes, Error>,
    setRoot: (Bytes, Bytes) -> Result<Bytes, Error>)

  /** An opened tree: whether it was written to, and its configuration. */
  datatype Opened = Opened(dirty: bool, cfg: TreeConfig)

  type OpenTrees = map<Path, Opened>

  // ---------------------------------------------------------------- the laws of a configuration

  /** `setRoot` and `getRoot` address one place inside the leaf, and whether a leaf can hold a
      root does not depend on which root it is. */
  ghost predicate LawfulRoots(c: TreeConfig) {
    && (forall v: Bytes, m: Leaves {:trigger c.setRoot(v, c.hash(m))} ::
          c.setRoot(v, c.hash(m)).Ok? ==> c.getRoot(c.setRoot(v, c.hash(m)).value) == Ok(c.hash(m)))
    && (forall v: Bytes, m: Leaves {:trigger c.setRoot(v, c.hash(m))} ::
          c.getRoot(v) == Ok(c.hash(m)) ==> c.setRoot(v, c.hash(m)) == Ok(v))
    && (forall v: Bytes, m: Leaves {:trigger c.setRoot(v, c.hash(m))} ::
          c.setRoot(v, c.hash(m)).Ok? <==> Accepts(c, v))
  }

  /** The leaf value `v` has room for a root of configuration `c`. */
  ghost predicate Accepts(c: TreeConfig, v: Bytes) {
    c.setRoot(v, c.hash(map[])).Ok?
  }

  /** Two configurations keep their roots in different places of a shared leaf. */
  ghost predicate Independent(c: TreeConfig, d: TreeConfig) {
    && (forall v: Bytes, m: Leaves {:trigger c.setRoot(v, c.hash(m))} ::
          c.setRoot(v, c.hash(m)).Ok? ==>
            && d.getRoot(c.setRoot(v, c.hash(m)).value) == d.getRoot(v)
            && (Accepts(d, c.setRoot(v, c.hash(m)).value) <==> Accepts(d, v)))
    && (forall v: Bytes, m: Leaves, n: Leaves {:trigger c.setRoot(v, c.hash(m)), d.hash(n)} ::
          c.setRoot(v, c.hash(m)).Ok? && d.setRoot(v, d.hash(n)).Ok? ==>
            d.setRoot(c.setRoot(v, c.hash(m)).value, d.hash(n)) == c.setRoot(d.setRoot(v, d.hash(n)).value, c.hash(m)))
  }

  /** The configurations in use obey the laws; the ones sharing a parent leaf are independent. */
  ghost predicate LawfulConfigs(open: OpenTrees) {
    && (forall p :: p in open && p.Sub? ==> LawfulRoots(open[p].cfg))
    && (forall p, j, k {:trigger Sub(p, j), Sub(p, k)} ::
          j != k && Sub(p, j) in open && Sub(p, k) in open
          && open[Sub(p, j)].cfg.parentLeafKey == open[Sub(p, k)].cfg.parentLeafKey
          ==> Independent(open[Sub(p, j)].cfg, open[Sub(p, k)].cfg))
  }

  /** Which configuration belongs to which place: the prefix names the sub-tree under its parent. */
  type Schema = Path -> TreeConfig

  ghost predicate LawfulSchema(schema: Schema) {
    && (forall p: Path {:trigger schema(p)} :: p.Sub? ==>
          LawfulRoots(schema(p)) && schema(p).prefix == p.name)
    && (forall p: Path, j: Bytes, k: Bytes {:trigger Sub(p, j), Sub(p, k)} ::
          j != k && schema(Sub(p, j)).parentLeafKey == schema(Sub(p, k)).parentLeafKey
          ==> Independent(schema(Sub(p, j)), schema(Sub(p, k))))
  }

  ghost predicate FollowsSchema(open: OpenTrees, schema: Schema) {
    forall p :: p in open ==> open[p].cfg == schema(p)
  }

  lemma SchemaGivesConfigs(open: OpenTrees, schema: Schema)
    requires LawfulSchema(schema) && FollowsSchema(open, schema)
    ensures LawfulConfigs(open)
  {
  }

  // ---------------------------------------------------------------- the opened part of the hierarchy

  /** The place `q` is `top` or somewhere under it. */
  ghost predicate Within(top: Path, q: Path)
    decreases q
  {
    q == top || (q.Sub? && Within(top, q.parent))
  }

  /** The opened trees form a tree below the main one and all of them exist. */
  ghost predicate WellOpened(trees: Forest, open: OpenTrees) {
    && Main in open
    && (forall p :: p in open ==> p in trees)
    && (forall p {:trigger p.parent} :: p in open && p.Sub? ==> p.parent in open)
  }

  /** The tree at `p`, or an opened tree below it, was written to. */
  ghost predicate DirtyBelow(open: OpenTrees, p: Path) {
    exists q :: q in open && Within(p, q) && open[q].dirty
  }

  /** `order` lists the prefixes of the sub-trees opened under `p`, each once. */
  ghost predicate ListsSubs(open: OpenTrees, p: Path, order: seq<Bytes>) {
    && (forall k :: k in order <==> Sub(p, k) in open)
    && (forall i, j :: 0 <= i < j < |order| ==> order[i] != order[j])
  }

  // ---------------------------------------------------------------- roots inside parent leaves

  /** Writes the root that the sub-tree at `q` has in `after` into the leaf of its parent. */
  ghost function SetRootOf(open: OpenTrees, after: Forest, q: Path, leaf: Bytes): Result<Bytes, Error>
    requires q in open && q in after
  {
    open[q].cfg.setRoot(leaf, open[q].cfg.hash(after[q]))
  }

  /** The value of the leaf `key` of `p` once the roots of the selected sub-trees hanging from it
      have been written, in the given order. */
  ghost function LeafWithRoots(open: OpenTrees, after: Forest, p: Path, order: seq<Bytes>, selected: Path -> bool, key: Bytes, leaf: Bytes)
    : Result<Bytes, Error>
    requires forall k :: k in order ==> Sub(p, k) in open && Sub(p, k) in after
  {
    if order == [] then Ok(leaf)
    else
      var before := LeafWithRoots(open, after, p, order[..|order| - 1], selected, key, leaf);
      var q := Sub(p, order[|order| - 1]);
      if before.Ok? && selected(q) && open[q].cfg.parentLeafKey == key then SetRootOf(open, after, q, before.value) else before
  }

  /** The local equation of root propagation at `p`: its leaves hold the roots that the selected
      sub-trees have in the very same result, and nothing else about it changed. */
  ghost predicate Settled(trees: Forest, open: OpenTrees, after: Forest, p: Path, order: seq<Bytes>, selected: Path -> bool) {
    && p in trees && p in after && ListsSubs(open, p, order)
    && (forall k :: k in order ==> Sub(p, k) in open && Sub(p, k) in after)
    && (forall k :: k in order && selected(Sub(p, k)) ==> open[Sub(p, k)].cfg.parentLeafKey in trees[p])
    && after[p].Keys == trees[p].Keys
    && (forall key :: key in trees[p] ==>
          LeafWithRoots(open, after, p, order, selected, key, trees[p][key]) == Ok(after[p][key]))
  }

  /** `after` is a propagation of the roots of the sub-trees opened at or below `top`. */
  ghost predicate Propagated(trees: Forest, open: OpenTrees, after: Forest, top: Path, orders: map<Path, seq<Bytes>>, selected: Path -> bool) {
    && after.Keys == trees.Keys
    && (forall p :: p in open && Within(top, p) ==> p in orders && Settled(trees, open, after, p, orders[p], selected))
    && (forall p :: p in trees && !(p in open && Within(top, p)) ==> after[p] == trees[p])
  }
}
