/** The read side: a view descends from the main tree by taking each sub-tree's root from the
    leaf of its parent. What was written through the opened trees is what the views read after
    the roots have been propagated. */
module TreeViews {
  import opened Base
  import opened TreeLinks
  import opened TreeOrder

  /** A tree opened for reading at one of its roots. */
  datatype View = View(path: Path, leaves: Leaves)

  /** Opens the stored tree at a root. Only the root the tree has now is known to be readable. */
  function OpenAtRoot(trees: Forest, hash: Leaves -> Bytes, path: Path, root: Bytes): (r: Result<View, Error>)
    ensures r.Ok? <==> path in trees && hash(trees[path]) == root
    ensures r.Ok? ==> r.value == View(path, trees[path])
  {
    if path !in trees then Err(EmptyTree)
    else if hash(trees[path]) == root then Ok(View(path, trees[path]))
    else Err(RootNotCurrent)
  }

  /** TreeView.SubTree. */
  function SubView(trees: Forest, v: View, cfg: TreeConfig): Result<View, Error> {
    if cfg.parentLeafKey !in v.leaves then Err(KeyNotFound)
    else
      var root := cfg.getRoot(v.leaves[cfg.parentLeafKey]);
      if root.Err? then Err(root.error) else OpenAtRoot(trees, cfg.hash, Sub(v.path, cfg.prefix), root.value)
  }

  /** TreeView.DeepSubTree: the sub-tree reached through a list of configurations. */
  function DeepView(trees: Forest, v: View, cfgs: seq<TreeConfig>): Result<View, Error>
    decreases |cfgs|
  {
    if cfgs == [] then Ok(v)
    else
      var sub := SubView(trees, v, cfgs[0]);
      if sub.Err? then sub else DeepView(trees, sub.value, cfgs[1..])
  }

  /** TreeView.Get. */
  function Get(v: View, key: Bytes): Result<Bytes, Error> {
    if key in v.leaves then Ok(v.leaves[key]) else Err(KeyNotFound)
  }

  /** The loop of TreeView.DeepSubTree computes DeepView. */
  method DeepSubTree(trees: Forest, v: View, cfgs: seq<TreeConfig>) returns (r: Result<View, Error>)
    ensures r == DeepView(trees, v, cfgs)
  {
    var tree := v;
    for i := 0 to |cfgs|
      invariant DeepView(trees, v, cfgs) == DeepView(trees, tree, cfgs[i..])
    {
      var sub := SubView(trees, tree, cfgs[i]);
      if sub.Err? {
        return sub;
      }
      tree := sub.value;
      assert cfgs[i..][1..] == cfgs[i + 1..];
    }
    return Ok(tree);
  }

  // ---------------------------------------------------------------- when propagation succeeds

  /** Every written sub-tree finds its parent leaf, and the leaf has room for a root. */
  ghost predicate Writable(trees: Forest, open: OpenTrees, top: Path) {
    forall p, k :: p in open && Within(top, p) && p in trees && Sub(p, k) in open && DirtyBelow(open, Sub(p, k)) ==>
      && open[Sub(p, k)].cfg.parentLeafKey in trees[p]
      && Accepts(open[Sub(p, k)].cfg, trees[p][open[Sub(p, k)].cfg.parentLeafKey])
  }

  /** The leaf takes all the selected roots exactly when it has room for each of them. */
  lemma {:induction false} LeafTakesRoots(open: OpenTrees, after: Forest, p: Path, order: seq<Bytes>, rest: seq<Bytes>, selected: Path -> bool, key: Bytes, leaf: Bytes)
    requires LawfulConfigs(open)
    requires forall i, j :: 0 <= i < j < |order + rest| ==> (order + rest)[i] != (order + rest)[j]
    requires forall k :: k in order + rest ==> Sub(p, k) in open && Sub(p, k) in after
    requires forall k :: k in order ==> Sub(p, k) in open && Sub(p, k) in after
    ensures LeafWithRoots(open, after, p, order, selected, key, leaf).Ok? <==>
            forall k :: k in order && selected(Sub(p, k)) && open[Sub(p, k)].cfg.parentLeafKey == key ==> Accepts(open[Sub(p, k)].cfg, leaf)
    ensures var r := LeafWithRoots(open, after, p, order, selected, key, leaf);
            r.Ok? ==> forall k :: k in rest && open[Sub(p, k)].cfg.parentLeafKey == key ==>
              (Accepts(open[Sub(p, k)].cfg, r.value) <==> Accepts(open[Sub(p, k)].cfg, leaf))
    decreases |order|
  {
    if order != [] {
      var init, k := order[..|order| - 1], order[|order| - 1];
      assert order == init + [k] && k in order;
      assert order + rest == init + ([k] + rest);
      assert k in order + rest;
      LeafAppend(open, after, p, init, k, selected, key, leaf);
      LeafTakesRoots(open, after, p, init, [k] + rest, selected, key, leaf);
      assert forall j :: j in order <==> j in init || j == k;
      assert k in [k] + rest;
      if selected(Sub(p, k)) && open[Sub(p, k)].cfg.parentLeafKey == key {
        assert LawfulRoots(open[Sub(p, k)].cfg);
        forall j | j in rest && open[Sub(p, j)].cfg.parentLeafKey == key
          ensures j in [k] + rest && Independent(open[Sub(p, k)].cfg, open[Sub(p, j)].cfg) {
          var i :| 0 <= i < |rest| && rest[i] == j;
          assert (order + rest)[|order| - 1] == k && (order + rest)[|order| + i] == j;
        }
      }
    }
  }

  /** A propagation exists only for writable hierarchies. */
  lemma PropagatedIsWritable(trees: Forest, open: OpenTrees, after: Forest, top: Path, orders: map<Path, seq<Bytes>>)
    requires LawfulConfigs(open)
    requires Propagated(trees, open, after, top, orders, WrittenSubs(open))
    ensures Writable(trees, open, top)
  {
    forall p, k | p in open && Within(top, p) && p in trees && Sub(p, k) in open && DirtyBelow(open, Sub(p, k))
      ensures open[Sub(p, k)].cfg.parentLeafKey in trees[p]
      ensures Accepts(open[Sub(p, k)].cfg, trees[p][open[Sub(p, k)].cfg.parentLeafKey])
    {
      var order := orders[p];
      assert Settled(trees, open, after, p, order, WrittenSubs(open));
      assert k in order && WrittenSubs(open)(Sub(p, k));
      var key := open[Sub(p, k)].cfg.parentLeafKey;
      assert order + [] == order;
      LeafTakesRoots(open, after, p, order, [], WrittenSubs(open), key, trees[p][key]);
    }
  }

  // ---------------------------------------------------------------- links after propagation

  lemma {:induction false} AncestorOpen(trees: Forest, open: OpenTrees, q: Path, below: Path)
    requires WellOpened(trees, open) && below in open && Within(q, below)
    ensures q in open
    decreases below
  {
    if q != below {
      AncestorOpen(trees, open, q, below.parent);
    }
  }

  /** What the sub-tree `s` of `p` finds of its root in the leaf it hangs from: the current root if
      it was among those written, and what the leaf held before if not. */
  lemma {:induction false} RootInLeaf(schema: Schema, open: OpenTrees, after: Forest, p: Path, order: seq<Bytes>, selected: Path -> bool, leaf: Bytes, s: Bytes)
    requires LawfulSchema(schema) && FollowsSchema(open, schema)
    requires forall i, j :: 0 <= i < j < |order| ==> order[i] != order[j]
    requires forall k :: k in order ==> Sub(p, k) in open && Sub(p, k) in after
    requires LeafWithRoots(open, after, p, order, selected, schema(Sub(p, s)).parentLeafKey, leaf).Ok?
    ensures var v := LeafWithRoots(open, after, p, order, selected, schema(Sub(p, s)).parentLeafKey, leaf).value;
            schema(Sub(p, s)).getRoot(v) ==
              if s in order && selected(Sub(p, s)) then Ok(schema(Sub(p, s)).hash(after[Sub(p, s)])) else schema(Sub(p, s)).getRoot(leaf)
    decreases |order|
  {
    if order != [] {
      var init, k := order[..|order| - 1], order[|order| - 1];
      assert order == init + [k] && k in order;
      var key := schema(Sub(p, s)).parentLeafKey;
      LeafAppend(open, after, p, init, k, selected, key, leaf);
      RootInLeaf(schema, open, after, p, init, selected, leaf, s);
      assert s in order <==> s in init || s == k;
      assert k !in init;
      if selected(Sub(p, k)) && open[Sub(p, k)].cfg.parentLeafKey == key {
        assert open[Sub(p, k)].cfg == schema(Sub(p, k));
        if k == s {
          assert LawfulRoots(schema(Sub(p, s)));
        } else {
          assert Independent(schema(Sub(p, k)), schema(Sub(p, s)));
        }
      }
    }
  }

  /** The sub-tree at `q` will be reachable once the roots are propagated: either somebody wrote to
      it, or its parent leaf already holds its root. */
  ghost predicate WillBeLinked(trees: Forest, open: OpenTrees, schema: Schema, q: Path) {
    DirtyBelow(open, q) || Linked(trees, schema(q), q)
  }

  lemma LinkedAfter(schema: Schema, trees: Forest, open: OpenTrees, after: Forest, orders: map<Path, seq<Bytes>>, p: Path, s: Bytes)
    requires LawfulSchema(schema) && FollowsSchema(open, schema) && WellOpened(trees, open)
    requires Propagated(trees, open, after, Main, orders, WrittenSubs(open))
    requires p in trees && Sub(p, s) in trees && schema(Sub(p, s)).parentLeafKey in trees[p]
    requires WillBeLinked(trees, open, schema, Sub(p, s))
    ensures Linked(after, schema(Sub(p, s)), Sub(p, s))
  {
    var q := Sub(p, s);
    var key := schema(q).parentLeafKey;
    WithinMain(p);
    if DirtyBelow(open, q) {
      var below :| below in open && Within(q, below) && open[below].dirty;
      AncestorOpen(trees, open, q, below);
    }
    if p in open {
      assert Settled(trees, open, after, p, orders[p], WrittenSubs(open));
      assert key in after[p];
      RootInLeaf(schema, open, after, p, orders[p], WrittenSubs(open), trees[p][key], s);
      if DirtyBelow(open, q) {
        assert s in orders[p];
      } else {
        UnwrittenUnchanged(trees, open, after, orders, q);
      }
    } else {
      assert q !in open;
    }
  }

  lemma UnwrittenUnchanged(trees: Forest, open: OpenTrees, after: Forest, orders: map<Path, seq<Bytes>>, q: Path)
    requires Propagated(trees, open, after, Main, orders, WrittenSubs(open))
    requires q in trees && !DirtyBelow(open, q)
    ensures after[q] == trees[q]
  {
    WithinMain(q);
    if q in open {
      CleanUnchanged(trees, open, after, Main, orders, q);
    }
  }

  // ---------------------------------------------------------------- commit refines a nested map

  /** The configurations are those of the places they lead through. */
  ghost predicate Follows(schema: Schema, p: Path, cfgs: seq<TreeConfig>)
    decreases |cfgs|
  {
    cfgs != [] ==> cfgs[0] == schema(Sub(p, cfgs[0].prefix)) && Follows(schema, Sub(p, cfgs[0].prefix), cfgs[1..])
  }

  /** The configurations lead from `p` through existing trees whose parent leaves exist. */
  ghost predicate Route(trees: Forest, p: Path, cfgs: seq<TreeConfig>)
    decreases |cfgs|
  {
    p in trees && (cfgs != [] ==> cfgs[0].parentLeafKey in trees[p] && Route(trees, Sub(p, cfgs[0].prefix), cfgs[1..]))
  }

  /** Every sub-tree whose parent leaf exists has its root there. */
  ghost predicate AllLinked(schema: Schema, trees: Forest) {
    forall q :: q in trees && q.Sub? && q.parent in trees && schema(q).parentLeafKey in trees[q.parent] ==> Linked(trees, schema(q), q)
  }

  /** Where a list of configurations leads. */
  ghost function Destination(p: Path, cfgs: seq<TreeConfig>): Path
    decreases |cfgs|
  {
    if cfgs == [] then p else Destination(Sub(p, cfgs[0].prefix), cfgs[1..])
  }

  /** In a linked hierarchy a view reaches exactly the places whose parent leaves exist. Elsewhere
      it gets an error: a missing parent leaf hides everything below it, although the opened trees
      still read it. */
  lemma {:induction false} ViewReaches(schema: Schema, trees: Forest, p: Path, cfgs: seq<TreeConfig>)
    requires Follows(schema, p, cfgs) && AllLinked(schema, trees) && p in trees
    ensures DeepView(trees, View(p, trees[p]), cfgs).Ok? <==> Route(trees, p, cfgs)
    ensures Route(trees, p, cfgs) ==> Destination(p, cfgs) in trees
    ensures Route(trees, p, cfgs) ==>
              DeepView(trees, View(p, trees[p]), cfgs) == Ok(View(Destination(p, cfgs), trees[Destination(p, cfgs)]))
    decreases |cfgs|
  {
    if cfgs != [] && cfgs[0].parentLeafKey in trees[p] && Sub(p, cfgs[0].prefix) in trees {
      var q := Sub(p, cfgs[0].prefix);
      assert Linked(trees, schema(q), q);
      ViewReaches(schema, trees, q, cfgs[1..]);
    }
  }

  lemma {:induction false} RouteKept(trees: Forest, after: Forest, p: Path, cfgs: seq<TreeConfig>)
    requires after.Keys == trees.Keys && forall q :: q in trees ==> after[q].Keys == trees[q].Keys
    ensures Route(after, p, cfgs) <==> Route(trees, p, cfgs)
    decreases |cfgs|
  {
    if cfgs != [] {
      RouteKept(trees, after, Sub(p, cfgs[0].prefix), cfgs[1..]);
    }
  }

  /** Writing roots into a leaf changes nothing that the root writers leave alone. */
  lemma {:induction false} LeafKeepsRest<T>(open: OpenTrees, after: Forest, p: Path, order: seq<Bytes>, selected: Path -> bool, key: Bytes, leaf: Bytes, observe: Bytes -> T)
    requires forall k :: k in order ==> Sub(p, k) in open && Sub(p, k) in after
    requires forall k :: k in order && selected(Sub(p, k)) && open[Sub(p, k)].cfg.parentLeafKey == key ==> BlindTo(open[Sub(p, k)].cfg, observe)
    requires LeafWithRoots(open, after, p, order, selected, key, leaf).Ok?
    ensures observe(LeafWithRoots(open, after, p, order, selected, key, leaf).value) == observe(leaf)
    decreases |order|
  {
    if order != [] {
      assert order[|order| - 1] in order;
      LeafKeepsRest(open, after, p, order[..|order| - 1], selected, key, leaf, observe);
    }
  }

  /** The observation does not see the roots that configuration `c` writes. */
  ghost predicate BlindTo<T>(c: TreeConfig, observe: Bytes -> T) {
    forall v: Bytes, m: Leaves {:trigger c.setRoot(v, c.hash(m))} ::
      c.setRoot(v, c.hash(m)).Ok? ==> observe(c.setRoot(v, c.hash(m)).value) == observe(v)
  }

  lemma KeysKept(trees: Forest, open: OpenTrees, after: Forest, orders: map<Path, seq<Bytes>>)
    requires Propagated(trees, open, after, Main, orders, WrittenSubs(open))
    ensures forall q :: q in trees ==> after[q].Keys == trees[q].Keys
  {
    forall q | q in trees ensures after[q].Keys == trees[q].Keys {
      WithinMain(q);
      if q in open {
        assert Settled(trees, open, after, q, orders[q], WrittenSubs(open));
      }
    }
  }

  /** Every sub-tree whose parent leaf exists was written to or is linked. */
  ghost predicate AllWillBeLinked(schema: Schema, trees: Forest, open: OpenTrees) {
    forall q :: q in trees && q.Sub? && q.parent in trees && schema(q).parentLeafKey in trees[q.parent] ==> WillBeLinked(trees, open, schema, q)
  }

  /** Propagation links every sub-tree whose parent leaf exists. */
  lemma PropagationLinksAll(schema: Schema, trees: Forest, open: OpenTrees, after: Forest, orders: map<Path, seq<Bytes>>)
    requires LawfulSchema(schema) && FollowsSchema(open, schema) && WellOpened(trees, open)
    requires Propagated(trees, open, after, Main, orders, WrittenSubs(open))
    requires AllWillBeLinked(schema, trees, open)
    ensures AllLinked(schema, after)
  {
    KeysKept(trees, open, after, orders);
    forall q | q in after && q.Sub? && q.parent in after && schema(q).parentLeafKey in after[q.parent]
      ensures Linked(after, schema(q), q) {
      LinkedAfter(schema, trees, open, after, orders, q.parent, q.name);
    }
  }

  /** The observation is blind to every root that propagation writes into the leaf `key` of `p`. */
  ghost predicate BlindToRoots<T>(open: OpenTrees, p: Path, key: Bytes, observe: Bytes -> T) {
    forall k :: Sub(p, k) in open && DirtyBelow(open, Sub(p, k)) && open[Sub(p, k)].cfg.parentLeafKey == key ==> BlindTo(open[Sub(p, k)].cfg, observe)
  }

  /** Apart from the roots, propagation keeps the leaves. */
  lemma LeavesKeptButRoots<T>(trees: Forest, open: OpenTrees, after: Forest, orders: map<Path, seq<Bytes>>, p: Path, key: Bytes, observe: Bytes -> T)
    requires Propagated(trees, open, after, Main, orders, WrittenSubs(open))
    requires p in trees && key in trees[p] && BlindToRoots(open, p, key, observe)
    ensures key in after[p] && observe(after[p][key]) == observe(trees[p][key])
  {
    WithinMain(p);
    if p in open {
      assert Settled(trees, open, after, p, orders[p], WrittenSubs(open));
      LeafKeepsRest(open, after, p, orders[p], WrittenSubs(open), key, trees[p][key], observe);
    }
  }

  /** Commit refines the nested map. `trees` and `open` are the transaction just before its roots
      were propagated into `after`. For every list of configurations, a view of the result arrives
      exactly when the parent leaves exist, and then at the tree the opened trees arrived at, with
      the same keys; under each key it reads the same value as far as one can tell without looking
      at the roots just written (every observation blind to them agrees), and the root embedded for
      every sub-tree hanging there is that sub-tree's current one. */
  lemma CommitRefinesNestedMap<T>(schema: Schema, trees: Forest, open: OpenTrees, after: Forest, orders: map<Path, seq<Bytes>>,
                                  cfgs: seq<TreeConfig>, key: Bytes, observe: Bytes -> T)
    requires LawfulSchema(schema) && FollowsSchema(open, schema) && WellOpened(trees, open)
    requires Propagated(trees, open, after, Main, orders, WrittenSubs(open))
    requires AllWillBeLinked(schema, trees, open)
    requires Follows(schema, Main, cfgs)
    ensures DeepView(after, View(Main, after[Main]), cfgs).Ok? <==> Route(trees, Main, cfgs)
    ensures Route(trees, Main, cfgs) ==>
              var p := Destination(Main, cfgs);
              && p in trees && DeepView(after, View(Main, after[Main]), cfgs) == Ok(View(p, after[p]))
              && after[p].Keys == trees[p].Keys
              && (key in trees[p] && BlindToRoots(open, p, key, observe) ==> observe(after[p][key]) == observe(trees[p][key]))
              && (forall k :: Sub(p, k) in trees && schema(Sub(p, k)).parentLeafKey == key && key in trees[p] ==>
                    schema(Sub(p, k)).getRoot(after[p][key]) == Ok(schema(Sub(p, k)).hash(after[Sub(p, k)])))
  {
    KeysKept(trees, open, after, orders);
    PropagationLinksAll(schema, trees, open, after, orders);
    RouteKept(trees, after, Main, cfgs);
    ViewReaches(schema, after, Main, cfgs);
    if Route(trees, Main, cfgs) {
      var p := Destination(Main, cfgs);
      if key in trees[p] {
        if BlindToRoots(open, p, key, observe) {
          LeavesKeptButRoots(trees, open, after, orders, p, key, observe);
        }
        forall k | Sub(p, k) in trees && schema(Sub(p, k)).parentLeafKey == key
          ensures schema(Sub(p, k)).getRoot(after[p][key]) == Ok(schema(Sub(p, k)).hash(after[Sub(p, k)])) {
          assert Linked(after, schema(Sub(p, k)), Sub(p, k));
        }
      }
    }
  }
}
