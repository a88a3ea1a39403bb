/** Root propagation has one result: the order in which the opened sub-trees are visited, at any
    level, does not matter, and neither does skipping the branches nobody wrote to. */
module TreeOrder {
  import opened Base
  import opened TreeLinks

  // ---------------------------------------------------------------- one leaf, several orders

  /** One step of LeafWithRoots. */
  lemma LeafAppend(open: OpenTrees, after: Forest, p: Path, order: seq<Bytes>, k: Bytes, selected: Path -> bool, key: Bytes, leaf: Bytes)
    requires forall j :: j in order + [k] ==> Sub(p, j) in open && Sub(p, j) in after
    requires forall j :: j in order ==> Sub(p, j) in open && Sub(p, j) in after
    ensures Sub(p, k) in open && Sub(p, k) in after
    ensures LeafWithRoots(open, after, p, order + [k], selected, key, leaf) ==
            var before := LeafWithRoots(open, after, p, order, selected, key, leaf);
            if before.Ok? && selected(Sub(p, k)) && open[Sub(p, k)].cfg.parentLeafKey == key
            then SetRootOf(open, after, Sub(p, k), before.value) else before
  {
    assert k in order + [k];
    assert (order + [k])[..|order|] == order;
  }

  /** Writing the roots of two sub-trees into one leaf commutes. */
  lemma SetRootsCommute(open: OpenTrees, after: Forest, p: Path, j: Bytes, k: Bytes, leaf: Bytes)
    requires LawfulConfigs(open) && j != k
    requires Sub(p, j) in open && Sub(p, j) in after && Sub(p, k) in open && Sub(p, k) in after
    requires open[Sub(p, j)].cfg.parentLeafKey == open[Sub(p, k)].cfg.parentLeafKey
    requires SetRootOf(open, after, Sub(p, j), leaf).Ok?
    requires SetRootOf(open, after, Sub(p, k), SetRootOf(open, after, Sub(p, j), leaf).value).Ok?
    ensures SetRootOf(open, after, Sub(p, k), leaf).Ok?
    ensures SetRootOf(open, after, Sub(p, j), SetRootOf(open, after, Sub(p, k), leaf).value) ==
            SetRootOf(open, after, Sub(p, k), SetRootOf(open, after, Sub(p, j), leaf).value)
  {
    var c, d := open[Sub(p, j)].cfg, open[Sub(p, k)].cfg;
    assert Independent(c, d) && LawfulRoots(d);
    var v := c.setRoot(leaf, c.hash(after[Sub(p, j)])).value;
    assert d.setRoot(v, d.hash(after[Sub(p, k)])).Ok?;
    assert Accepts(d, v);
    assert Accepts(d, leaf);
    assert d.setRoot(leaf, d.hash(after[Sub(p, k)])).Ok?;
  }

  /** A sub-tree that comes last could as well have come before all of `b`. */
  lemma {:induction false} MoveForward(open: OpenTrees, after: Forest, p: Path, a: seq<Bytes>, b: seq<Bytes>, k: Bytes, selected: Path -> bool, key: Bytes, leaf: Bytes)
    requires LawfulConfigs(open) && k !in b
    requires forall j :: j in a + b + [k] ==> Sub(p, j) in open && Sub(p, j) in after
    requires forall j :: j in a + [k] + b ==> Sub(p, j) in open && Sub(p, j) in after
    requires LeafWithRoots(open, after, p, a + b + [k], selected, key, leaf).Ok?
    ensures LeafWithRoots(open, after, p, a + [k] + b, selected, key, leaf) == LeafWithRoots(open, after, p, a + b + [k], selected, key, leaf)
    decreases |b|
  {
    if b == [] {
      assert a + b + [k] == a + [k] + b;
    } else {
      var b', j := b[..|b| - 1], b[|b| - 1];
      assert b == b' + [j];
      assert a + b + [k] == (a + b' + [j]) + [k] && a + [k] + b == (a + [k] + b') + [j];
      LeafAppend(open, after, p, a + b' + [j], k, selected, key, leaf);
      LeafAppend(open, after, p, a + b', j, selected, key, leaf);
      LeafAppend(open, after, p, a + b', k, selected, key, leaf);
      LeafAppend(open, after, p, a + [k] + b', j, selected, key, leaf);
      var v := LeafWithRoots(open, after, p, a + b', selected, key, leaf);
      if selected(Sub(p, j)) && open[Sub(p, j)].cfg.parentLeafKey == key && selected(Sub(p, k)) && open[Sub(p, k)].cfg.parentLeafKey == key {
        SetRootsCommute(open, after, p, j, k, v.value);
      }
      MoveForward(open, after, p, a, b', k, selected, key, leaf);
    }
  }

  /** The last element of one order taken out of another order of the same elements. */
  lemma TakeOut(o1: seq<Bytes>, o2: seq<Bytes>) returns (a: seq<Bytes>, b: seq<Bytes>)
    requires o1 != [] && forall k :: k in o1 <==> k in o2
    requires forall i, j :: 0 <= i < j < |o1| ==> o1[i] != o1[j]
    requires forall i, j :: 0 <= i < j < |o2| ==> o2[i] != o2[j]
    ensures var init, k := o1[..|o1| - 1], o1[|o1| - 1];
            && o1 == init + [k] && o2 == a + [k] + b
            && (forall j :: j in o1 <==> j in init || j == k) && (forall j :: j in o2 <==> j in a + b || j == k)
            && k !in init && k !in a + b && (forall j :: j in init <==> j in a + b)
            && (forall i, j :: 0 <= i < j < |a + b| ==> (a + b)[i] != (a + b)[j])
  {
    var init, k := o1[..|o1| - 1], o1[|o1| - 1];
    assert o1 == init + [k];
    assert k in o2;
    var i :| 0 <= i < |o2| && o2[i] == k;
    a, b := o2[..i], o2[i + 1..];
    assert o2 == a + [k] + b;
    assert forall j :: j in o2 <==> j in a + b || j == k;
    assert k !in init && k !in a + b;
  }

  /** Two orders of the same sub-trees leave the same leaf. */
  lemma {:induction false} LeafOrderIndependent(open: OpenTrees, after: Forest, p: Path, o1: seq<Bytes>, o2: seq<Bytes>, selected: Path -> bool, key: Bytes, leaf: Bytes)
    requires LawfulConfigs(open)
    requires forall k :: k in o1 <==> k in o2
    requires forall i, j :: 0 <= i < j < |o1| ==> o1[i] != o1[j]
    requires forall i, j :: 0 <= i < j < |o2| ==> o2[i] != o2[j]
    requires forall k :: k in o1 ==> Sub(p, k) in open && Sub(p, k) in after
    requires LeafWithRoots(open, after, p, o1, selected, key, leaf).Ok?
    ensures LeafWithRoots(open, after, p, o2, selected, key, leaf) == LeafWithRoots(open, after, p, o1, selected, key, leaf)
    decreases |o1|
  {
    if o1 == [] {
      assert forall k :: k !in o2;
    } else {
      var init, k := o1[..|o1| - 1], o1[|o1| - 1];
      assert o1 == init + [k];
      var a, b := TakeOut(o1, o2);
      LeafOrderIndependent(open, after, p, init, a + b, selected, key, leaf);
      LeafAppend(open, after, p, init, k, selected, key, leaf);
      LeafAppend(open, after, p, a + b, k, selected, key, leaf);
      MoveForward(open, after, p, a, b, k, selected, key, leaf);
    }
  }

  /** The leaf depends on the result only through the sub-trees listed. */
  lemma {:induction false} LeafOfEqualSubs(open: OpenTrees, t1: Forest, t2: Forest, p: Path, order: seq<Bytes>, selected: Path -> bool, key: Bytes, leaf: Bytes)
    requires forall k :: k in order ==> Sub(p, k) in open && Sub(p, k) in t1 && Sub(p, k) in t2 && t1[Sub(p, k)] == t2[Sub(p, k)]
    ensures LeafWithRoots(open, t1, p, order, selected, key, leaf) == LeafWithRoots(open, t2, p, order, selected, key, leaf)
    decreases |order|
  {
    if order != [] {
      assert order[|order| - 1] in order;
      LeafOfEqualSubs(open, t1, t2, p, order[..|order| - 1], selected, key, leaf);
    }
  }

  // ---------------------------------------------------------------- the whole hierarchy

  /** The opened trees at or below `p`. */
  ghost function Below(open: OpenTrees, p: Path): set<Path> {
    set q | q in open && Within(p, q)
  }

  function Depth(p: Path): nat {
    if p.Main? then 0 else 1 + Depth(p.parent)
  }

  lemma {:induction false} WithinIsDeeper(top: Path, q: Path)
    ensures Within(top, q) ==> Depth(top) <= Depth(q)
    decreases q
  {
    if Within(top, q) && q != top {
      WithinIsDeeper(top, q.parent);
    }
  }

  lemma {:induction false} WithinMain(q: Path)
    ensures Within(Main, q)
    decreases q
  {
    if q.Sub? {
      WithinMain(q.parent);
    }
  }

  lemma {:induction false} WithinTransitive(a: Path, b: Path, c: Path)
    requires Within(a, b) && Within(b, c)
    ensures Within(a, c)
    decreases c
  {
    if c != b {
      WithinTransitive(a, b, c.parent);
    }
  }

  lemma SubIsSmaller(open: OpenTrees, p: Path, k: Bytes)
    requires p in open
    ensures Below(open, Sub(p, k)) < Below(open, p)
  {
    WithinIsDeeper(Sub(p, k), p);
    assert p in Below(open, p);
    forall q | q in Below(open, Sub(p, k)) ensures q in Below(open, p) {
      WithinTransitive(p, Sub(p, k), q);
    }
  }

  /** Two solutions of the local equation at `p` that agree on the sub-trees agree on `p`. */
  lemma SameTreeFromSubs(trees: Forest, open: OpenTrees, t1: Forest, t2: Forest, p: Path, o1: seq<Bytes>, o2: seq<Bytes>, selected: Path -> bool)
    requires LawfulConfigs(open)
    requires Settled(trees, open, t1, p, o1, selected) && Settled(trees, open, t2, p, o2, selected)
    requires forall k :: k in o1 ==> t1[Sub(p, k)] == t2[Sub(p, k)]
    ensures t1[p] == t2[p]
  {
    forall key | key in trees[p] ensures t1[p][key] == t2[p][key] {
      LeafOrderIndependent(open, t1, p, o1, o2, selected, key, trees[p][key]);
      LeafOfEqualSubs(open, t1, t2, p, o2, selected, key, trees[p][key]);
    }
  }

  lemma {:induction false} SameTreeAt(trees: Forest, open: OpenTrees, t1: Forest, t2: Forest, top: Path,
                   orders1: map<Path, seq<Bytes>>, orders2: map<Path, seq<Bytes>>, selected: Path -> bool, p: Path)
    requires LawfulConfigs(open) && p in open && Within(top, p)
    requires Propagated(trees, open, t1, top, orders1, selected)
    requires Propagated(trees, open, t2, top, orders2, selected)
    ensures p in t1 && p in t2 && t1[p] == t2[p]
    decreases Below(open, p)
  {
    var o1, o2 := orders1[p], orders2[p];
    assert Settled(trees, open, t1, p, o1, selected) && Settled(trees, open, t2, p, o2, selected);
    forall k | k in o1 ensures Sub(p, k) in t1 && Sub(p, k) in t2 && t1[Sub(p, k)] == t2[Sub(p, k)] {
      SubIsSmaller(open, p, k);
      SameTreeAt(trees, open, t1, t2, top, orders1, orders2, selected, Sub(p, k));
    }
    SameTreeFromSubs(trees, open, t1, t2, p, o1, o2, selected);
  }

  /** Order independence: two propagations of the same writes, with whatever iteration orders at
      whatever levels, leave identical trees, hence identical roots everywhere. */
  lemma PropagationIsUnique(trees: Forest, open: OpenTrees, t1: Forest, t2: Forest, top: Path,
                            orders1: map<Path, seq<Bytes>>, orders2: map<Path, seq<Bytes>>, selected: Path -> bool)
    requires LawfulConfigs(open)
    requires Propagated(trees, open, t1, top, orders1, selected)
    requires Propagated(trees, open, t2, top, orders2, selected)
    ensures t1 == t2
  {
    forall p | p in trees ensures t1[p] == t2[p] {
      if p in open && Within(top, p) {
        SameTreeAt(trees, open, t1, t2, top, orders1, orders2, selected, p);
      }
    }
  }

  // ---------------------------------------------------------------- skipping clean branches

  /** The parent's leaf exists and holds the root of the sub-tree at `q`. */
  ghost predicate Linked(trees: Forest, cfg: TreeConfig, q: Path) {
    && q.Sub? && q in trees && q.parent in trees
    && cfg.parentLeafKey in trees[q.parent]
    && cfg.getRoot(trees[q.parent][cfg.parentLeafKey]) == Ok(cfg.hash(trees[q]))
  }

  /** Every opened sub-tree that nobody wrote to is linked. */
  ghost predicate CleanSubsLinked(trees: Forest, open: OpenTrees, top: Path) {
    forall q :: q in open && Within(top, q) && q != top && !DirtyBelow(open, q) ==> Linked(trees, open[q].cfg, q)
  }

  ghost function EverySub(): Path -> bool { _ => true }

  ghost function WrittenSubs(open: OpenTrees): Path -> bool { q => DirtyBelow(open, q) }

  lemma DirtySubDirty(open: OpenTrees, p: Path, k: Bytes)
    ensures DirtyBelow(open, Sub(p, k)) ==> DirtyBelow(open, p)
  {
    if DirtyBelow(open, Sub(p, k)) {
      var q :| q in open && Within(Sub(p, k), q) && open[q].dirty;
      WithinTransitive(p, Sub(p, k), q);
    }
  }

  /** A branch nobody wrote to comes out as it went in. */
  lemma CleanUnchanged(trees: Forest, open: OpenTrees, after: Forest, top: Path, orders: map<Path, seq<Bytes>>, p: Path)
    requires Propagated(trees, open, after, top, orders, WrittenSubs(open))
    requires p in open && Within(top, p) && !DirtyBelow(open, p)
    ensures after[p] == trees[p]
  {
    var order := orders[p];
    forall k | k in order ensures !DirtyBelow(open, Sub(p, k)) {
      DirtySubDirty(open, p, k);
    }
    forall key | key in trees[p] ensures after[p][key] == trees[p][key] {
      NothingSelected(open, after, p, order, WrittenSubs(open), key, trees[p][key]);
    }
  }

  lemma {:induction false} NothingSelected(open: OpenTrees, after: Forest, p: Path, order: seq<Bytes>, selected: Path -> bool, key: Bytes, leaf: Bytes)
    requires forall k :: k in order ==> Sub(p, k) in open && Sub(p, k) in after && !selected(Sub(p, k))
    ensures LeafWithRoots(open, after, p, order, selected, key, leaf) == Ok(leaf)
    decreases |order|
  {
    if order != [] {
      assert order[|order| - 1] in order;
      NothingSelected(open, after, p, order[..|order| - 1], selected, key, leaf);
    }
  }

  /** Rewriting the roots of the linked sub-trees as well leaves the leaf as it is. */
  lemma {:induction false} SkippedWritesAreIdle(open: OpenTrees, after: Forest, p: Path, order: seq<Bytes>, rest: seq<Bytes>, key: Bytes, leaf: Bytes)
    requires LawfulConfigs(open)
    requires forall i, j :: 0 <= i < j < |order + rest| ==> (order + rest)[i] != (order + rest)[j]
    requires forall k :: k in order + rest ==> Sub(p, k) in open && Sub(p, k) in after
    requires forall k :: k in order ==> Sub(p, k) in open && Sub(p, k) in after
    requires LeafWithRoots(open, after, p, order, WrittenSubs(open), key, leaf).Ok?
    requires forall k :: k in order + rest && !DirtyBelow(open, Sub(p, k)) && open[Sub(p, k)].cfg.parentLeafKey == key
               ==> open[Sub(p, k)].cfg.getRoot(leaf) == Ok(open[Sub(p, k)].cfg.hash(after[Sub(p, k)]))
    ensures LeafWithRoots(open, after, p, order, EverySub(), key, leaf) == LeafWithRoots(open, after, p, order, WrittenSubs(open), key, leaf)
    ensures var v := LeafWithRoots(open, after, p, order, WrittenSubs(open), key, leaf).value;
            forall k :: k in order + rest && !DirtyBelow(open, Sub(p, k)) && open[Sub(p, k)].cfg.parentLeafKey == key
              ==> open[Sub(p, k)].cfg.getRoot(v) == Ok(open[Sub(p, k)].cfg.hash(after[Sub(p, k)]))
    decreases |order|
  {
    if order != [] {
      var init, k := order[..|order| - 1], order[|order| - 1];
      assert order == init + [k] && k in order;
      assert order + rest == init + ([k] + rest);
      LeafAppend(open, after, p, init, k, WrittenSubs(open), key, leaf);
      LeafAppend(open, after, p, init, k, EverySub(), key, leaf);
      SkippedWritesAreIdle(open, after, p, init, [k] + rest, key, leaf);
      var q := Sub(p, k);
      if open[q].cfg.parentLeafKey == key {
        var v := LeafWithRoots(open, after, p, init, WrittenSubs(open), key, leaf).value;
        if DirtyBelow(open, q) {
          forall j | j in order + rest && !DirtyBelow(open, Sub(p, j)) && open[Sub(p, j)].cfg.parentLeafKey == key
            ensures open[Sub(p, j)].cfg.getRoot(SetRootOf(open, after, q, v).value) == Ok(open[Sub(p, j)].cfg.hash(after[Sub(p, j)])) {
            assert Independent(open[q].cfg, open[Sub(p, j)].cfg);
          }
        } else {
          assert k in order + rest;
          assert LawfulRoots(open[q].cfg);
        }
      }
    }
  }

  /** Dirty-skip soundness: when the sub-trees nobody wrote to were linked at the start, the
      propagation that skips them is also the one that rewrites every parent leaf. */
  lemma SkippingIsSound(trees: Forest, open: OpenTrees, after: Forest, top: Path, orders: map<Path, seq<Bytes>>)
    requires LawfulConfigs(open)
    requires CleanSubsLinked(trees, open, top)
    requires Propagated(trees, open, after, top, orders, WrittenSubs(open))
    ensures Propagated(trees, open, after, top, orders, EverySub())
  {
    forall p | p in open && Within(top, p) ensures Settled(trees, open, after, p, orders[p], EverySub()) {
      var order := orders[p];
      assert Settled(trees, open, after, p, order, WrittenSubs(open));
      forall k | k in order && !DirtyBelow(open, Sub(p, k))
        ensures Linked(trees, open[Sub(p, k)].cfg, Sub(p, k)) && after[Sub(p, k)] == trees[Sub(p, k)] {
        WithinIsDeeper(top, p);
        assert Within(top, Sub(p, k));
        CleanUnchanged(trees, open, after, top, orders, Sub(p, k));
      }
      forall key | key in trees[p]
        ensures LeafWithRoots(open, after, p, order, EverySub(), key, trees[p][key]) == Ok(after[p][key]) {
        assert order + [] == order;
        forall k | k in order && !DirtyBelow(open, Sub(p, k)) && open[Sub(p, k)].cfg.parentLeafKey == key
          ensures open[Sub(p, k)].cfg.getRoot(trees[p][key]) == Ok(open[Sub(p, k)].cfg.hash(after[Sub(p, k)])) {
          assert Linked(trees, open[Sub(p, k)].cfg, Sub(p, k));
        }
        SkippedWritesAreIdle(open, after, p, order, [], key, trees[p][key]);
      }
      forall k | k in order ensures open[Sub(p, k)].cfg.parentLeafKey in trees[p] {
        if !DirtyBelow(open, Sub(p, k)) {
          assert Linked(trees, open[Sub(p, k)].cfg, Sub(p, k));
        } else {
          assert WrittenSubs(open)(Sub(p, k));
        }
      }
    }
  }
}
