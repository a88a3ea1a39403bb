/** A transaction over the hierarchy: the trees opened for update, the writes to them and the
    propagation of their roots.

    The transaction object holds the forest it writes to and, for each place opened in it, the
    dirty flag and the configuration; the places under an opened one are its opened sub-trees. */
module TreeUpdates {
  import opened Base
  import opened TreeLinks
  import opened TreeOrder
  import opened TreeViews

  /** The versions recorded beside the main tree: the last one, and the main root of each. */
  datatype Versions = Versions(current: Option<uint32>, roots: map<uint32, Bytes>)

  /** getVersion: a database without versions is at version 0. */
  function CurrentVersion(v: Versions): uint32 {
    if v.current.Some? then v.current.value else 0
  }

  /** getVersionRoot: version 0 of a database without versions is the empty tree. */
  function VersionRoot(v: Versions, version: uint32, emptyRoot: Bytes): Result<Bytes, Error> {
    if version in v.roots then Ok(v.roots[version])
    else if version == 0 then Ok(emptyRoot)
    else Err(UnknownVersion)
  }

  /** setVersionRoot. */
  function RecordVersion(v: Versions, version: uint32, root: Bytes): Versions {
    Versions(Some(version), v.roots[version := root])
  }

  /** The root of the last version. */
  function RecordedRoot(v: Versions, emptyRoot: Bytes): Result<Bytes, Error> {
    VersionRoot(v, CurrentVersion(v), emptyRoot)
  }

  // ---------------------------------------------------------------- a transaction as a value

  /** The forest of a transaction, the trees opened in it, its versions, and whether its roots have
      been propagated and recorded since the last write. */
  datatype Tx = Tx(trees: Forest, open: OpenTrees, versions: Versions, sealed: bool)

  /** BeginTx: the main tree is opened, and created if it does not exist. */
  function BeginOn(trees: Forest, versions: Versions, mainCfg: TreeConfig): Tx {
    Tx(if Main in trees then trees else trees[Main := map[]], map[Main := Opened(false, mainCfg)], versions, true)
  }

  /** A write that failed still marks the tree. */
  function TouchTree(t: Tx, p: Path): Tx
    requires p in t.open
  {
    t.(open := t.open[p := t.open[p].(dirty := true)], sealed := false)
  }

  function PutLeaf(t: Tx, p: Path, key: Bytes, value: Bytes): Tx
    requires p in t.open && p in t.trees
  {
    TouchTree(t, p).(trees := t.trees[p := t.trees[p][key := value]])
  }

  function RemoveLeaf(t: Tx, p: Path, key: Bytes): Tx
    requires p in t.open && p in t.trees
  {
    TouchTree(t, p).(trees := t.trees[p := t.trees[p] - {key}])
  }

  /** Every place but `p`, and every key of `p` but `key`, is as it was. */
  ghost predicate SameButLeaf(before: Forest, after: Forest, p: Path, key: Bytes) {
    && after.Keys == before.Keys && p in before
    && (forall q :: q in before && q != p ==> after[q] == before[q])
    && (forall k :: k != key ==> (k in after[p] <==> k in before[p]))
    && (forall k :: k != key && k in before[p] ==> after[p][k] == before[p][k])
  }

  /** A prefix opened before keeps its tree, whatever the configuration; a tree that does not exist
      comes into existence empty. */
  function OpenSubTree(t: Tx, p: Path, c: TreeConfig): Tx {
    var sub := Sub(p, c.prefix);
    if sub in t.open then t
    else t.(open := t.open[sub := Opened(false, c)], trees := if sub in t.trees then t.trees else t.trees[sub := map[]])
  }

  /** CommitOnTx: the roots are propagated in some order, the sub-trees are closed, and the version
      gets the main root, or the root of the last version when nothing was written. */
  ghost predicate CommittedOnTx(t: Tx, t': Tx, version: uint32, orders: map<Path, seq<Bytes>>)
    requires Main in t.open
  {
    && Propagated(t.trees, t.open, t'.trees, Main, orders, WrittenSubs(t.open))
    && t'.open == map[Main := t.open[Main]] && t'.sealed
    && Main in t'.trees
    && var hash := t.open[Main].cfg.hash;
       var last := RecordedRoot(t.versions, hash(map[]));
       var root := if DirtyBelow(t.open, Main) then Ok(hash(t'.trees[Main])) else last;
       root.Ok? && t'.versions == RecordVersion(t.versions, version, root.value)
  }

  /** A new root, and the function that writes it into the parent leaf. */
  datatype Update = Update(setRoot: (Bytes, Bytes) -> Result<Bytes, Error>, root: Bytes)

  // ---------------------------------------------------------------- what the two loops accumulate

  /** The updates for the leaf `key` of `p` gathered from the sub-trees listed so far. */
  ghost function UpdatesFor(open: OpenTrees, trees: Forest, p: Path, order: seq<Bytes>, key: Bytes): (ups: seq<Update>)
    requires forall k :: k in order ==> Sub(p, k) in open && Sub(p, k) in trees
  {
    if order == [] then []
    else
      var q := Sub(p, order[|order| - 1]);
      var init := UpdatesFor(open, trees, p, order[..|order| - 1], key);
      if DirtyBelow(open, q) && open[q].cfg.parentLeafKey == key
      then init + [Update(open[q].cfg.setRoot, open[q].cfg.hash(trees[q]))]
      else init
  }

  function ApplyUpdates(leaf: Result<Bytes, Error>, ups: seq<Update>): Result<Bytes, Error>
    decreases |ups|
  {
    if ups == [] || leaf.Err? then leaf
    else ApplyUpdates(ups[0].setRoot(leaf.value, ups[0].root), ups[1..])
  }

  lemma {:induction false} ApplyUpdatesAppend(leaf: Result<Bytes, Error>, ups: seq<Update>, up: Update)
    ensures ApplyUpdates(leaf, ups + [up]) ==
            var r := ApplyUpdates(leaf, ups); if r.Ok? then up.setRoot(r.value, up.root) else r
    decreases |ups|
  {
    if ups == [] || leaf.Err? {
      assert (ups + [up])[1..] == [] || ups != [];
    } else {
      assert (ups + [up])[1..] == ups[1..] + [up];
      ApplyUpdatesAppend(ups[0].setRoot(leaf.value, ups[0].root), ups[1..], up);
    }
  }

  /** Applying the gathered updates is writing the roots of the written sub-trees. */
  lemma {:induction false} UpdatesWriteRoots(open: OpenTrees, trees: Forest, p: Path, order: seq<Bytes>, key: Bytes, leaf: Bytes)
    requires forall k :: k in order ==> Sub(p, k) in open && Sub(p, k) in trees
    ensures ApplyUpdates(Ok(leaf), UpdatesFor(open, trees, p, order, key)) ==
            LeafWithRoots(open, trees, p, order, WrittenSubs(open), key, leaf)
    decreases |order|
  {
    if order != [] {
      var init, q := order[..|order| - 1], Sub(p, order[|order| - 1]);
      assert order[|order| - 1] in order;
      UpdatesWriteRoots(open, trees, p, init, key, leaf);
      ApplyUpdatesAppend(Ok(leaf), UpdatesFor(open, trees, p, init, key), Update(open[q].cfg.setRoot, open[q].cfg.hash(trees[q])));
    }
  }

  lemma {:induction false} UpdatesOfEqualSubs(open: OpenTrees, t1: Forest, t2: Forest, p: Path, order: seq<Bytes>, key: Bytes)
    requires forall k :: k in order ==> Sub(p, k) in open && Sub(p, k) in t1 && Sub(p, k) in t2 && t1[Sub(p, k)] == t2[Sub(p, k)]
    ensures UpdatesFor(open, t1, p, order, key) == UpdatesFor(open, t2, p, order, key)
    decreases |order|
  {
    if order != [] {
      assert order[|order| - 1] in order;
      UpdatesOfEqualSubs(open, t1, t2, p, order[..|order| - 1], key);
    }
  }

  /** There are updates exactly when some listed sub-tree was written to. */
  lemma {:induction false} UpdatesAreDirtySubs(open: OpenTrees, trees: Forest, p: Path, order: seq<Bytes>, key: Bytes)
    requires forall k :: k in order ==> Sub(p, k) in open && Sub(p, k) in trees
    ensures UpdatesFor(open, trees, p, order, key) != [] <==>
            exists k :: k in order && DirtyBelow(open, Sub(p, k)) && open[Sub(p, k)].cfg.parentLeafKey == key
    decreases |order|
  {
    if order != [] {
      var k := order[|order| - 1];
      assert k in order && order == order[..|order| - 1] + [k];
      UpdatesAreDirtySubs(open, trees, p, order[..|order| - 1], key);
      if exists j :: j in order && DirtyBelow(open, Sub(p, j)) && open[Sub(p, j)].cfg.parentLeafKey == key {
        var j :| j in order && DirtyBelow(open, Sub(p, j)) && open[Sub(p, j)].cfg.parentLeafKey == key;
        assert j == k || j in order[..|order| - 1];
      }
    }
  }

  // ---------------------------------------------------------------- frames of the local equation

  lemma SettledFrame(trees: Forest, open: OpenTrees, after: Forest, trees': Forest, after': Forest, p: Path, order: seq<Bytes>, selected: Path -> bool)
    requires Settled(trees, open, after, p, order, selected)
    requires p in trees' && trees'[p] == trees[p] && p in after' && after'[p] == after[p]
    requires forall k :: k in order ==> Sub(p, k) in after' && after'[Sub(p, k)] == after[Sub(p, k)]
    ensures Settled(trees', open, after', p, order, selected)
  {
    forall key | key in trees'[p]
      ensures LeafWithRoots(open, after', p, order, selected, key, trees'[p][key]) == Ok(after'[p][key]) {
      LeafOfEqualSubs(open, after, after', p, order, selected, key, trees[p][key]);
    }
  }

  /** Places under different sub-trees of `p` are different. */
  lemma {:induction false} SubsAreApart(p: Path, j: Bytes, k: Bytes, q: Path)
    requires Within(Sub(p, j), q) && Within(Sub(p, k), q)
    ensures j == k
    decreases q
  {
    WithinIsDeeper(Sub(p, j), p);
    WithinIsDeeper(Sub(p, k), p);
    if q != Sub(p, j) && q != Sub(p, k) {
      SubsAreApart(p, j, k, q.parent);
    }
  }

  /** A place strictly under `p` is under exactly one of its sub-trees. */
  lemma {:induction false} BranchOf(p: Path, q: Path) returns (k: Bytes)
    requires Within(p, q) && q != p
    ensures Within(Sub(p, k), q)
    decreases q
  {
    if q.parent == p {
      k := q.name;
    } else {
      k := BranchOf(p, q.parent);
    }
  }

  // ---------------------------------------------------------------- the first loop of propagateRoot

  /** The place `q` lies under one of the listed sub-trees of `p`. */
  ghost predicate Covered(p: Path, order: seq<Bytes>, q: Path) {
    exists k :: k in order && Within(Sub(p, k), q)
  }

  /** The listed sub-trees of `p` have been propagated, and nothing else has changed. */
  ghost predicate Gathered(trees: Forest, open: OpenTrees, after: Forest, p: Path, order: seq<Bytes>, orders: map<Path, seq<Bytes>>) {
    && after.Keys == trees.Keys
    && (forall k :: k in order ==> Sub(p, k) in open)
    && (forall i, j :: 0 <= i < j < |order| ==> order[i] != order[j])
    && (forall q :: q in open && Covered(p, order, q) ==> q in orders && Settled(trees, open, after, q, orders[q], WrittenSubs(open)))
    && (forall q :: q in trees && !(q in open && Covered(p, order, q)) ==> after[q] == trees[q])
  }

  ghost function Merge(orders: map<Path, seq<Bytes>>, more: map<Path, seq<Bytes>>, top: Path): map<Path, seq<Bytes>> {
    orders + (map q | q in more && Within(top, q) :: more[q])
  }

  lemma CoveredAppend(p: Path, order: seq<Bytes>, k: Bytes, q: Path)
    ensures Covered(p, order + [k], q) <==> Covered(p, order, q) || Within(Sub(p, k), q)
  {
    if Covered(p, order, q) {
      var j :| j in order && Within(Sub(p, j), q);
      assert j in order + [k];
    }
    if Within(Sub(p, k), q) {
      assert k in order + [k];
    }
  }

  lemma NotCoveredTwice(p: Path, order: seq<Bytes>, k: Bytes, q: Path)
    requires k !in order && Within(Sub(p, k), q)
    ensures !Covered(p, order, q)
  {
    if Covered(p, order, q) {
      var j :| j in order && Within(Sub(p, j), q);
      SubsAreApart(p, j, k, q);
    }
  }

  lemma GatherOldPlace(trees: Forest, open: OpenTrees, t1: Forest, t2: Forest, p: Path, order: seq<Bytes>, k: Bytes,
                       orders: map<Path, seq<Bytes>>, more: map<Path, seq<Bytes>>, q: Path)
    requires Gathered(trees, open, t1, p, order, orders) && k !in order && Sub(p, k) in open
    requires Propagated(t1, open, t2, Sub(p, k), more, WrittenSubs(open))
    requires q in open && Covered(p, order, q)
    ensures q in Merge(orders, more, Sub(p, k)) && Settled(trees, open, t2, q, Merge(orders, more, Sub(p, k))[q], WrittenSubs(open))
  {
    var j :| j in order && Within(Sub(p, j), q);
    if Within(Sub(p, k), q) { SubsAreApart(p, j, k, q); }
    forall c | c in orders[q] ensures !Within(Sub(p, k), Sub(q, c)) {
      if Within(Sub(p, k), Sub(q, c)) { SubsAreApart(p, j, k, Sub(q, c)); }
    }
    SettledFrame(trees, open, t1, trees, t2, q, orders[q], WrittenSubs(open));
  }

  lemma GatherNewPlace(trees: Forest, open: OpenTrees, t1: Forest, t2: Forest, p: Path, order: seq<Bytes>, k: Bytes,
                       orders: map<Path, seq<Bytes>>, more: map<Path, seq<Bytes>>, q: Path)
    requires Gathered(trees, open, t1, p, order, orders) && k !in order && Sub(p, k) in open
    requires Propagated(t1, open, t2, Sub(p, k), more, WrittenSubs(open))
    requires q in open && Within(Sub(p, k), q)
    ensures q in Merge(orders, more, Sub(p, k)) && Settled(trees, open, t2, q, Merge(orders, more, Sub(p, k))[q], WrittenSubs(open))
  {
    NotCoveredTwice(p, order, k, q);
    SettledFrame(t1, open, t2, trees, t2, q, more[q], WrittenSubs(open));
  }

  lemma GatherStep(trees: Forest, open: OpenTrees, t1: Forest, t2: Forest, p: Path, order: seq<Bytes>, k: Bytes,
                   orders: map<Path, seq<Bytes>>, more: map<Path, seq<Bytes>>)
    requires Gathered(trees, open, t1, p, order, orders) && k !in order && Sub(p, k) in open
    requires Propagated(t1, open, t2, Sub(p, k), more, WrittenSubs(open))
    ensures Gathered(trees, open, t2, p, order + [k], Merge(orders, more, Sub(p, k)))
    ensures forall j :: j in order ==> t2[Sub(p, j)] == t1[Sub(p, j)]
  {
    forall q | q in open && Covered(p, order + [k], q)
      ensures q in Merge(orders, more, Sub(p, k)) && Settled(trees, open, t2, q, Merge(orders, more, Sub(p, k))[q], WrittenSubs(open)) {
      CoveredAppend(p, order, k, q);
      if Covered(p, order, q) {
        GatherOldPlace(trees, open, t1, t2, p, order, k, orders, more, q);
      } else {
        GatherNewPlace(trees, open, t1, t2, p, order, k, orders, more, q);
      }
    }
    forall q | q in trees && !(q in open && Covered(p, order + [k], q)) ensures t2[q] == trees[q] {
      CoveredAppend(p, order, k, q);
    }
    forall j | j in order ensures t2[Sub(p, j)] == t1[Sub(p, j)] {
      if Within(Sub(p, k), Sub(p, j)) { SubsAreApart(p, j, k, Sub(p, j)); }
    }
  }

  /** Places below `p` stay settled when only `p` changes. */
  lemma BelowStaysSettled(trees: Forest, open: OpenTrees, mid: Forest, after: Forest, p: Path, order: seq<Bytes>, orders: map<Path, seq<Bytes>>, q: Path)
    requires WellOpened(trees, open) && ListsSubs(open, p, order) && Gathered(trees, open, mid, p, order, orders)
    requires after.Keys == mid.Keys && forall x :: x in mid && x != p ==> after[x] == mid[x]
    requires q in open && Within(p, q) && q != p
    ensures q in orders && Settled(trees, open, after, q, orders[q], WrittenSubs(open))
  {
    var k := BranchOf(p, q);
    AncestorOpen(trees, open, Sub(p, k), q);
    assert k in order;
    assert Covered(p, order, q);
    forall c | c in orders[q] ensures Sub(q, c) != p {
      WithinIsDeeper(p, q);
    }
    SettledFrame(trees, open, mid, trees, after, q, orders[q], WrittenSubs(open));
  }

  /** Once all the sub-trees are gathered, writing the leaves of `p` completes the propagation. */
  lemma GatherComplete(trees: Forest, open: OpenTrees, mid: Forest, after: Forest, p: Path, order: seq<Bytes>, orders: map<Path, seq<Bytes>>)
    requires p in open && p in trees && ListsSubs(open, p, order)
    requires WellOpened(trees, open)
    requires Gathered(trees, open, mid, p, order, orders)
    requires after.Keys == mid.Keys && forall q :: q in mid && q != p ==> after[q] == mid[q]
    requires Settled(mid, open, after, p, order, WrittenSubs(open))
    ensures Propagated(trees, open, after, p, orders[p := order], WrittenSubs(open))
  {
    NotUnderOwnSub(p, order);
    forall q | q in open && Within(p, q) ensures q in orders[p := order] && Settled(trees, open, after, q, orders[p := order][q], WrittenSubs(open)) {
      if q == p {
        SettledFrame(mid, open, after, trees, after, p, order, WrittenSubs(open));
      } else {
        BelowStaysSettled(trees, open, mid, after, p, order, orders, q);
      }
    }
    forall q | q in trees && !(q in open && Within(p, q)) ensures after[q] == trees[q] {
      if Covered(p, order, q) {
        var k :| k in order && Within(Sub(p, k), q);
        WithinTransitive(p, Sub(p, k), q);
      }
    }
  }

  lemma NotUnderOwnSub(p: Path, order: seq<Bytes>)
    ensures !Covered(p, order, p)
  {
    if Covered(p, order, p) {
      var k :| k in order && Within(Sub(p, k), p);
      WithinIsDeeper(Sub(p, k), p);
    }
  }

  /** A sub-tree that cannot be propagated makes the whole unwritable. */
  lemma UnwritableSub(trees: Forest, open: OpenTrees, mid: Forest, p: Path, order: seq<Bytes>, orders: map<Path, seq<Bytes>>, k: Bytes)
    requires Gathered(trees, open, mid, p, order, orders) && k !in order
    requires forall q :: q in open ==> q in trees
    requires !Writable(mid, open, Sub(p, k))
    ensures !Writable(trees, open, p)
  {
    var q, c :| q in open && Within(Sub(p, k), q) && q in mid && Sub(q, c) in open && DirtyBelow(open, Sub(q, c))
      && !(&& open[Sub(q, c)].cfg.parentLeafKey in mid[q]
           && Accepts(open[Sub(q, c)].cfg, mid[q][open[Sub(q, c)].cfg.parentLeafKey]));
    NotCoveredTwice(p, order, k, q);
    WithinTransitive(p, Sub(p, k), q);
  }

  // ---------------------------------------------------------------- the second loop of propagateRoot

  lemma UpdatesStep(open: OpenTrees, trees: Forest, p: Path, order: seq<Bytes>, k: Bytes, key: Bytes)
    requires forall j :: j in order ==> Sub(p, j) in open && Sub(p, j) in trees
    requires forall j :: j in order + [k] ==> Sub(p, j) in open && Sub(p, j) in trees
    ensures Sub(p, k) in open && Sub(p, k) in trees
    ensures UpdatesFor(open, trees, p, order + [k], key) ==
            UpdatesFor(open, trees, p, order, key) +
            if DirtyBelow(open, Sub(p, k)) && open[Sub(p, k)].cfg.parentLeafKey == key
            then [Update(open[Sub(p, k)].cfg.setRoot, open[Sub(p, k)].cfg.hash(trees[Sub(p, k)]))] else []
  {
    assert k in order + [k];
    assert (order + [k])[..|order|] == order;
  }

  /** The tree at `p` needs propagation exactly when it was written to or some leaf gets an update. */
  lemma DirtyMeansUpdates(open: OpenTrees, trees: Forest, p: Path, order: seq<Bytes>)
    requires WellOpened(trees, open) && p in open && ListsSubs(open, p, order)
    ensures DirtyBelow(open, p) <==> open[p].dirty || exists key :: UpdatesFor(open, trees, p, order, key) != []
  {
    if DirtyBelow(open, p) && !open[p].dirty {
      var q :| q in open && Within(p, q) && open[q].dirty;
      var k := BranchOf(p, q);
      AncestorOpen(trees, open, Sub(p, k), q);
      assert k in order && DirtyBelow(open, Sub(p, k));
      UpdatesAreDirtySubs(open, trees, p, order, open[Sub(p, k)].cfg.parentLeafKey);
    }
    if exists key :: UpdatesFor(open, trees, p, order, key) != [] {
      var key :| UpdatesFor(open, trees, p, order, key) != [];
      UpdatesAreDirtySubs(open, trees, p, order, key);
      var k :| k in order && DirtyBelow(open, Sub(p, k));
      DirtySubDirty(open, p, k);
    }
    if open[p].dirty {
      assert Within(p, p);
    }
  }

  /** When every leaf of `p` holds the result of its updates, `p` is settled. */
  lemma LeavesSettled(trees: Forest, open: OpenTrees, after: Forest, p: Path, order: seq<Bytes>)
    requires p in trees && p in after && after.Keys == trees.Keys && ListsSubs(open, p, order)
    requires forall q :: q in open ==> q in trees
    requires forall q :: q in trees && q != p ==> after[q] == trees[q]
    requires after[p].Keys == trees[p].Keys
    requires forall key :: UpdatesFor(open, trees, p, order, key) != [] ==> key in trees[p]
    requires forall key :: key in trees[p] ==> ApplyUpdates(Ok(trees[p][key]), UpdatesFor(open, trees, p, order, key)) == Ok(after[p][key])
    ensures Settled(trees, open, after, p, order, WrittenSubs(open))
  {
    forall k | k in order ensures Sub(p, k) in after && after[Sub(p, k)] == trees[Sub(p, k)] {
      assert Depth(Sub(p, k)) == 1 + Depth(p);
    }
    forall key | key in trees[p]
      ensures LeafWithRoots(open, after, p, order, WrittenSubs(open), key, trees[p][key]) == Ok(after[p][key]) {
      UpdatesWriteRoots(open, trees, p, order, key, trees[p][key]);
      LeafOfEqualSubs(open, trees, after, p, order, WrittenSubs(open), key, trees[p][key]);
    }
    forall k | k in order && WrittenSubs(open)(Sub(p, k)) ensures open[Sub(p, k)].cfg.parentLeafKey in trees[p] {
      UpdatesAreDirtySubs(open, trees, p, order, open[Sub(p, k)].cfg.parentLeafKey);
    }
  }

  /** A leaf that is missing or does not take its updates makes the hierarchy unwritable. */
  lemma UnwritableLeaf(trees: Forest, open: OpenTrees, mid: Forest, p: Path, order: seq<Bytes>, orders: map<Path, seq<Bytes>>, key: Bytes)
    requires LawfulConfigs(open) && WellOpened(trees, open) && p in open && ListsSubs(open, p, order)
    requires Gathered(trees, open, mid, p, order, orders)
    requires UpdatesFor(open, mid, p, order, key) != []
    requires key !in mid[p] || ApplyUpdates(Ok(mid[p][key]), UpdatesFor(open, mid, p, order, key)).Err?
    ensures !Writable(trees, open, p)
  {
    NotUnderOwnSub(p, order);
    assert mid[p] == trees[p] && Within(p, p);
    if key in mid[p] {
      UpdatesWriteRoots(open, mid, p, order, key, mid[p][key]);
      assert order + [] == order;
      LeafTakesRoots(open, mid, p, order, [], WrittenSubs(open), key, mid[p][key]);
    } else {
      UpdatesAreDirtySubs(open, mid, p, order, key);
    }
  }

  /** `ups` are the updates for the leaves of `p`, by leaf key, from the sub-trees listed. */
  ghost predicate Gives(ups: map<Bytes, seq<Update>>, open: OpenTrees, trees: Forest, p: Path, order: seq<Bytes>)
    requires forall k :: k in order ==> Sub(p, k) in open && Sub(p, k) in trees
  {
    forall key {:trigger key in ups} {:trigger UpdatesFor(open, trees, p, order, key)} ::
      && (key in ups <==> UpdatesFor(open, trees, p, order, key) != [])
      && (key in ups ==> ups[key] == UpdatesFor(open, trees, p, order, key))
  }

  /** Appends a root, if there is one, to the updates of the leaf it belongs to. */
  function AddUpdate(ups: map<Bytes, seq<Update>>, cfg: TreeConfig, root: Option<Bytes>): map<Bytes, seq<Update>> {
    if root.None? then ups
    else
      var previous := if cfg.parentLeafKey in ups then ups[cfg.parentLeafKey] else [];
      ups[cfg.parentLeafKey := previous + [Update(cfg.setRoot, root.value)]]
  }

  lemma GivesStep(ups: map<Bytes, seq<Update>>, open: OpenTrees, before: Forest, trees: Forest, p: Path, order: seq<Bytes>, k: Bytes, root: Option<Bytes>)
    requires forall j :: j in order + [k] ==> Sub(p, j) in open && Sub(p, j) in trees
    requires forall j :: j in order ==> Sub(p, j) in open && Sub(p, j) in trees && Sub(p, j) in before && trees[Sub(p, j)] == before[Sub(p, j)]
    requires Gives(ups, open, before, p, order)
    requires Sub(p, k) in open && Sub(p, k) in trees
    requires root == if DirtyBelow(open, Sub(p, k)) then Some(open[Sub(p, k)].cfg.hash(trees[Sub(p, k)])) else None
    ensures Gives(AddUpdate(ups, open[Sub(p, k)].cfg, root), open, trees, p, order + [k])
  {
    forall key
      ensures UpdatesFor(open, trees, p, order + [k], key) ==
              UpdatesFor(open, before, p, order, key) +
              if root.Some? && open[Sub(p, k)].cfg.parentLeafKey == key
              then [Update(open[Sub(p, k)].cfg.setRoot, root.value)] else [] {
      UpdatesOfEqualSubs(open, before, trees, p, order, key);
      UpdatesStep(open, trees, p, order, k, key);
    }
  }

  /** The leaves whose keys are not in `todo` hold the result of their updates. */
  ghost predicate PartlyWritten(leaves: Leaves, now: Leaves, ups: map<Bytes, seq<Update>>, todo: set<Bytes>) {
    && now.Keys == leaves.Keys
    && (forall key :: key in ups && key !in todo ==> key in leaves && ApplyUpdates(Ok(leaves[key]), ups[key]) == Ok(now[key]))
    && (forall key :: key in leaves && (key !in ups || key in todo) ==> now[key] == leaves[key])
  }

  lemma WriteLeaf(leaves: Leaves, now: Leaves, ups: map<Bytes, seq<Update>>, todo: set<Bytes>, key: Bytes, leaf: Bytes)
    requires PartlyWritten(leaves, now, ups, todo) && key in todo && key in ups && key in leaves
    requires ApplyUpdates(Ok(leaves[key]), ups[key]) == Ok(leaf)
    ensures PartlyWritten(leaves, now[key := leaf], ups, todo - {key})
  {
  }

  lemma WrittenSettles(trees: Forest, open: OpenTrees, after: Forest, p: Path, order: seq<Bytes>, ups: map<Bytes, seq<Update>>)
    requires WellOpened(trees, open) && p in open && after.Keys == trees.Keys && ListsSubs(open, p, order)
    requires forall q :: q in trees && q != p ==> after[q] == trees[q]
    requires Gives(ups, open, trees, p, order)
    requires PartlyWritten(trees[p], after[p], ups, {})
    ensures Settled(trees, open, after, p, order, WrittenSubs(open))
  {
    forall key | key in trees[p]
      ensures ApplyUpdates(Ok(trees[p][key]), UpdatesFor(open, trees, p, order, key)) == Ok(after[p][key]) {
      if key !in ups {
        assert UpdatesFor(open, trees, p, order, key) == [];
      }
    }
    LeavesSettled(trees, open, after, p, order);
  }

  /** What the two loops of propagateRoot achieve together. */
  lemma LoopsPropagate(trees: Forest, open: OpenTrees, mid: Forest, after: Forest, p: Path, order: seq<Bytes>,
                       orders: map<Path, seq<Bytes>>, ups: map<Bytes, seq<Update>>)
    requires WellOpened(trees, open) && p in open && ListsSubs(open, p, order)
    requires Gathered(trees, open, mid, p, order, orders)
    requires Gives(ups, open, mid, p, order)
    requires p in after && after == mid[p := after[p]] && PartlyWritten(mid[p], after[p], ups, {})
    ensures Propagated(trees, open, after, p, orders[p := order], WrittenSubs(open))
    ensures DirtyBelow(open, p) <==> open[p].dirty || ups != map[]
  {
    WrittenSettles(mid, open, after, p, order, ups);
    GatherComplete(trees, open, mid, after, p, order, orders);
    DirtyMeansUpdates(open, mid, p, order);
    if ups != map[] {
      var key :| key in ups;
      assert UpdatesFor(open, mid, p, order, key) != [];
    }
  }
}
