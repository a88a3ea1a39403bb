/** The transaction object: writes, sub-trees, propagateRoot and CommitOnTx. */
module TreeTransactions {
  import opened Base
  import opened TreeLinks
  import opened TreeOrder
  import opened TreeViews
  import opened TreeUpdates

  class TreeTx {
    const mainCfg: TreeConfig
    var trees: Forest
    var open: OpenTrees
    var versions: Versions
    ghost var sealed: bool

    constructor (trees: Forest, versions: Versions, mainCfg: TreeConfig)
      ensures this.mainCfg == mainCfg && Valid() && State() == BeginOn(trees, versions, mainCfg)
    {
      this.mainCfg, this.versions, sealed := mainCfg, versions, true;
      this.trees := if Main in trees then trees else trees[Main := map[]];
      open := map[Main := Opened(false, mainCfg)];
    }

    ghost predicate Valid()
      reads this
    {
      WellOpened(trees, open) && open[Main].cfg == mainCfg
    }

    ghost function State(): Tx
      reads this
    {
      Tx(trees, open, versions, sealed)
    }

    // -------------------------------------------------------------- reads and writes of one tree

    method Get(p: Path, key: Bytes) returns (r: Result<Bytes, Error>)
      requires Valid() && p in open
      ensures r == TreeViews.Get(View(p, trees[p]), key)
      ensures r == if key in trees[p] then Ok(trees[p][key]) else Err(KeyNotFound)
    {
      r := if key in trees[p] then Ok(trees[p][key]) else Err(KeyNotFound);
    }

    method MarkDirty(p: Path)
      requires Valid() && p in open
      modifies this`open, this`sealed
      ensures Valid() && State() == TouchTree(old(State()), p)
    {
      open := open[p := open[p].(dirty := true)];
      sealed := false;
    }

    /** Adds a key that is not there. The tree counts as written to also when the key exists. */
    method Add(p: Path, key: Bytes, value: Bytes) returns (r: Result<(), Error>)
      requires Valid() && p in open
      modifies this`trees, this`open, this`sealed
      ensures Valid()
      ensures r.Ok? <==> key !in old(trees[p])
      ensures r.Ok? ==> p in trees && trees[p].Keys == old(trees[p]).Keys + {key} && trees[p][key] == value && SameButLeaf(old(trees), trees, p, key)
      ensures r.Err? ==> trees == old(trees)
      ensures open == old(open)[p := old(open)[p].(dirty := true)]
      ensures State() == if r.Ok? then PutLeaf(old(State()), p, key, value) else TouchTree(old(State()), p)
    {
      MarkDirty(p);
      if key in trees[p] {
        return Err(KeyExists);
      }
      trees := trees[p := trees[p][key := value]];
      return Ok(());
    }

    method Set(p: Path, key: Bytes, value: Bytes)
      requires Valid() && p in open
      modifies this`trees, this`open, this`sealed
      ensures Valid()
      ensures p in trees && trees[p].Keys == old(trees[p]).Keys + {key} && trees[p][key] == value && SameButLeaf(old(trees), trees, p, key)
      ensures open == old(open)[p := old(open)[p].(dirty := true)]
      ensures State() == PutLeaf(old(State()), p, key, value)
    {
      MarkDirty(p);
      trees := trees[p := trees[p][key := value]];
    }

    method Del(p: Path, key: Bytes) returns (r: Result<(), Error>)
      requires Valid() && p in open
      modifies this`trees, this`open, this`sealed
      ensures Valid()
      ensures r.Ok? <==> key in old(trees[p])
      ensures r.Ok? ==> p in trees && trees[p].Keys == old(trees[p]).Keys - {key} && SameButLeaf(old(trees), trees, p, key)
      ensures r.Err? ==> trees == old(trees)
      ensures open == old(open)[p := old(open)[p].(dirty := true)]
      ensures State() == if r.Ok? then RemoveLeaf(old(State()), p, key) else TouchTree(old(State()), p)
    {
      MarkDirty(p);
      if key !in trees[p] {
        return Err(KeyNotFound);
      }
      trees := trees[p := trees[p] - {key}];
      return Ok(());
    }

    // -------------------------------------------------------------- sub-trees

    method SubTree(p: Path, c: TreeConfig) returns (sub: Path)
      requires Valid() && p in open
      modifies this`trees, this`open
      ensures Valid() && sub == Sub(p, c.prefix) && sub in open
      ensures State() == OpenSubTree(old(State()), p, c)
    {
      sub := Sub(p, c.prefix);
      if sub in open {
        return;
      }
      if sub !in trees {
        trees := trees[sub := map[]];
      }
      open := open[sub := Opened(false, c)];
    }

    /** Opens the sub-trees along a list of configurations. */
    method DeepSubTree(cfgs: seq<TreeConfig>) returns (sub: Path)
      requires Valid()
      modifies this`trees, this`open
      ensures Valid() && sub == Destination(Main, cfgs) && sub in open
      ensures State() == OpenAlong(old(State()), Main, cfgs)
    {
      sub := Main;
      for i := 0 to |cfgs|
        invariant Valid() && sub in open
        invariant Destination(Main, cfgs) == Destination(sub, cfgs[i..])
        invariant OpenAlong(old(State()), Main, cfgs) == OpenAlong(State(), sub, cfgs[i..])
      {
        assert cfgs[i..][1..] == cfgs[i + 1..];
        sub := SubTree(sub, cfgs[i]);
      }
    }

    /** Reading through a list of configurations opens what is not open on the way. */
    method DeepGet(key: Bytes, cfgs: seq<TreeConfig>) returns (r: Result<Bytes, Error>)
      requires Valid()
      modifies this`trees, this`open
      ensures Valid() && State() == OpenAlong(old(State()), Main, cfgs)
      ensures var p := Destination(Main, cfgs);
              r == if p in old(trees) && key in old(trees)[p] then Ok(old(trees)[p][key]) else Err(KeyNotFound)
    {
      OpeningKeepsTrees(State(), Main, cfgs);
      var p := DeepSubTree(cfgs);
      r := Get(p, key);
    }

    // -------------------------------------------------------------- propagation of the roots

    /** Propagates the roots of the sub-trees opened at or below `p` into the leaves of their
        parents, whatever the order in which they come. It succeeds exactly when every written
        sub-tree finds its parent leaf with room for a root (the `Err` half is stated for lawful
        configurations; PropagatedIsWritable is the other half), and it returns no root exactly
        when neither the tree nor any opened tree below it was written to. */
    method PropagateRoot(p: Path) returns (r: Result<Option<Bytes>, Error>, ghost orders: map<Path, seq<Bytes>>)
      requires Valid() && p in open
      modifies this`trees
      ensures Valid() && trees.Keys == old(trees.Keys)
      ensures r.Ok? ==> Propagated(old(trees), open, trees, p, orders, WrittenSubs(open))
      ensures r.Ok? ==> (r.value.None? <==> !DirtyBelow(open, p))
      ensures r.Ok? && r.value.Some? ==> r.value.value == open[p].cfg.hash(trees[p])
      ensures r.Err? && LawfulConfigs(open) ==> !Writable(old(trees), open, p)
      decreases Below(open, p), 1
    {
      var subs := set q | q in open && q.Sub? && q.parent == p :: q.name;
      assert forall k :: Sub(p, k) in open ==> Sub(p, k).name in subs;
      var gathered; ghost var order;
      gathered, order, orders := GatherUpdates(p, subs);
      if gathered.Err? {
        return Err(gathered.error), orders;
      }
      r := WriteUpdates(p, gathered.value, old(trees), order, orders);
      orders := orders[p := order];
    }

    /** The rest of propagateRoot, once the roots are collected: nothing to write for a clean tree without
        updates, the leaves and then the root otherwise. */
    method WriteUpdates(p: Path, ups: map<Bytes, seq<Update>>, ghost before: Forest, ghost order: seq<Bytes>, ghost orders: map<Path, seq<Bytes>>)
      returns (r: Result<Option<Bytes>, Error>)
      requires Valid() && p in open && WellOpened(before, open) && trees.Keys == before.Keys
      requires Gathered(before, open, trees, p, order, orders) && ListsSubs(open, p, order) && Gives(ups, open, trees, p, order)
      modifies this`trees
      ensures Valid() && trees.Keys == old(trees.Keys)
      ensures r.Ok? ==> Propagated(before, open, trees, p, orders[p := order], WrittenSubs(open))
      ensures r.Ok? ==> (r.value.None? <==> !DirtyBelow(open, p))
      ensures r.Ok? && r.value.Some? ==> r.value.value == open[p].cfg.hash(trees[p])
      ensures r.Err? && LawfulConfigs(open) ==> !Writable(before, open, p)
    {
      ghost var mid := trees;
      if ups == map[] && !open[p].dirty {
        LoopsPropagate(before, open, mid, mid, p, order, orders, ups);
        return Ok(None);
      }
      var written; ghost var failed;
      written, failed := WriteLeaves(p, ups);
      if written.Err? {
        if LawfulConfigs(open) {
          UnwritableLeaf(before, open, mid, p, order, orders, failed);
        }
        return Err(written.error);
      }
      LoopsPropagate(before, open, mid, trees, p, order, orders, ups);
      return Ok(Some(open[p].cfg.hash(trees[p])));
    }

    /** Visits the opened sub-trees in some order and collects the roots of the written ones. */
    method GatherUpdates(p: Path, subs: set<Bytes>)
      returns (ups: Result<map<Bytes, seq<Update>>, Error>, ghost order: seq<Bytes>, ghost orders: map<Path, seq<Bytes>>)
      requires Valid() && p in open
      requires forall k :: k in subs <==> Sub(p, k) in open
      modifies this`trees
      ensures Valid() && trees.Keys == old(trees.Keys)
      ensures ups.Ok? ==> Gathered(old(trees), open, trees, p, order, orders)
      ensures ups.Ok? ==> ListsSubs(open, p, order) && Gives(ups.value, open, trees, p, order)
      ensures ups.Err? && LawfulConfigs(open) ==> !Writable(old(trees), open, p)
      decreases Below(open, p), 0
    {
      order, orders := [], map[];
      var updates: map<Bytes, seq<Update>> := map[];
      var todo := subs;
      while todo != {}
        invariant Valid() && trees.Keys == old(trees.Keys) && todo <= subs
        invariant forall k :: k in order <==> k in subs && k !in todo
        invariant Gathered(old(trees), open, trees, p, order, orders)
        invariant Gives(updates, open, trees, p, order)
        decreases |todo|
      {
        var k :| k in todo;
        todo := todo - {k};
        SubIsSmaller(open, p, k);
        ghost var before := trees;
        var root; ghost var more;
        root, more := PropagateRoot(Sub(p, k));
        if root.Err? {
          if LawfulConfigs(open) {
            UnwritableSub(old(trees), open, before, p, order, orders, k);
          }
          return Err(root.error), order, orders;
        }
        GatherStep(old(trees), open, before, trees, p, order, k, orders, more);
        assert forall j :: j in order + [k] <==> j in order || j == k;
        GivesStep(updates, open, before, trees, p, order, k, root.value);
        updates := AddUpdate(updates, open[Sub(p, k)].cfg, root.value);
        order, orders := order + [k], Merge(orders, more, Sub(p, k));
      }
      return Ok(updates), order, orders;
    }

    /** Writes the collected roots, leaf by leaf. When it fails, `failed` is a leaf that is missing
        or does not take its updates. */
    method WriteLeaves(p: Path, ups: map<Bytes, seq<Update>>) returns (r: Result<(), Error>, ghost failed: Bytes)
      requires p in trees
      modifies this`trees
      ensures p in trees && trees == old(trees)[p := trees[p]]
      ensures trees[p].Keys == old(trees[p]).Keys
      ensures r.Ok? ==> PartlyWritten(old(trees[p]), trees[p], ups, {})
      ensures r.Err? ==> failed in ups && (failed !in old(trees[p]) || ApplyUpdates(Ok(old(trees[p])[failed]), ups[failed]).Err?)
    {
      failed := [];
      ghost var leaves, now := trees[p], trees[p];
      var todo := ups.Keys;
      while todo != {}
        invariant todo <= ups.Keys
        invariant trees == old(trees)[p := now]
        invariant PartlyWritten(leaves, now, ups, todo)
        decreases |todo|
      {
        var key :| key in todo;
        if key !in trees[p] {
          return Err(KeyNotFound), key;
        }
        var leaf := ApplyAll(trees[p][key], ups[key]);
        if leaf.Err? {
          return Err(leaf.error), key;
        }
        WriteLeaf(leaves, now, ups, todo, key, leaf.value);
        trees := trees[p := trees[p][key := leaf.value]];
        now := now[key := leaf.value];
        todo := todo - {key};
      }
      return Ok(()), failed;
    }

    // -------------------------------------------------------------- commit

    /** Propagates the roots, closes the sub-trees and records the version; the transaction can go on
        or be saved. */
    method CommitOnTx(version: uint32) returns (r: Result<(), Error>, ghost orders: map<Path, seq<Bytes>>)
      requires Valid()
      modifies this
      ensures Valid()
      ensures r.Ok? ==> CommittedOnTx(old(State()), State(), version, orders)
      ensures r.Err? ==> versions == old(versions)
      ensures r.Err? && LawfulConfigs(old(open)) ==>
                !Writable(old(trees), old(open), Main) || RecordedRoot(versions, mainCfg.hash(map[])).Err?
    {
      var root;
      root, orders := PropagateRoot(Main);
      if root.Err? {
        return Err(root.error), orders;
      }
      open := map[Main := open[Main]];
      var main := root.value;
      if main.None? {
        var last := RecordedRoot(versions, mainCfg.hash(map[]));
        if last.Err? {
          return Err(last.error), orders;
        }
        main := Some(last.value);
      }
      versions := RecordVersion(versions, version, main.value);
      sealed := true;
      return Ok(()), orders;
    }
  }

  /** The inner loop of propagateRoot: all the roots for one leaf. */
  method ApplyAll(value: Bytes, updates: seq<Update>) returns (r: Result<Bytes, Error>)
    ensures r == ApplyUpdates(Ok(value), updates)
  {
    var leaf := value;
    for i := 0 to |updates|
      invariant ApplyUpdates(Ok(value), updates) == ApplyUpdates(Ok(leaf), updates[i..])
    {
      var next := updates[i].setRoot(leaf, updates[i].root);
      assert updates[i..][1..] == updates[i + 1..];
      if next.Err? {
        return next;
      }
      leaf := next.value;
    }
    return Ok(leaf);
  }

  ghost function OpenAlong(t: Tx, p: Path, cfgs: seq<TreeConfig>): Tx
    decreases |cfgs|
  {
    if cfgs == [] then t else OpenAlong(OpenSubTree(t, p, cfgs[0]), Sub(p, cfgs[0].prefix), cfgs[1..])
  }

  /** Opening trees changes no leaf; the trees it creates are empty. */
  lemma {:induction false} OpeningKeepsTrees(t: Tx, p: Path, cfgs: seq<TreeConfig>)
    ensures var t' := OpenAlong(t, p, cfgs);
            && (forall q :: q in t.trees ==> q in t'.trees && t'.trees[q] == t.trees[q])
            && (forall q :: q in t'.trees && q !in t.trees ==> t'.trees[q] == map[])
            && t'.versions == t.versions
    decreases |cfgs|
  {
    if cfgs != [] {
      OpeningKeepsTrees(OpenSubTree(t, p, cfgs[0]), Sub(p, cfgs[0].prefix), cfgs[1..]);
    }
  }
}
