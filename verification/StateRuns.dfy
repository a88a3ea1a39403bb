/** Whole runs over the state database: any number of transactions, each with any nesting of
    writes, deletions and opened sub-trees, ending in a commit or a discard. */
module StateRuns {
  import opened Base
  import opened TreeLinks
  import opened TreeOrder
  import opened TreeViews
  import opened TreeUpdates
  import opened TreeTransactions

  datatype Database = Database(trees: Forest, versions: Versions)

  /** The leaves of the main tree; a database without one reads as an empty tree. */
  function MainLeaves(trees: Forest): Leaves {
    if Main in trees then trees[Main] else map[]
  }

  // ---------------------------------------------------------------- the database object

  class StateDB {
    const mainCfg: TreeConfig
    var db: Database

    constructor (mainCfg: TreeConfig)
      ensures this.mainCfg == mainCfg && db == Database(map[], Versions(None, map[]))
    {
      this.mainCfg := mainCfg;
      db := Database(map[], Versions(None, map[]));
    }

    method Version() returns (v: uint32)
      ensures v == CurrentVersion(db.versions)
    {
      v := CurrentVersion(db.versions);
    }

    /** A database whose last version is not the root of its main tree cannot begin (it would have to
        go back to an old root, whose nodes need not be there any more). */
    method BeginTx() returns (r: Result<TreeTx, Error>)
      ensures r.Ok? <==> RecordedRoot(db.versions, mainCfg.hash(map[])) == Ok(mainCfg.hash(MainLeaves(db.trees)))
      ensures r.Ok? ==> fresh(r.value) && r.value.Valid() && r.value.mainCfg == mainCfg
                        && r.value.State() == BeginOn(db.trees, db.versions, mainCfg)
    {
      var root := RecordedRoot(db.versions, mainCfg.hash(map[]));
      if root.Err? {
        return Err(root.error);
      }
      var tx := new TreeTx(db.trees, db.versions, mainCfg);
      if mainCfg.hash(tx.trees[Main]) != root.value {
        return Err(RootNotCurrent);
      }
      return Ok(tx);
    }

    /** Writes the transaction as it is. */
    method SaveWithoutCommit(tx: TreeTx)
      modifies this`db
      ensures db == Database(tx.trees, tx.versions)
    {
      db := Database(tx.trees, tx.versions);
    }

    method Commit(tx: TreeTx, version: uint32) returns (r: Result<(), Error>, ghost orders: map<Path, seq<Bytes>>)
      requires tx.Valid()
      modifies this`db, tx
      ensures r.Ok? ==> CommittedOnTx(old(tx.State()), tx.State(), version, orders) && db == Database(tx.trees, tx.versions)
      ensures r.Err? ==> db == old(db)
      ensures r.Err? && LawfulConfigs(old(tx.open)) ==>
                !Writable(old(tx.trees), old(tx.open), Main) || RecordedRoot(old(tx.versions), tx.mainCfg.hash(map[])).Err?
    {
      r, orders := tx.CommitOnTx(version);
      if r.Ok? {
        SaveWithoutCommit(tx);
      }
    }

    method TreeView(root: Option<Bytes>) returns (r: Result<View, Error>)
      ensures r == MainView(db, mainCfg, root)
      ensures root.None? && Main in db.trees ==>
                (r.Ok? <==> RecordedRoot(db.versions, mainCfg.hash(map[])) == Ok(mainCfg.hash(db.trees[Main])))
      ensures root.Some? && Main in db.trees ==> (r.Ok? <==> root.value == mainCfg.hash(db.trees[Main]))
      ensures Main !in db.trees ==> r.Err?
      ensures r.Ok? ==> r.value == View(Main, db.trees[Main])
    {
      var at := if root.Some? then Ok(root.value) else RecordedRoot(db.versions, mainCfg.hash(map[]));
      r := if at.Err? then Err(at.error) else OpenAtRoot(db.trees, mainCfg.hash, Main, at.value);
    }
  }

  lemma {:induction false} NoSubsNoRoots(open: OpenTrees, after: Forest, p: Path, order: seq<Bytes>, selected: Path -> bool, key: Bytes, leaf: Bytes)
    requires order == []
    ensures LeafWithRoots(open, after, p, order, selected, key, leaf) == Ok(leaf)
  {
  }

  lemma EmptyOrHasFirst(order: seq<Bytes>)
    ensures order == [] || exists k :: k in order
  {
    if order != [] {
      assert order[0] in order;
    }
  }

  /** A commit with only the main tree open leaves the leaves as they are. */
  lemma MainAloneIsKept(trees: Forest, open: OpenTrees, after: Forest, orders: map<Path, seq<Bytes>>)
    requires Main in trees && open.Keys == {Main} && Propagated(trees, open, after, Main, orders, WrittenSubs(open))
    ensures after[Main] == trees[Main]
  {
    assert Settled(trees, open, after, Main, orders[Main], WrittenSubs(open));
    var order := orders[Main];
    assert forall k :: Sub(Main, k) !in open;
    EmptyOrHasFirst(order);
    forall key | key in trees[Main] ensures after[Main][key] == trees[Main][key] {
      NoSubsNoRoots(open, after, Main, orders[Main], WrittenSubs(open), key, trees[Main][key]);
    }
  }

  lemma MainAloneIsWritable(trees: Forest, open: OpenTrees)
    requires open.Keys == {Main}
    ensures LawfulConfigs(open) && Writable(trees, open, Main)
  {
  }

  /** A transaction of one write, end to end: whatever the database, if its last version is the root of its
      main tree, the write commits, the version becomes the last one, and the view of the last version
      reads the new value and, under every other key, the old one. */
  method WriteAndRead(sdb: StateDB, key: Bytes, value: Bytes, version: uint32) returns (r: Result<View, Error>)
    modifies sdb`db
    ensures old(RecordedRoot(sdb.db.versions, sdb.mainCfg.hash(map[])) == Ok(sdb.mainCfg.hash(MainLeaves(sdb.db.trees)))) <==> r.Ok?
    ensures r.Err? ==> sdb.db == old(sdb.db)
    ensures r.Ok? ==> r.value == View(Main, old(MainLeaves(sdb.db.trees))[key := value])
    ensures r.Ok? ==> sdb.db.versions.roots == old(sdb.db.versions.roots)[version := sdb.mainCfg.hash(r.value.leaves)]
    ensures r.Ok? ==> forall q :: q in old(sdb.db.trees) && q != Main ==> q in sdb.db.trees && sdb.db.trees[q] == old(sdb.db.trees[q])
  {
    var written := WriteMain(sdb, key, value, version);
    if written.Err? {
      return Err(written.error);
    }
    var last := sdb.Version();
    assert last == version;
    r := sdb.TreeView(None);
  }

  /** The transaction of WriteAndRead. */
  method WriteMain(sdb: StateDB, key: Bytes, value: Bytes, version: uint32) returns (r: Result<(), Error>)
    modifies sdb`db
    ensures old(RecordedRoot(sdb.db.versions, sdb.mainCfg.hash(map[])) == Ok(sdb.mainCfg.hash(MainLeaves(sdb.db.trees)))) <==> r.Ok?
    ensures r.Err? ==> sdb.db == old(sdb.db)
    ensures r.Ok? ==> sdb.db.trees == old(sdb.db.trees)[Main := old(MainLeaves(sdb.db.trees))[key := value]]
    ensures r.Ok? ==> sdb.db.versions == RecordVersion(old(sdb.db.versions), version, sdb.mainCfg.hash(old(MainLeaves(sdb.db.trees))[key := value]))
  {
    var begun := sdb.BeginTx();
    if begun.Err? {
      return Err(begun.error);
    }
    var tx := begun.value;
    tx.Set(Main, key, value);
    ghost var before := tx.State();
    MainAloneIsWritable(before.trees, before.open);
    var committed; ghost var orders;
    committed, orders := sdb.Commit(tx, version);
    assert committed.Ok?;
    OnlyMainWritten(before, tx.State(), version, orders);
    return Ok(());
  }

  lemma OnlyMainWritten(t: Tx, t': Tx, version: uint32, orders: map<Path, seq<Bytes>>)
    requires Main in t.trees && t.open.Keys == {Main} && t.open[Main].dirty && CommittedOnTx(t, t', version, orders)
    ensures t'.trees == t.trees && t'.versions == RecordVersion(t.versions, version, t.open[Main].cfg.hash(t.trees[Main]))
  {
    MainAloneIsKept(t.trees, t.open, t'.trees, orders);
    assert DirtyBelow(t.open, Main) by {
      assert Within(Main, Main) && t.open[Main].dirty;
    }
  }

  function MainView(db: Database, mainCfg: TreeConfig, root: Option<Bytes>): Result<View, Error> {
    var at := if root.Some? then Ok(root.value) else RecordedRoot(db.versions, mainCfg.hash(map[]));
    if at.Err? then Err(at.error) else OpenAtRoot(db.trees, mainCfg.hash, Main, at.value)
  }

  // ---------------------------------------------------------------- runs

  datatype System = System(db: Database, tx: Option<Tx>)

  datatype Event =
    | Begin
    | Put(p: Path, key: Bytes, value: Bytes)
    | Touch(p: Path)
    | Remove(p: Path, key: Bytes)
    | Open(p: Path, cfg: TreeConfig)
    | CommitOnTx(version: uint32, orders: map<Path, seq<Bytes>>)
    | Save
    | Discard

  ghost predicate Step(schema: Schema, s: System, e: Event, s': System) {
    match e
    case Begin =>
      && s.tx.None?
      && RecordedRoot(s.db.versions, schema(Main).hash(map[])) == Ok(schema(Main).hash(MainLeaves(s.db.trees)))
      && s' == s.(tx := Some(BeginOn(s.db.trees, s.db.versions, schema(Main))))
    case Put(p, key, value) =>
      s.tx.Some? && p in s.tx.value.open && p in s.tx.value.trees && s' == s.(tx := Some(PutLeaf(s.tx.value, p, key, value)))
    case Touch(p) =>
      s.tx.Some? && p in s.tx.value.open && s' == s.(tx := Some(TouchTree(s.tx.value, p)))
    case Remove(p, key) =>
      s.tx.Some? && p in s.tx.value.open && p in s.tx.value.trees && s' == s.(tx := Some(RemoveLeaf(s.tx.value, p, key)))
    case Open(p, cfg) =>
      s.tx.Some? && p in s.tx.value.open && s' == s.(tx := Some(OpenSubTree(s.tx.value, p, cfg)))
    case CommitOnTx(version, orders) =>
      && s.tx.Some? && Main in s.tx.value.open
      && s'.db == s.db && s'.tx.Some? && CommittedOnTx(s.tx.value, s'.tx.value, version, orders)
    case Save =>
      s.tx.Some? && s' == System(Database(s.tx.value.trees, s.tx.value.versions), None)
    case Discard =>
      s.tx.Some? && s' == s.(tx := None)
  }

  /** What the users of the database owe it: a value written over a parent leaf carries the current
      roots of the sub-trees hanging there that nobody wrote to, a sub-tree is created under a leaf
      that holds the empty root, sub-trees are opened with the configuration of their place, and a
      transaction is saved after its roots were committed. */
  ghost predicate Careful(schema: Schema, s: System, e: Event)
    requires s.tx.Some? || e.Begin?
  {
    match e
    case Put(p, key, value) =>
      forall k :: Sub(p, k) in s.tx.value.trees && schema(Sub(p, k)).parentLeafKey == key && !DirtyBelow(s.tx.value.open, Sub(p, k)) ==>
        schema(Sub(p, k)).getRoot(value) == Ok(schema(Sub(p, k)).hash(s.tx.value.trees[Sub(p, k)]))
    case Open(p, cfg) =>
      && cfg == schema(Sub(p, cfg.prefix))
      && (Sub(p, cfg.prefix) !in s.tx.value.trees && p in s.tx.value.trees && cfg.parentLeafKey in s.tx.value.trees[p] ==>
            cfg.getRoot(s.tx.value.trees[p][cfg.parentLeafKey]) == Ok(cfg.hash(map[])))
    case Save => s.tx.value.sealed
    case _ => true
  }

  // ---------------------------------------------------------------- the invariant

  ghost predicate Rooted(trees: Forest) {
    forall q {:trigger q.parent} :: q in trees && q.Sub? ==> q.parent in trees
  }

  /** The last version is the root the main tree has. */
  ghost predicate Recorded(schema: Schema, trees: Forest, versions: Versions) {
    RecordedRoot(versions, schema(Main).hash(map[])) == Ok(schema(Main).hash(MainLeaves(trees)))
  }

  ghost predicate DbInv(schema: Schema, db: Database) {
    && (Main in db.trees || db.trees == map[])
    && Rooted(db.trees) && AllLinked(schema, db.trees) && Recorded(schema, db.trees, db.versions)
  }

  ghost predicate TxInv(schema: Schema, t: Tx) {
    && WellOpened(t.trees, t.open) && FollowsSchema(t.open, schema) && Rooted(t.trees)
    && AllWillBeLinked(schema, t.trees, t.open)
    && (!t.open[Main].dirty ==> Recorded(schema, t.trees, t.versions))
    && (t.sealed ==> AllLinked(schema, t.trees) && Recorded(schema, t.trees, t.versions))
  }

  ghost predicate Inv(schema: Schema, s: System) {
    DbInv(schema, s.db) && (s.tx.Some? ==> TxInv(schema, s.tx.value))
  }

  lemma DirtyStays(open: OpenTrees, p: Path, q: Path)
    requires p in open
    ensures DirtyBelow(open, q) ==> DirtyBelow(open[p := open[p].(dirty := true)], q)
    ensures DirtyBelow(open[p := open[p].(dirty := true)], p)
  {
    var open' := open[p := open[p].(dirty := true)];
    assert Within(p, p) && open'[p].dirty;
    if DirtyBelow(open, q) {
      var b :| b in open && Within(q, b) && open[b].dirty;
      assert b in open' && open'[b].dirty;
    }
  }

  lemma TouchKeeps(schema: Schema, t: Tx, p: Path)
    requires TxInv(schema, t) && p in t.open
    ensures TxInv(schema, TouchTree(t, p))
  {
    var t' := TouchTree(t, p);
    forall q | q in t'.trees && q.Sub? && q.parent in t'.trees && schema(q).parentLeafKey in t'.trees[q.parent]
      ensures WillBeLinked(t'.trees, t'.open, schema, q) {
      DirtyStays(t.open, p, q);
      assert WillBeLinked(t.trees, t.open, schema, q);
    }
  }

  /** Changing the leaves of a dirty tree keeps the promise to every other sub-tree. */
  lemma WriteKeeps(schema: Schema, t: Tx, p: Path, leaves: Leaves)
    requires TxInv(schema, t) && p in t.open
    requires forall k :: Sub(p, k) in t.trees && schema(Sub(p, k)).parentLeafKey in leaves ==>
      var key := schema(Sub(p, k)).parentLeafKey;
      || DirtyBelow(t.open, Sub(p, k))
      || schema(Sub(p, k)).getRoot(leaves[key]) == Ok(schema(Sub(p, k)).hash(t.trees[Sub(p, k)]))
    ensures TxInv(schema, TouchTree(t, p).(trees := t.trees[p := leaves]))
  {
    var t' := TouchTree(t, p).(trees := t.trees[p := leaves]);
    forall q | q in t'.trees && q.Sub? && q.parent in t'.trees && schema(q).parentLeafKey in t'.trees[q.parent]
      ensures WillBeLinked(t'.trees, t'.open, schema, q) {
      DirtyStays(t.open, p, q);
      if q != p {
        if q.parent == p {
          assert q == Sub(p, q.name) && Sub(p, q.name) in t.trees;
          assert Depth(q) == 1 + Depth(p);
        } else {
          assert WillBeLinked(t.trees, t.open, schema, q);
        }
      }
    }
  }

  lemma PutKeeps(schema: Schema, s: System, p: Path, key: Bytes, value: Bytes)
    requires Inv(schema, s) && s.tx.Some? && p in s.tx.value.open && p in s.tx.value.trees
    requires Careful(schema, s, Put(p, key, value))
    ensures TxInv(schema, PutLeaf(s.tx.value, p, key, value))
  {
    var t := s.tx.value;
    forall k | Sub(p, k) in t.trees && schema(Sub(p, k)).parentLeafKey in t.trees[p][key := value] && !DirtyBelow(t.open, Sub(p, k))
      ensures schema(Sub(p, k)).getRoot(t.trees[p][key := value][schema(Sub(p, k)).parentLeafKey]) == Ok(schema(Sub(p, k)).hash(t.trees[Sub(p, k)])) {
      if schema(Sub(p, k)).parentLeafKey != key {
        assert WillBeLinked(t.trees, t.open, schema, Sub(p, k));
      }
    }
    WriteKeeps(schema, t, p, t.trees[p][key := value]);
  }

  lemma RemoveKeeps(schema: Schema, s: System, p: Path, key: Bytes)
    requires Inv(schema, s) && s.tx.Some? && p in s.tx.value.open && p in s.tx.value.trees
    ensures TxInv(schema, RemoveLeaf(s.tx.value, p, key))
  {
    var t := s.tx.value;
    forall k | Sub(p, k) in t.trees && schema(Sub(p, k)).parentLeafKey in t.trees[p] - {key} && !DirtyBelow(t.open, Sub(p, k))
      ensures schema(Sub(p, k)).getRoot((t.trees[p] - {key})[schema(Sub(p, k)).parentLeafKey]) == Ok(schema(Sub(p, k)).hash(t.trees[Sub(p, k)])) {
      assert WillBeLinked(t.trees, t.open, schema, Sub(p, k));
    }
    WriteKeeps(schema, t, p, t.trees[p] - {key});
  }

  /** Opening a tree keeps the links of the places that existed. */
  lemma OpenKeepsLink(schema: Schema, t: Tx, p: Path, cfg: TreeConfig, q: Path)
    requires q in t.trees && q.Sub? && q.parent in t.trees && schema(q).parentLeafKey in t.trees[q.parent]
    requires WillBeLinked(t.trees, t.open, schema, q) && Sub(p, cfg.prefix) !in t.open
    ensures WillBeLinked(OpenSubTree(t, p, cfg).trees, OpenSubTree(t, p, cfg).open, schema, q)
    ensures Linked(t.trees, schema(q), q) ==> Linked(OpenSubTree(t, p, cfg).trees, schema(q), q)
  {
    var t' := OpenSubTree(t, p, cfg);
    if DirtyBelow(t.open, q) {
      var b :| b in t.open && Within(q, b) && t.open[b].dirty;
      assert b in t'.open && t'.open[b].dirty;
    }
  }

  lemma OpenKeeps(schema: Schema, s: System, p: Path, cfg: TreeConfig)
    requires Inv(schema, s) && s.tx.Some? && p in s.tx.value.open
    requires Careful(schema, s, Open(p, cfg))
    ensures TxInv(schema, OpenSubTree(s.tx.value, p, cfg))
  {
    var t := s.tx.value;
    var sub := Sub(p, cfg.prefix);
    if sub !in t.open {
      var t' := OpenSubTree(t, p, cfg);
      assert MainLeaves(t'.trees) == MainLeaves(t.trees);
      forall q | q in t'.trees && q.Sub? && q.parent in t'.trees && schema(q).parentLeafKey in t'.trees[q.parent]
        ensures WillBeLinked(t'.trees, t'.open, schema, q)
        ensures t.sealed ==> Linked(t'.trees, schema(q), q) {
        if q !in t.trees {
          assert q == sub && t'.trees[p] == t.trees[p];
        } else {
          assert q.parent in t.trees;
          OpenKeepsLink(schema, t, p, cfg, q);
        }
      }
    }
  }

  /** Marking a tree as written changes nothing for the sub-trees below it. */
  lemma DirtyOnlyAbove(open: OpenTrees, p: Path, k: Bytes)
    requires p in open
    ensures DirtyBelow(open[p := open[p].(dirty := true)], Sub(p, k)) <==> DirtyBelow(open, Sub(p, k))
  {
    var open' := open[p := open[p].(dirty := true)];
    DirtyStays(open, p, Sub(p, k));
    if DirtyBelow(open', Sub(p, k)) {
      var b :| b in open' && Within(Sub(p, k), b) && open'[b].dirty;
      WithinIsDeeper(Sub(p, k), b);
      assert Depth(Sub(p, k)) == 1 + Depth(p);
      assert b in open && open[b].dirty;
    }
  }

  /** The care asked of a write is exactly what is needed: without it, a sub-tree nobody wrote to would
      be unreachable after the commit. */
  lemma PutIsSafeExactly(schema: Schema, s: System, p: Path, key: Bytes, value: Bytes)
    requires Inv(schema, s) && s.tx.Some? && p in s.tx.value.open && p in s.tx.value.trees
    ensures TxInv(schema, PutLeaf(s.tx.value, p, key, value)) <==> Careful(schema, s, Put(p, key, value))
  {
    if Careful(schema, s, Put(p, key, value)) {
      PutKeeps(schema, s, p, key, value);
    }
    var t, t' := s.tx.value, PutLeaf(s.tx.value, p, key, value);
    if TxInv(schema, t') {
      forall k | Sub(p, k) in t.trees && schema(Sub(p, k)).parentLeafKey == key && !DirtyBelow(t.open, Sub(p, k))
        ensures schema(Sub(p, k)).getRoot(value) == Ok(schema(Sub(p, k)).hash(t.trees[Sub(p, k)])) {
        DirtyOnlyAbove(t.open, p, k);
        assert Depth(Sub(p, k)) == 1 + Depth(p);
        assert WillBeLinked(t'.trees, t'.open, schema, Sub(p, k));
      }
    }
  }

  lemma CommitKeeps(schema: Schema, s: System, version: uint32, orders: map<Path, seq<Bytes>>, t': Tx)
    requires LawfulSchema(schema) && Inv(schema, s) && s.tx.Some?
    requires CommittedOnTx(s.tx.value, t', version, orders)
    ensures TxInv(schema, t')
    ensures t'.versions.current == Some(version) && t'.versions.roots == s.tx.value.versions.roots[version := schema(Main).hash(t'.trees[Main])]
  {
    var t := s.tx.value;
    SchemaGivesConfigs(t.open, schema);
    PropagationLinksAll(schema, t.trees, t.open, t'.trees, orders);
    if !DirtyBelow(t.open, Main) {
      WithinMain(Main);
      assert !t.open[Main].dirty;
      UnwrittenUnchanged(t.trees, t.open, t'.trees, orders, Main);
    }
  }

  /** Every step taken with care keeps the database linked and its last version true. */
  lemma StepKeepsInv(schema: Schema, s: System, e: Event, s': System)
    requires LawfulSchema(schema) && Inv(schema, s) && Step(schema, s, e, s') && Careful(schema, s, e)
    ensures Inv(schema, s')
  {
    match e
    case Begin =>
    case Put(p, key, value) => PutKeeps(schema, s, p, key, value);
    case Touch(p) => TouchKeeps(schema, s.tx.value, p);
    case Remove(p, key) => RemoveKeeps(schema, s, p, key);
    case Open(p, cfg) => OpenKeeps(schema, s, p, cfg);
    case CommitOnTx(version, orders) => CommitKeeps(schema, s, version, orders, s'.tx.value);
    case Save =>
    case Discard =>
  }

  ghost predicate Run(schema: Schema, states: seq<System>, events: seq<Event>) {
    && |states| == |events| + 1
    && states[0] == System(Database(map[], Versions(None, map[])), None)
    && forall i :: 0 <= i < |events| ==> StepAt(schema, states, events, i)
  }

  /** The step number `i`, taken with care. */
  ghost predicate StepAt(schema: Schema, states: seq<System>, events: seq<Event>, i: nat)
    requires |states| == |events| + 1 && i < |events|
  {
    && Step(schema, states[i], events[i], states[i + 1])
    && (states[i].tx.Some? || events[i].Begin?) && Careful(schema, states[i], events[i])
  }

  lemma {:induction false} RunKeepsInv(schema: Schema, states: seq<System>, events: seq<Event>, n: nat)
    requires LawfulSchema(schema) && Run(schema, states, events) && n < |states|
    ensures Inv(schema, states[n])
    decreases n
  {
    if n > 0 {
      RunKeepsInv(schema, states, events, n - 1);
      assert StepAt(schema, states, events, n - 1);
      StepKeepsInv(schema, states[n - 1], events[n - 1], states[n]);
    }
  }

  /** After any run, a view of the last version opens the main tree as it is stored, reads through
      any list of configurations exactly when the parent leaves exist, and arrives at the stored
      tree; and a new transaction can begin without going back to an older root. */
  lemma ViewsReadTheState(schema: Schema, states: seq<System>, events: seq<Event>, n: nat, cfgs: seq<TreeConfig>)
    requires LawfulSchema(schema) && Run(schema, states, events) && n < |states|
    requires Follows(schema, Main, cfgs)
    ensures var db := states[n].db;
            && Recorded(schema, db.trees, db.versions)
            && (Main in db.trees ==>
                  && MainView(db, schema(Main), None) == Ok(View(Main, db.trees[Main]))
                  && (DeepView(db.trees, View(Main, db.trees[Main]), cfgs).Ok? <==> Route(db.trees, Main, cfgs))
                  && (Route(db.trees, Main, cfgs) ==>
                        && Destination(Main, cfgs) in db.trees
                        && DeepView(db.trees, View(Main, db.trees[Main]), cfgs) == Ok(View(Destination(Main, cfgs), db.trees[Destination(Main, cfgs)]))))
  {
    RunKeepsInv(schema, states, events, n);
    if Main in states[n].db.trees {
      ViewReaches(schema, states[n].db.trees, Main, cfgs);
    }
  }

  /** Commit refines the nested map, end to end: whatever the run was, when a transaction commits and
      is saved, reading the new last version through any list of configurations succeeds exactly when
      the parent leaves existed in the transaction, arrives at the tree the transaction had there
      (same keys, and same values for every observation blind to the roots written on commit), and
      finds the current root of each sub-tree in its leaf; the version maps to the main root and all
      other versions keep theirs. */
  lemma CommittedWritesAreRead<T>(schema: Schema, states: seq<System>, events: seq<Event>, n: nat, cfgs: seq<TreeConfig>, key: Bytes, observe: Bytes -> T)
    requires LawfulSchema(schema) && Run(schema, states, events)
    requires n + 2 < |states| && events[n].CommitOnTx? && events[n + 1].Save?
    requires Follows(schema, Main, cfgs)
    ensures states[n].tx.Some? && Main in states[n + 2].db.trees
    ensures var t, db := states[n].tx.value, states[n + 2].db;
            && MainView(db, schema(Main), None) == Ok(View(Main, db.trees[Main]))
            && (DeepView(db.trees, View(Main, db.trees[Main]), cfgs).Ok? <==> Route(t.trees, Main, cfgs))
            && (Route(t.trees, Main, cfgs) ==>
                  var p := Destination(Main, cfgs);
                  && p in t.trees && p in db.trees && DeepView(db.trees, View(Main, db.trees[Main]), cfgs) == Ok(View(p, db.trees[p]))
                  && db.trees[p].Keys == t.trees[p].Keys
                  && (key in t.trees[p] && BlindToRoots(t.open, p, key, observe) ==> observe(db.trees[p][key]) == observe(t.trees[p][key]))
                  && (forall k :: Sub(p, k) in t.trees && schema(Sub(p, k)).parentLeafKey == key && key in t.trees[p] ==>
                        Sub(p, k) in db.trees && schema(Sub(p, k)).getRoot(db.trees[p][key]) == Ok(schema(Sub(p, k)).hash(db.trees[Sub(p, k)]))))
    ensures var version := events[n].version;
            CurrentVersion(states[n + 2].db.versions) == version
            && states[n + 2].db.versions.roots == states[n].tx.value.versions.roots[version := schema(Main).hash(states[n + 2].db.trees[Main])]
  {
    RunKeepsInv(schema, states, events, n);
    assert StepAt(schema, states, events, n) && StepAt(schema, states, events, n + 1);
    var t, t' := states[n].tx.value, states[n + 1].tx.value;
    var orders := events[n].orders;
    CommitKeeps(schema, states[n], events[n].version, orders, t');
    CommitRefinesNestedMap(schema, t.trees, t.open, t'.trees, orders, cfgs, key, observe);
  }
}
