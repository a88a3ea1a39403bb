/** What a transaction holds in terms of the calls that were made on it: the last write wins, at every
    depth, and a tree counts as written exactly when a call wrote to it. */
module StateWrites {
  import opened Base
  import opened TreeLinks
  import opened TreeOrder
  import opened TreeViews
  import opened TreeUpdates
  import opened StateRuns

  // ---------------------------------------------------------------- one leaf

  /** What an observation sees of a leaf; nothing if it is not there. */
  ghost function Seen<T>(observe: Bytes -> T, trees: Forest, p: Path, key: Bytes): Option<T> {
    if p in trees && key in trees[p] then Some(observe(trees[p][key])) else None
  }

  /** The observation is blind to the roots of all sub-trees that can hang from the leaf. On a leaf from
      which none hangs, every observation is. */
  ghost predicate BlindAt<T>(schema: Schema, p: Path, key: Bytes, observe: Bytes -> T) {
    forall k: Bytes {:trigger Sub(p, k)} :: schema(Sub(p, k)).parentLeafKey == key ==> BlindTo(schema(Sub(p, k)), observe)
  }

  lemma CommitKeepsSeen<T>(schema: Schema, t: Tx, t': Tx, version: uint32, orders: map<Path, seq<Bytes>>, p: Path, key: Bytes, observe: Bytes -> T)
    requires TxInv(schema, t) && CommittedOnTx(t, t', version, orders) && BlindAt(schema, p, key, observe)
    ensures Seen(observe, t'.trees, p, key) == Seen(observe, t.trees, p, key)
  {
    KeysKept(t.trees, t.open, t'.trees, orders);
    if p in t.trees && key in t.trees[p] {
      LeavesKeptButRoots(t.trees, t.open, t'.trees, orders, p, key, observe);
    }
  }

  /** What one call on a transaction does to what is seen of a leaf. */
  ghost function SeenAfter<T>(observe: Bytes -> T, seen: Option<T>, e: Event, p: Path, key: Bytes): Option<T> {
    match e
    case Put(q, k, v) => if q == p && k == key then Some(observe(v)) else seen
    case Remove(q, k) => if q == p && k == key then None else seen
    case _ => seen
  }

  lemma PutIsSeen<T>(t: Tx, q: Path, k: Bytes, v: Bytes, p: Path, key: Bytes, observe: Bytes -> T)
    requires q in t.open && q in t.trees
    ensures Seen(observe, PutLeaf(t, q, k, v).trees, p, key) == if q == p && k == key then Some(observe(v)) else Seen(observe, t.trees, p, key)
    ensures Seen(observe, RemoveLeaf(t, q, k).trees, p, key) == if q == p && k == key then None else Seen(observe, t.trees, p, key)
  {
  }

  lemma OpenIsSeen<T>(t: Tx, q: Path, cfg: TreeConfig, p: Path, key: Bytes, observe: Bytes -> T)
    ensures Seen(observe, OpenSubTree(t, q, cfg).trees, p, key) == Seen(observe, t.trees, p, key)
  {
  }

  lemma StepIsSeen<T>(schema: Schema, s: System, e: Event, s': System, p: Path, key: Bytes, observe: Bytes -> T)
    requires s.tx.Some? && TxInv(schema, s.tx.value) && Step(schema, s, e, s') && s'.tx.Some? && BlindAt(schema, p, key, observe)
    ensures Seen(observe, s'.tx.value.trees, p, key) == SeenAfter(observe, Seen(observe, s.tx.value.trees, p, key), e, p, key)
  {
    match e
    case Put(q, k, v) => PutIsSeen(s.tx.value, q, k, v, p, key, observe);
    case Remove(q, k) => PutIsSeen(s.tx.value, q, k, [], p, key, observe);
    case Open(q, cfg) => OpenIsSeen(s.tx.value, q, cfg, p, key, observe);
    case CommitOnTx(version, orders) => CommitKeepsSeen(schema, s.tx.value, s'.tx.value, version, orders, p, key, observe);
    case _ =>
  }

  lemma BeginIsSeen<T>(schema: Schema, s: System, s': System, p: Path, key: Bytes, observe: Bytes -> T)
    requires Step(schema, s, Begin, s')
    ensures s'.tx.Some? && Seen(observe, s'.tx.value.trees, p, key) == Seen(observe, s.db.trees, p, key)
  {
  }

  /** One step of a run. */
  lemma RunStep(schema: Schema, states: seq<System>, events: seq<Event>, i: nat)
    requires Run(schema, states, events) && i < |events|
    ensures Step(schema, states[i], events[i], states[i + 1])
  {
    assert StepAt(schema, states, events, i);
  }

  // ---------------------------------------------------------------- the last writer

  /** What was last done to a leaf by the calls from `lo` up to `hi`. */
  datatype LastCall = Untouched | Written(value: Bytes) | Removed

  ghost function LastCallOn(events: seq<Event>, lo: nat, hi: nat, p: Path, key: Bytes): LastCall
    requires lo <= hi <= |events|
    decreases hi
  {
    if hi == lo then Untouched
    else
      match events[hi - 1]
      case Put(q, k, v) => if q == p && k == key then Written(v) else LastCallOn(events, lo, hi - 1, p, key)
      case Remove(q, k) => if q == p && k == key then Removed else LastCallOn(events, lo, hi - 1, p, key)
      case _ => LastCallOn(events, lo, hi - 1, p, key)
  }

  /** The last write of a leaf at `i`: nobody writes it again before `hi`. */
  lemma {:induction false} LastWriteIs(events: seq<Event>, lo: nat, i: nat, hi: nat, p: Path, key: Bytes, value: Bytes)
    requires lo <= i < hi <= |events| && events[i] == Put(p, key, value)
    requires forall j :: i < j < hi ==> !(events[j].Put? && events[j].p == p && events[j].key == key) && !(events[j].Remove? && events[j].p == p && events[j].key == key)
    ensures LastCallOn(events, lo, hi, p, key) == Written(value)
    decreases hi
  {
    if hi > i + 1 {
      LastWriteIs(events, lo, i, hi - 1, p, key, value);
    }
  }

  ghost function Expected<T>(observe: Bytes -> T, last: LastCall, found: Option<T>): Option<T> {
    match last
    case Untouched => found
    case Written(v) => Some(observe(v))
    case Removed => None
  }

  /** The transaction that began at `b` is open up to `n`. */
  ghost predicate OpenSince(states: seq<System>, events: seq<Event>, b: nat, n: nat) {
    && b < n < |states| && |states| == |events| + 1 && events[b].Begin?
    && forall i :: b < i <= n ==> states[i].tx.Some?
  }

  /** The observations follow the calls. */
  ghost predicate FollowAt<T>(observe: Bytes -> T, events: seq<Event>, lo: nat, seen: seq<Option<T>>, p: Path, key: Bytes, j: nat)
    requires lo + |seen| <= |events| + 1 && 0 < j < |seen|
  {
    seen[j] == SeenAfter(observe, seen[j - 1], events[lo + j - 1], p, key)
  }

  lemma {:induction false} LastOfFollowing<T>(observe: Bytes -> T, events: seq<Event>, lo: nat, seen: seq<Option<T>>, n: nat, p: Path, key: Bytes)
    requires lo + |seen| <= |events| + 1 && n < |seen|
    requires forall j :: 0 < j < |seen| ==> FollowAt(observe, events, lo, seen, p, key, j)
    ensures seen[n] == Expected(observe, LastCallOn(events, lo, lo + n, p, key), seen[0])
    decreases n
  {
    if n > 0 {
      LastOfFollowing(observe, events, lo, seen, n - 1, p, key);
      assert FollowAt(observe, events, lo, seen, p, key, n);
      ExpectedStep(observe, events, lo, lo + n, p, key, seen[0]);
    }
  }

  lemma ExpectedStep<T>(observe: Bytes -> T, events: seq<Event>, lo: nat, hi: nat, p: Path, key: Bytes, found: Option<T>)
    requires lo < hi <= |events|
    ensures Expected(observe, LastCallOn(events, lo, hi, p, key), found) ==
            SeenAfter(observe, Expected(observe, LastCallOn(events, lo, hi - 1, p, key), found), events[hi - 1], p, key)
  {
  }

  /** What is seen of the leaf in the transaction of a state. */
  ghost function SeenIn<T>(observe: Bytes -> T, s: System, p: Path, key: Bytes): Option<T> {
    if s.tx.Some? then Seen(observe, s.tx.value.trees, p, key) else None
  }

  lemma SeenStep<T>(schema: Schema, states: seq<System>, events: seq<Event>, i: nat, p: Path, key: Bytes, observe: Bytes -> T)
    requires LawfulSchema(schema) && Run(schema, states, events) && i < |events| && BlindAt(schema, p, key, observe)
    requires states[i].tx.Some? && states[i + 1].tx.Some?
    ensures SeenIn(observe, states[i + 1], p, key) == SeenAfter(observe, SeenIn(observe, states[i], p, key), events[i], p, key)
  {
    RunKeepsInv(schema, states, events, i);
    RunStep(schema, states, events, i);
    StepIsSeen(schema, states[i], events[i], states[i + 1], p, key, observe);
  }

  lemma SeenBegin<T>(schema: Schema, states: seq<System>, events: seq<Event>, b: nat, p: Path, key: Bytes, observe: Bytes -> T)
    requires Run(schema, states, events) && b < |events| && events[b].Begin?
    ensures SeenIn(observe, states[b + 1], p, key) == Seen(observe, states[b].db.trees, p, key)
  {
    RunStep(schema, states, events, b);
    BeginIsSeen(schema, states[b], states[b + 1], p, key, observe);
  }

  /** The last writer wins: at any point of a transaction, whatever was called on it since it began, each
      leaf at every depth is the value last put there, absent if it was last removed, and otherwise what
      the database held at the beginning. */
  lemma LastWriterWins<T>(schema: Schema, states: seq<System>, events: seq<Event>, b: nat, n: nat, p: Path, key: Bytes, observe: Bytes -> T)
    requires LawfulSchema(schema) && Run(schema, states, events) && OpenSince(states, events, b, n) && BlindAt(schema, p, key, observe)
    ensures Seen(observe, states[n].tx.value.trees, p, key) ==
            Expected(observe, LastCallOn(events, b + 1, n, p, key), Seen(observe, states[b].db.trees, p, key))
  {
    var lo, seen := b + 1, SeenBetween(observe, states, b + 1, n, p, key);
    SeenFollows(schema, states, events, b, n, p, key, observe, lo, seen);
    SeenBegin(schema, states, events, b, p, key, observe);
    LastOfFollowing(observe, events, lo, seen, n - lo, p, key);
  }

  ghost function SeenBetween<T>(observe: Bytes -> T, states: seq<System>, lo: nat, hi: nat, p: Path, key: Bytes): (seen: seq<Option<T>>)
    requires lo <= hi < |states|
    ensures |seen| == hi - lo + 1 && forall j :: 0 <= j < |seen| ==> seen[j] == SeenIn(observe, states[lo + j], p, key)
  {
    seq(hi - lo + 1, j requires 0 <= j <= hi - lo => SeenIn(observe, states[lo + j], p, key))
  }

  lemma SeenFollows<T>(schema: Schema, states: seq<System>, events: seq<Event>, b: nat, n: nat, p: Path, key: Bytes, observe: Bytes -> T, lo: nat, seen: seq<Option<T>>)
    requires LawfulSchema(schema) && Run(schema, states, events) && OpenSince(states, events, b, n) && BlindAt(schema, p, key, observe)
    requires lo == b + 1 && seen == SeenBetween(observe, states, lo, n, p, key)
    ensures forall j :: 0 < j < |seen| ==> FollowAt(observe, events, lo, seen, p, key, j)
  {
    forall j | 0 < j < |seen| ensures FollowAt(observe, events, lo, seen, p, key, j) {
      SeenStep(schema, states, events, b + j, p, key, observe);
    }
  }

  /** What a view reads of a key, as an observation sees it. */
  ghost function Read<T>(observe: Bytes -> T, v: View, key: Bytes): Option<T> {
    if Get(v, key).Ok? then Some(observe(Get(v, key).value)) else None
  }

  /** End to end: after a transaction is committed and saved, the view of the last version reads, through
      any list of configurations whose parent leaves exist, the value that the transaction last put under
      each key, nothing if it last removed it, and otherwise what the database held before. */
  lemma LastWriteIsRead<T>(schema: Schema, states: seq<System>, events: seq<Event>, b: nat, n: nat, cfgs: seq<TreeConfig>, key: Bytes, observe: Bytes -> T)
    requires LawfulSchema(schema) && Run(schema, states, events) && OpenSince(states, events, b, n)
    requires n + 2 < |states| && events[n].CommitOnTx? && events[n + 1].Save?
    requires Follows(schema, Main, cfgs) && Route(states[n].tx.value.trees, Main, cfgs)
    requires BlindAt(schema, Destination(Main, cfgs), key, observe)
    ensures Main in states[n + 2].db.trees
    ensures var db, p := states[n + 2].db, Destination(Main, cfgs);
            var view := DeepView(db.trees, View(Main, db.trees[Main]), cfgs);
            && MainView(db, schema(Main), None) == Ok(View(Main, db.trees[Main]))
            && view.Ok?
            && Read(observe, view.value, key) ==
               Expected(observe, LastCallOn(events, b + 1, n, p, key), Seen(observe, states[b].db.trees, p, key))
  {
    var p := Destination(Main, cfgs);
    LastWriterWins(schema, states, events, b, n, p, key, observe);
    CommittedWritesAreRead(schema, states, events, n, cfgs, key, observe);
    RunKeepsInv(schema, states, events, n);
    SchemaBlindToRoots(schema, states[n].tx.value.open, p, key, observe);
  }

  lemma SchemaBlindToRoots<T>(schema: Schema, open: OpenTrees, p: Path, key: Bytes, observe: Bytes -> T)
    requires FollowsSchema(open, schema) && BlindAt(schema, p, key, observe)
    ensures BlindToRoots(open, p, key, observe)
  {
  }

  // ---------------------------------------------------------------- what counts as written

  predicate WritesTo(e: Event, p: Path) {
    (e.Put? && e.p == p) || (e.Touch? && e.p == p) || (e.Remove? && e.p == p)
  }

  /** Some call from `lo` up to `hi` wrote to the tree; a commit on the transaction closes the sub-trees, and
      they start clean when they are opened again. */
  ghost predicate WrittenSince(events: seq<Event>, lo: nat, hi: nat, p: Path)
    requires lo <= hi <= |events|
    decreases hi
  {
    hi > lo && (WritesTo(events[hi - 1], p) || (!(events[hi - 1].CommitOnTx? && p.Sub?) && WrittenSince(events, lo, hi - 1, p)))
  }

  ghost predicate Dirty(t: Tx, p: Path) {
    p in t.open && t.open[p].dirty
  }

  lemma StepDirties(schema: Schema, s: System, e: Event, s': System, p: Path)
    requires Step(schema, s, e, s') && s.tx.Some? && s'.tx.Some?
    ensures Dirty(s'.tx.value, p) <==> WritesTo(e, p) || (!(e.CommitOnTx? && p.Sub?) && Dirty(s.tx.value, p))
  {
  }

  ghost predicate DirtyAt(events: seq<Event>, lo: nat, dirty: seq<bool>, p: Path, j: nat)
    requires lo + |dirty| <= |events| + 1 && 0 < j < |dirty|
  {
    var e := events[lo + j - 1];
    dirty[j] == (WritesTo(e, p) || (!(e.CommitOnTx? && p.Sub?) && dirty[j - 1]))
  }

  lemma {:induction false} DirtyFollows(events: seq<Event>, lo: nat, dirty: seq<bool>, n: nat, p: Path)
    requires lo + |dirty| <= |events| + 1 && n < |dirty| && !dirty[0]
    requires forall j :: 0 < j < |dirty| ==> DirtyAt(events, lo, dirty, p, j)
    ensures dirty[n] <==> WrittenSince(events, lo, lo + n, p)
    decreases n
  {
    if n > 0 {
      DirtyFollows(events, lo, dirty, n - 1, p);
      assert DirtyAt(events, lo, dirty, p, n);
    }
  }

  lemma DirtyStep(schema: Schema, states: seq<System>, events: seq<Event>, i: nat, p: Path)
    requires Run(schema, states, events) && i < |events| && states[i + 1].tx.Some?
    ensures states[i].tx.Some? ==>
              (Dirty(states[i + 1].tx.value, p) <==> WritesTo(events[i], p) || (!(events[i].CommitOnTx? && p.Sub?) && Dirty(states[i].tx.value, p)))
    ensures events[i].Begin? ==> !Dirty(states[i + 1].tx.value, p)
  {
    RunStep(schema, states, events, i);
    if states[i].tx.Some? {
      StepDirties(schema, states[i], events[i], states[i + 1], p);
    }
  }

  /** A tree counts as written exactly when a call wrote to it: nothing else makes a commit rewrite roots, and
      no write is missed. */
  lemma DirtyExactly(schema: Schema, states: seq<System>, events: seq<Event>, b: nat, n: nat, p: Path)
    requires Run(schema, states, events) && OpenSince(states, events, b, n)
    ensures Dirty(states[n].tx.value, p) <==> WrittenSince(events, b + 1, n, p)
  {
    var lo := b + 1;
    var dirty := seq(n - b, j requires 0 <= j < n - b => states[lo + j].tx.Some? && Dirty(states[lo + j].tx.value, p));
    forall j | 0 < j < |dirty| ensures DirtyAt(events, lo, dirty, p, j) {
      DirtyStep(schema, states, events, lo + j - 1, p);
    }
    DirtyStep(schema, states, events, b, p);
    DirtyFollows(events, lo, dirty, n - lo, p);
  }
}
