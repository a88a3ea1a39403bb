/** The persistent mempool over whole runs with crashes: nothing pending is lost, and the index in
    memory is the queue of what the database holds. */
module VoconeMempool {
  import opened Base
  import opened VoconeModel
  import opened VoconeChain

  /** The keys that block production holds. */
  function WorkKeys(w: Work): seq<Key> {
    match w
    case Idle => []
    case Reading(todo, _, consumed) => todo + consumed
    case Built(_, c) => c
    case MetaStored(_, c) => c
    case TxsStored(_, c) => c
    case Saved(c) => c
    case Cleaned(c) => c
  }

  ghost predicate OfSent(sent: map<nat, Bytes>, keys: seq<Key>) {
    forall k :: k in keys ==> k.seqNo in sent
  }

  /** Every transaction ever stored is pending, with the content it came with, unless it was pruned or
      consumed by a committed block; and sequence numbers are not used twice. */
  ghost predicate Accounted(n: Node) {
    && n.disk.pending.Keys == n.sent.Keys - n.pruned - n.consumedByBlock
    && (forall s :: s in n.disk.pending ==> n.disk.pending[s] == n.sent[s])
    && (forall s :: s in n.sent ==> s <= n.disk.lastSeq)
    && n.disk.lastSeq <= n.mem.lastSeq
    && OfSent(n.sent, n.mem.keys) && OfSent(n.sent, WorkKeys(n.mem.work))
    && n.pruned <= n.sent.Keys && n.consumedByBlock <= n.sent.Keys
  }

  lemma RestartKeepsAccount(iter: IterateKeys, n: Node)
    requires Accounted(n)
    ensures Accounted(n.(mem := Recover(n.disk, iter)))
  {
    var keys := AsKeys(iter, PendingOrder(n.disk));
    forall k | k in keys ensures k.seqNo in n.sent {
      var i :| 0 <= i < |keys| && keys[i] == k;
      assert PendingOrder(n.disk)[i] in PendingOrder(n.disk);
    }
  }

  lemma StepKeepsAccount(env: Env, iter: IterateKeys, n: Node, e: Event)
    requires Accounted(n)
    ensures Accounted(Step(env, iter, n, e))
  {
    match e
    case AddTx(tx, valid, stored) => AddKeepsAccount(n, tx, valid, stored);
    case Prune(matches, stored) => PruneKeepsAccount(n, matches, stored);
    case Take(count) => TakeKeepsAccount(n, count);
    case ReadNext(valid) => ReadKeepsAccount(n, valid);
    case CleanDatabase(succeeds) => CleanKeepsAccount(n, succeeds);
    case Restart => RestartKeepsAccount(iter, n);
    case _ => BlockKeepsAccount(env, iter, n, e);
  }

  lemma BlockKeepsAccount(env: Env, iter: IterateKeys, n: Node, e: Event)
    requires Accounted(n)
    requires e.Execute? || e.WriteMeta? || e.WriteTxs? || e.SaveState? || e.CleanIndex? || e.SaveOutsideBlock?
    ensures Accounted(Step(env, iter, n, e))
  {
    if e.Execute? {
      ExecuteLeavesMempool(env, n, e.succeeds, e.time, e.appHash);
    } else {
      WritesLeaveMempool(env, iter, n, e);
    }
    OthersKeepAccount(n, Step(env, iter, n, e));
  }

  /** Two nodes with the same mempool database and history of it. */
  ghost predicate SameMempool(n: Node, n': Node) {
    && n'.disk.pending == n.disk.pending && n'.disk.lastSeq == n.disk.lastSeq && n'.mem.lastSeq == n.mem.lastSeq
    && n'.sent == n.sent && n'.pruned == n.pruned && n'.consumedByBlock == n.consumedByBlock
  }

  lemma ExecuteLeavesMempool(env: Env, n: Node, succeeds: bool, time: nat, appHash: Bytes)
    ensures var n' := DoExecute(env, n, succeeds, time, appHash);
            && SameMempool(n, n') && n'.mem.keys == n.mem.keys
            && (WorkKeys(n'.mem.work) == WorkKeys(n.mem.work) || WorkKeys(n'.mem.work) == [])
  {
    if n.mem.work.Reading? && n.mem.work.todo == [] {
      assert WorkKeys(n.mem.work) == n.mem.work.consumed;
    }
  }

  lemma WritesLeaveMempool(env: Env, iter: IterateKeys, n: Node, e: Event)
    requires e.WriteMeta? || e.WriteTxs? || e.SaveState? || e.CleanIndex? || e.SaveOutsideBlock?
    ensures var n' := Step(env, iter, n, e);
            && SameMempool(n, n') && (forall k :: k in n'.mem.keys ==> k in n.mem.keys)
            && (WorkKeys(n'.mem.work) == WorkKeys(n.mem.work) || WorkKeys(n'.mem.work) == [])
  {
    match e
    case WriteMeta(succeeds) => assert n.mem.work.Built? ==> WorkKeys(n.mem.work) == n.mem.work.consumed;
    case WriteTxs(succeeds) => assert n.mem.work.MetaStored? ==> WorkKeys(n.mem.work) == n.mem.work.consumed;
    case SaveState(succeeds) => assert n.mem.work.TxsStored? ==> WorkKeys(n.mem.work) == n.mem.work.consumed;
    case CleanIndex =>
    case SaveOutsideBlock =>
  }

  /** A step that leaves the mempool alone and holds no new keys. */
  lemma OthersKeepAccount(n: Node, n': Node)
    requires Accounted(n)
    requires SameMempool(n, n')
    requires forall k :: k in n'.mem.keys ==> k in n.mem.keys
    requires WorkKeys(n'.mem.work) == WorkKeys(n.mem.work) || WorkKeys(n'.mem.work) == []
    ensures Accounted(n')
  {
  }

  lemma TakeKeepsAccount(n: Node, count: nat)
    requires Accounted(n)
    ensures Accounted(DoTake(n, count))
  {
    assert forall k :: k in WorkKeys(DoTake(n, count).mem.work) ==> k in WorkKeys(n.mem.work) || k in n.mem.keys;
  }

  lemma CleanKeepsAccount(n: Node, succeeds: bool)
    requires Accounted(n)
    ensures Accounted(DoCleanDatabase(n, succeeds))
  {
  }

  lemma AddKeepsAccount(n: Node, tx: Bytes, valid: bool, stored: bool)
    requires Accounted(n)
    ensures Accounted(DoAddTx(n, tx, valid, stored))
  {
  }

  lemma PruneKeepsAccount(n: Node, matches: Bytes -> bool, stored: bool)
    requires Accounted(n)
    ensures Accounted(DoPrune(n, matches, stored))
  {
    var i := FirstMatch(n.disk.pending, n.mem.keys, matches);
    if i < |n.mem.keys| {
      assert n.mem.keys[i] in n.mem.keys;
    }
  }

  lemma ReadKeepsAccount(n: Node, valid: bool)
    requires Accounted(n)
    ensures Accounted(DoReadNext(n, valid))
  {
    if n.mem.work.Reading? && n.mem.work.todo != [] {
      var w := n.mem.work;
      assert w.todo[0] in WorkKeys(w);
      forall k | k in w.todo[1..] + (w.consumed + [w.todo[0]]) ensures k in WorkKeys(w) {}
    }
  }

  lemma {:induction false} RunKeepsAccount(env: Env, iter: IterateKeys, events: seq<Event>)
    ensures Accounted(Run(env, iter, events))
    decreases |events|
  {
    if events == [] {
      assert forall k: nat :: k !in PendingOrder(EMPTY_DISK);
    } else {
      RunKeepsAccount(env, iter, events[..|events| - 1]);
      StepKeepsAccount(env, iter, Run(env, iter, events[..|events| - 1]), events[|events| - 1]);
    }
  }

  /** A pending transaction leaves the database only by being pruned, or in the cleanup after the state
      of the block that consumed it was committed. */
  lemma LeavesOnlyWhenDone(env: Env, iter: IterateKeys, n: Node, e: Event, top: nat, s: nat)
    requires HeightsInv(n, top) && s in n.disk.pending && s !in Step(env, iter, n, e).disk.pending
    ensures || (e.Prune? && e.stored && e.matches(n.disk.pending[s]))
            || (e.CleanDatabase? && e.succeeds && n.mem.work.Saved? && Full(s) in n.mem.work.consumed && n.mem.height in n.committed)
  {
  }

  /** No pending transaction is lost: after any run, with crashes wherever they may be, the database
      holds exactly the transactions ever accepted that were neither pruned nor consumed by a committed
      block, each as it was sent; and the next transaction gets a number nobody had. */
  lemma NothingPendingIsLost(env: Env, iter: IterateKeys, events: seq<Event>)
    ensures var n := Run(env, iter, events);
            && n.disk.pending.Keys == n.sent.Keys - n.pruned - n.consumedByBlock
            && (forall s :: s in n.disk.pending ==> n.disk.pending[s] == n.sent[s])
            && n.mem.lastSeq + 1 !in n.sent
  {
    RunKeepsAccount(env, iter, events);
  }

  // ---------------------------------------------------------------- the queue

  /** The keys are database keys in increasing order. */
  ghost predicate Ascending(keys: seq<Key>) {
    && (forall i :: 0 <= i < |keys| ==> keys[i].Full?)
    && (forall i, j :: 0 <= i < j < |keys| ==> keys[i].seqNo < keys[j].seqNo)
  }

  ghost function SeqNos(keys: seq<Key>): set<nat> {
    set k | k in keys :: k.seqNo
  }

  /** What is in the index and no longer in the database: the keys consumed by a block, between the
      cleanup of the database and that of the index. */
  ghost function Leaving(w: Work): set<nat> {
    if w.Cleaned? then Deleted(w.consumed) else {}
  }

  ghost predicate Queued(n: Node) {
    && Ascending(n.mem.keys)
    && n.disk.pending.Keys == SeqNos(n.mem.keys) - Leaving(n.mem.work)
    && |n.mem.keys| <= MEMPOOL_SIZE
    && (forall k :: k in n.mem.keys ==> k.seqNo <= n.mem.lastSeq)
  }

  lemma SeqNosAppend(keys: seq<Key>, k: Key)
    ensures SeqNos(keys + [k]) == SeqNos(keys) + {k.seqNo}
  {
    assert forall j :: j in keys + [k] <==> j in keys || j == k;
  }

  lemma LastIsNew(keys: seq<Key>, k: Key)
    requires Ascending(keys + [k])
    ensures Ascending(keys) && k.Full? && k.seqNo !in SeqNos(keys) && forall j :: j in keys ==> j.seqNo < k.seqNo
  {
    assert forall i :: 0 <= i < |keys| ==> (keys + [k])[i] == keys[i];
    assert (keys + [k])[|keys|] == k;
    forall j | j in keys ensures j.seqNo < k.seqNo {
      var i :| 0 <= i < |keys| && keys[i] == j;
    }
  }

  lemma AscendingAppend(keys: seq<Key>, k: Key)
    requires Ascending(keys) && k.Full? && forall j :: j in keys ==> j.seqNo < k.seqNo
    ensures Ascending(keys + [k])
  {
    assert forall i :: 0 <= i < |keys| ==> keys[i] in keys;
  }

  lemma {:induction false} AscendingSize(keys: seq<Key>)
    requires Ascending(keys)
    ensures |SeqNos(keys)| == |keys|
    decreases |keys|
  {
    if keys != [] {
      var init, k := keys[..|keys| - 1], keys[|keys| - 1];
      assert keys == init + [k];
      LastIsNew(init, k);
      AscendingSize(init);
      SeqNosAppend(init, k);
    }
  }

  /** Removing the consumed keys removes exactly their numbers and keeps the order of the others. */
  lemma {:induction false} WithoutKeepsOrder(keys: seq<Key>, consumed: seq<Key>)
    requires Ascending(keys)
    ensures Ascending(Without(keys, consumed)) && |Without(keys, consumed)| <= |keys|
    ensures SeqNos(Without(keys, consumed)) == SeqNos(keys) - Deleted(consumed)
    decreases |keys|
  {
    if keys != [] {
      var init, k := keys[..|keys| - 1], keys[|keys| - 1];
      assert keys == init + [k];
      LastIsNew(init, k);
      WithoutKeepsOrder(init, consumed);
      AscendingAppend(Without(init, consumed), k);
      SeqNosAppend(init, k);
      SeqNosAppend(Without(init, consumed), k);
      assert k in consumed <==> k.seqNo in Deleted(consumed);
    }
  }

  lemma RemoveOne(keys: seq<Key>, i: nat)
    requires Ascending(keys) && i < |keys|
    ensures Ascending(keys[..i] + keys[i + 1..])
    ensures SeqNos(keys[..i] + keys[i + 1..]) == SeqNos(keys) - {keys[i].seqNo}
  {
    var rest := keys[..i] + keys[i + 1..];
    assert forall j :: 0 <= j < |rest| ==> rest[j] == keys[if j < i then j else j + 1];
    KeysButOne(keys, i);
    assert forall s :: s in SeqNos(rest) <==> s in SeqNos(keys) && s != keys[i].seqNo;
  }

  lemma KeysButOne(keys: seq<Key>, i: nat)
    requires Ascending(keys) && i < |keys|
    ensures forall k :: k in keys[..i] + keys[i + 1..] <==> k in keys && k.seqNo != keys[i].seqNo
  {
    var a, b := keys[..i], keys[i + 1..];
    assert keys == a + [keys[i]] + b;
    forall k | k in a ensures k.seqNo < keys[i].seqNo {
      var j :| 0 <= j < |a| && a[j] == k;
      assert keys[j] == k;
    }
    forall k | k in b ensures keys[i].seqNo < k.seqNo {
      var j :| 0 <= j < |b| && b[j] == k;
      assert keys[i + 1 + j] == k;
    }
  }

  /** The keys recovered from a list of sequence numbers. */
  lemma AsKeysOf(iter: IterateKeys, order: seq<nat>, members: set<nat>)
    requires forall s :: s in order <==> s in members
    requires forall i, j :: 0 <= i < j < |order| ==> order[i] < order[j]
    ensures SeqNos(AsKeys(iter, order)) == members
    ensures forall k :: k in AsKeys(iter, order) ==> (k.Full? <==> iter.FullKeys?)
    ensures iter.FullKeys? ==> Ascending(AsKeys(iter, order))
  {
    var keys := AsKeys(iter, order);
    forall s | s in members ensures s in SeqNos(keys) {
      var i :| 0 <= i < |order| && order[i] == s;
      assert keys[i] in keys && keys[i].seqNo == s;
    }
    forall s | s in SeqNos(keys) ensures s in members {
      var k :| k in keys && k.seqNo == s;
      var i :| 0 <= i < |keys| && keys[i] == k;
      assert order[i] in order;
    }
  }

  lemma RecoveredKeys(disk: Disk)
    ensures Ascending(AsKeys(FullKeys, PendingOrder(disk))) && SeqNos(AsKeys(FullKeys, PendingOrder(disk))) == disk.pending.Keys
    ensures forall k :: k in AsKeys(FullKeys, PendingOrder(disk)) ==> k.seqNo <= RecoveredSeq(disk)
  {
    var order := PendingOrder(disk);
    AsKeysOf(FullKeys, order, disk.pending.Keys);
    var keys := AsKeys(FullKeys, order);
    if keys != [] {
      LastIsMax(keys);
      forall k | k in keys ensures k.seqNo <= RecoveredSeq(disk) {
        assert k.seqNo in SeqNos(keys);
      }
    }
  }

  lemma AddKeepsQueue(n: Node, tx: Bytes, valid: bool, stored: bool)
    requires Queued(n) && Accounted(n)
    ensures Queued(DoAddTx(n, tx, valid, stored))
  {
    if valid && |n.mem.keys| < MEMPOOL_SIZE && stored {
      var s := n.mem.lastSeq + 1;
      var n' := DoAddTx(n, tx, valid, stored);
      SeqNosAppend(n.mem.keys, Full(s));
      AscendingAppend(n.mem.keys, Full(s));
      assert s !in Leaving(n.mem.work);
    }
  }

  lemma PruneKeepsQueue(n: Node, matches: Bytes -> bool, stored: bool)
    requires Queued(n)
    ensures Queued(DoPrune(n, matches, stored))
  {
    var i := FirstMatch(n.disk.pending, n.mem.keys, matches);
    if i < |n.mem.keys| {
      RemoveOne(n.mem.keys, i);
    }
  }

  lemma RestartKeepsQueue(n: Node)
    requires Queued(n)
    ensures Queued(n.(mem := Recover(n.disk, FullKeys)))
  {
    RecoveredKeys(n.disk);
    RecoveredSize(n.disk, n.mem.keys);
  }

  lemma RecoveredSize(disk: Disk, keys: seq<Key>)
    requires Ascending(keys) && disk.pending.Keys <= SeqNos(keys)
    ensures |AsKeys(FullKeys, PendingOrder(disk))| <= |keys|
  {
    RecoveredKeys(disk);
    AscendingSize(AsKeys(FullKeys, PendingOrder(disk)));
    AscendingSize(keys);
    SubsetSize(disk.pending.Keys, SeqNos(keys));
  }

  /** Every step whose cleanup of the database succeeds keeps the queue. */
  lemma StepKeepsQueue(env: Env, n: Node, e: Event)
    requires Queued(n) && Accounted(n) && e != CleanDatabase(false)
    ensures Queued(Step(env, FullKeys, n, e))
  {
    match e
    case AddTx(tx, valid, stored) => AddKeepsQueue(n, tx, valid, stored);
    case Prune(matches, stored) => PruneKeepsQueue(n, matches, stored);
    case CleanDatabase(succeeds) => CleanKeepsQueue(n);
    case CleanIndex => CleanIndexKeepsQueue(n);
    case Restart => RestartKeepsQueue(n);
    case _ => OthersKeepQueue(env, n, e);
  }

  lemma CleanKeepsQueue(n: Node)
    requires Queued(n)
    ensures Queued(DoCleanDatabase(n, true))
  {
  }

  lemma CleanIndexKeepsQueue(n: Node)
    requires Queued(n)
    ensures Queued(DoCleanIndex(n))
  {
    if n.mem.work.Cleaned? {
      WithoutKeepsOrder(n.mem.keys, n.mem.work.consumed);
    }
  }

  lemma OthersKeepQueue(env: Env, n: Node, e: Event)
    requires Queued(n) && !e.AddTx? && !e.Prune? && !e.CleanDatabase? && !e.CleanIndex? && !e.Restart?
    ensures Queued(Step(env, FullKeys, n, e))
  {
    OthersLeaveQueue(env, n, e);
  }

  lemma OthersLeaveQueue(env: Env, n: Node, e: Event)
    requires !e.AddTx? && !e.Prune? && !e.CleanDatabase? && !e.CleanIndex? && !e.Restart?
    ensures var n' := Step(env, FullKeys, n, e);
            n'.mem.keys == n.mem.keys && n'.disk.pending == n.disk.pending && n'.mem.lastSeq == n.mem.lastSeq &&
            Leaving(n'.mem.work) == Leaving(n.mem.work)
  {
  }

  lemma {:induction false} RunKeepsQueue(env: Env, events: seq<Event>)
    requires CleanDatabase(false) !in events
    ensures Queued(Run(env, FullKeys, events))
    decreases |events|
  {
    if events == [] {
      RecoveredKeys(EMPTY_DISK);
      assert forall k: nat :: k !in PendingOrder(EMPTY_DISK);
    } else {
      var init, e := events[..|events| - 1], events[|events| - 1];
      assert e in events && forall x :: x in init ==> x in events;
      RunKeepsQueue(env, init);
      RunKeepsAccount(env, FullKeys, init);
      StepKeepsQueue(env, Run(env, FullKeys, init), e);
    }
  }

  /** Two increasing sequences of the same numbers are equal. */
  /** The numbers before the last one. */
  lemma InitNumbers(keys: seq<Key>)
    requires Ascending(keys) && keys != []
    ensures var init, k := keys[..|keys| - 1], keys[|keys| - 1];
            keys == init + [k] && Ascending(init) && k.Full? && SeqNos(init) == SeqNos(keys) - {k.seqNo}
  {
    var init, k := keys[..|keys| - 1], keys[|keys| - 1];
    assert keys == init + [k];
    LastIsNew(init, k);
    SeqNosAppend(init, k);
  }

  lemma {:induction false} AscendingUnique(a: seq<Key>, b: seq<Key>)
    requires Ascending(a) && Ascending(b) && SeqNos(a) == SeqNos(b)
    ensures a == b
    decreases |a|
  {
    AscendingSize(a);
    AscendingSize(b);
    if a != [] {
      LastIsMax(a);
      LastIsMax(b);
      InitNumbers(a);
      InitNumbers(b);
      AscendingUnique(a[..|a| - 1], b[..|b| - 1]);
    }
  }

  lemma LastIsMax(a: seq<Key>)
    requires Ascending(a) && a != []
    ensures a[|a| - 1].seqNo in SeqNos(a) && forall s :: s in SeqNos(a) ==> s <= a[|a| - 1].seqNo
  {
    assert a[|a| - 1] in a;
    forall s | s in SeqNos(a) ensures s <= a[|a| - 1].seqNo {
      var k :| k in a && k.seqNo == s;
      var i :| 0 <= i < |a| && a[i] == k;
    }
  }

  /** Queue agrees with database: with whole keys from iteration and cleanups that the database accepts,
      whenever no block is in production, also right after a restart, the index is the list of stored
      keys in order of arrival, within the size limit. */
  lemma QueueAgreesWithDatabase(env: Env, events: seq<Event>)
    requires CleanDatabase(false) !in events
    ensures var n := Run(env, FullKeys, events);
            && |n.mem.keys| <= MEMPOOL_SIZE
            && (!n.mem.work.Cleaned? ==> n.mem.keys == AsKeys(FullKeys, PendingOrder(n.disk)))
  {
    RunKeepsQueue(env, events);
    var n := Run(env, FullKeys, events);
    if !n.mem.work.Cleaned? {
      RecoveredKeys(n.disk);
      AscendingUnique(n.mem.keys, AsKeys(FullKeys, PendingOrder(n.disk)));
    }
  }

  lemma RecoveredAre(disk: Disk, iter: IterateKeys, k: Key)
    requires k in AsKeys(iter, PendingOrder(disk))
    ensures k.seqNo in disk.pending && (k.Full? <==> iter.FullKeys?)
  {
    AsKeysOf(iter, PendingOrder(disk), disk.pending.Keys);
    assert k.seqNo in SeqNos(AsKeys(iter, PendingOrder(disk)));
  }

  lemma SomethingRecovered(disk: Disk, iter: IterateKeys) returns (k: Key)
    requires disk.pending != map[]
    ensures k in AsKeys(iter, PendingOrder(disk))
  {
    AsKeysOf(iter, PendingOrder(disk), disk.pending.Keys);
    var s :| s in disk.pending;
    assert s in SeqNos(AsKeys(iter, PendingOrder(disk)));
    k :| k in AsKeys(iter, PendingOrder(disk)) && k.seqNo == s;
  }

  /** With keys stripped of their prefix, as the Pebble database iterates, a restart gives a queue of
      which no entry can be read or deleted, unless nothing was pending. Recovery works exactly for whole
      keys or an empty mempool. */
  lemma RecoveryNeedsWholeKeys(disk: Disk, iter: IterateKeys)
    ensures (forall k :: k in Recover(disk, iter).keys ==> Find(disk.pending, k).Some?) <==> iter.FullKeys? || disk.pending == map[]
    ensures iter.StrippedKeys? ==> forall k :: k in Recover(disk, iter).keys ==> Find(disk.pending, k).None? && k.seqNo !in Deleted(Recover(disk, iter).keys)
  {
    var keys := AsKeys(iter, PendingOrder(disk));
    forall k | k in keys ensures k.seqNo in disk.pending && (k.Full? <==> iter.FullKeys?) {
      RecoveredAre(disk, iter, k);
    }
    if iter.StrippedKeys? {
      assert forall k :: k in keys ==> Find(disk.pending, k).None?;
      assert forall k :: k in keys ==> k.seqNo !in Deleted(keys);
      if disk.pending != map[] {
        var k := SomethingRecovered(disk, iter);
        assert k in keys && !Find(disk.pending, k).Some?;
      }
    } else {
      assert forall k :: k in keys ==> Find(disk.pending, k).Some?;
    }
  }
}
