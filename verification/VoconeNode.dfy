/** The Vocone object: the loops of the mempool and of the block store, block production and recovery,
    proved against the steps of VoconeModel. Its ghost fields are the history those steps record. */
module VoconeNode {
  import opened Base
  import opened VoconeModel
  import opened VoconeChain

  /** Where block production stops: at one of its writes, or not at all. */
  datatype Fault = NoFault | ExecuteFails | MetaFails | TxsFail | SaveFails

  lemma {:induction false} StepsConcat(env: Env, iter: IterateKeys, n: Node, a: seq<Event>, b: seq<Event>)
    ensures Steps(env, iter, n, a + b) == Steps(env, iter, Steps(env, iter, n, a), b)
    decreases |b|
  {
    if b == [] {
      assert a + b == a;
    } else {
      var init, e := b[..|b| - 1], b[|b| - 1];
      assert a + b == (a + init) + [e] && b == init + [e];
      StepsConcat(env, iter, n, a, init);
      StepsAppend(env, iter, n, a + init, e);
      StepsAppend(env, iter, Steps(env, iter, n, a), init, e);
    }
  }

  lemma StepsCons(env: Env, iter: IterateKeys, n: Node, e: Event, events: seq<Event>)
    ensures Steps(env, iter, n, [e] + events) == Steps(env, iter, Step(env, iter, n, e), events)
  {
    StepsConcat(env, iter, n, [e], events);
    assert [] + [e] == [e];
    StepsAppend(env, iter, n, [], e);
  }

  /** The steps after the mempool has been read, up to the one that fails. */
  function ProductionSteps(fault: Fault, time: nat, appHash: Bytes, cleanup: bool): seq<Event> {
    [Execute(!fault.ExecuteFails?, time, appHash)] + if fault.ExecuteFails? then [] else PersistSteps(fault, cleanup)
  }

  function PersistSteps(fault: Fault, cleanup: bool): seq<Event> {
    [WriteMeta(!fault.MetaFails?)] + if fault.MetaFails? then [] else CompleteSteps(fault, cleanup)
  }

  function CompleteSteps(fault: Fault, cleanup: bool): seq<Event> {
    [WriteTxs(!fault.TxsFail?)] + if fault.TxsFail? then [] else SaveSteps(fault, cleanup)
  }

  function SaveSteps(fault: Fault, cleanup: bool): seq<Event> {
    [SaveState(!fault.SaveFails?)] + if fault.SaveFails? then [] else [CleanDatabase(cleanup)] + ([CleanIndex] + [])
  }

  /** What the writes of a block do, up to the one that fails. */
  function Persist(env: Env, n: Node, fault: Fault, cleanup: bool): Node {
    var stored := DoWriteMeta(env, n, !fault.MetaFails?);
    if fault.MetaFails? then stored else Complete(stored, fault, cleanup)
  }

  function Complete(stored: Node, fault: Fault, cleanup: bool): Node {
    var complete := DoWriteTxs(stored, !fault.TxsFail?);
    if fault.TxsFail? then complete else Save(complete, fault, cleanup)
  }

  function Save(complete: Node, fault: Fault, cleanup: bool): Node {
    var saved := DoSaveState(complete, !fault.SaveFails?);
    if fault.SaveFails? then saved else DoCleanIndex(DoCleanDatabase(saved, cleanup))
  }

  lemma SaveIsSteps(env: Env, iter: IterateKeys, n: Node, fault: Fault, cleanup: bool)
    ensures Steps(env, iter, n, SaveSteps(fault, cleanup)) == Save(n, fault, cleanup)
  {
    var saved := DoSaveState(n, !fault.SaveFails?);
    var rest := if fault.SaveFails? then [] else [CleanDatabase(cleanup)] + ([CleanIndex] + []);
    StepsCons(env, iter, n, SaveState(!fault.SaveFails?), rest);
    if !fault.SaveFails? {
      StepsCons(env, iter, saved, CleanDatabase(cleanup), [CleanIndex] + []);
      StepsCons(env, iter, DoCleanDatabase(saved, cleanup), CleanIndex, []);
    }
  }

  lemma CompleteIsSteps(env: Env, iter: IterateKeys, n: Node, fault: Fault, cleanup: bool)
    ensures Steps(env, iter, n, CompleteSteps(fault, cleanup)) == Complete(n, fault, cleanup)
  {
    StepsCons(env, iter, n, WriteTxs(!fault.TxsFail?), if fault.TxsFail? then [] else SaveSteps(fault, cleanup));
    SaveIsSteps(env, iter, DoWriteTxs(n, !fault.TxsFail?), fault, cleanup);
  }

  lemma PersistIsSteps(env: Env, iter: IterateKeys, n: Node, fault: Fault, cleanup: bool)
    ensures Steps(env, iter, n, PersistSteps(fault, cleanup)) == Persist(env, n, fault, cleanup)
  {
    StepsCons(env, iter, n, WriteMeta(!fault.MetaFails?), if fault.MetaFails? then [] else CompleteSteps(fault, cleanup));
    CompleteIsSteps(env, iter, DoWriteMeta(env, n, !fault.MetaFails?), fault, cleanup);
  }

  lemma ProductionIsSteps(env: Env, iter: IterateKeys, n: Node, fault: Fault, time: nat, appHash: Bytes, cleanup: bool)
    ensures var executed := DoExecute(env, n, !fault.ExecuteFails?, time, appHash);
            Steps(env, iter, n, ProductionSteps(fault, time, appHash, cleanup)) ==
              if fault.ExecuteFails? then executed else Persist(env, executed, fault, cleanup)
  {
    StepsCons(env, iter, n, Execute(!fault.ExecuteFails?, time, appHash), if fault.ExecuteFails? then [] else PersistSteps(fault, cleanup));
    PersistIsSteps(env, iter, DoExecute(env, n, !fault.ExecuteFails?, time, appHash), fault, cleanup);
  }

  /** A node with production at another point. */
  function WithWork(n: Node, work: Work): Node {
    n.(mem := n.mem.(work := work))
  }

  lemma ReadIsStep(env: Env, iter: IterateKeys, n: Node, events: seq<Event>, start: Node, todo: seq<Key>, txs: seq<Bytes>, consumed: seq<Key>, valid: bool)
    requires Steps(env, iter, start, events) == WithWork(n, Reading(todo, txs, consumed)) && todo != []
    ensures var tx := Find(n.disk.pending, todo[0]);
            Steps(env, iter, start, events + [ReadNext(valid)]) ==
            WithWork(n, Reading(todo[1..], if tx.Some? && valid then txs + [tx.value] else txs, consumed + [todo[0]]))
  {
    StepsAppend(env, iter, start, events, ReadNext(valid));
  }

  lemma TakeIsStep(env: Env, iter: IterateKeys, n: Node, count: nat)
    requires n.mem.work.Idle?
    ensures Steps(env, iter, n, [Take(count)]) ==
            WithWork(n, Reading(if count <= |n.mem.keys| then n.mem.keys[..count] else n.mem.keys, [], []))
  {
    assert [] + [Take(count)] == [Take(count)];
    StepsAppend(env, iter, n, [], Take(count));
  }

  // ---------------------------------------------------------------- what a block is made of

  /** Which keys have a transaction in the database that is still valid. */
  ghost function Usable(pending: map<nat, Bytes>, keys: seq<Key>, valid: Bytes -> bool): (keep: seq<bool>)
    ensures |keep| == |keys|
    ensures forall i :: 0 <= i < |keys| ==>
              keep[i] == (keys[i].Full? && keys[i].seqNo in pending && valid(pending[keys[i].seqNo]))
  {
    seq(|keys|, i requires 0 <= i < |keys| => keys[i].Full? && keys[i].seqNo in pending && valid(pending[keys[i].seqNo]))
  }

  /** The transactions are those of the usable keys, all of them, each once and in the order of the keys. */
  ghost predicate MadeOf(pending: map<nat, Bytes>, keys: seq<Key>, valid: Bytes -> bool, places: seq<nat>, txs: seq<Bytes>) {
    && Picks(places, Usable(pending, keys, valid))
    && |txs| == |places|
    && forall j :: 0 <= j < |places| ==> places[j] < |keys| && keys[places[j]].seqNo in pending && txs[j] == pending[keys[places[j]].seqNo]
  }

  lemma MadeOfAppend(pending: map<nat, Bytes>, keys: seq<Key>, valid: Bytes -> bool, places: seq<nat>, txs: seq<Bytes>, k: Key)
    requires MadeOf(pending, keys, valid, places, txs)
    ensures k.Full? && k.seqNo in pending && valid(pending[k.seqNo]) ==>
              MadeOf(pending, keys + [k], valid, places + [|keys|], txs + [pending[k.seqNo]])
    ensures !(k.Full? && k.seqNo in pending && valid(pending[k.seqNo])) ==> MadeOf(pending, keys + [k], valid, places, txs)
  {
    var usable := k.Full? && k.seqNo in pending && valid(pending[k.seqNo]);
    assert Usable(pending, keys + [k], valid) == Usable(pending, keys, valid) + [usable];
    PicksAppend(places, Usable(pending, keys, valid), usable);
  }

  /** What the loop over the keys collects. */
  function Collected(pending: map<nat, Bytes>, keys: seq<Key>, valid: Bytes -> bool): seq<Bytes> {
    if keys == [] then []
    else
      var before := Collected(pending, keys[..|keys| - 1], valid);
      var tx := Find(pending, keys[|keys| - 1]);
      if tx.Some? && valid(tx.value) then before + [tx.value] else before
  }

  lemma {:induction false} CollectedIsMade(pending: map<nat, Bytes>, keys: seq<Key>, valid: Bytes -> bool) returns (places: seq<nat>)
    ensures MadeOf(pending, keys, valid, places, Collected(pending, keys, valid))
    decreases |keys|
  {
    if keys == [] {
      places := [];
    } else {
      var init, k := keys[..|keys| - 1], keys[|keys| - 1];
      assert keys == init + [k];
      places := CollectedIsMade(pending, init, valid);
      MadeOfAppend(pending, init, valid, places, Collected(pending, init, valid), k);
      if k.Full? && k.seqNo in pending && valid(pending[k.seqNo]) {
        places := places + [|init|];
      }
    }
  }

  lemma CollectedNext(pending: map<nat, Bytes>, todo: seq<Key>, valid: Bytes -> bool, i: nat)
    requires i < |todo|
    ensures todo[i..] != [] && todo[i..][0] == todo[i] && todo[i..][1..] == todo[i + 1..] && todo[..i + 1] == todo[..i] + [todo[i]]
    ensures var before, tx := Collected(pending, todo[..i], valid), Find(pending, todo[i]);
            Collected(pending, todo[..i + 1], valid) == if tx.Some? && valid(tx.value) then before + [tx.value] else before
  {
    assert todo[..i + 1][..i] == todo[..i];
  }

  /** Taking the keys and reading the first `i` of them, as steps. */
  lemma {:induction false} CollectingIsSteps(env: Env, iter: IterateKeys, n: Node, count: nat, todo: seq<Key>, valid: Bytes -> bool, i: nat) returns (events: seq<Event>)
    requires n.mem.work.Idle? && i <= |todo| && todo == if count <= |n.mem.keys| then n.mem.keys[..count] else n.mem.keys
    ensures forall e :: e in events ==> e.Take? || e.ReadNext?
    ensures Steps(env, iter, n, events) == WithWork(n, Reading(todo[i..], Collected(n.disk.pending, todo[..i], valid), todo[..i]))
    decreases i
  {
    if i == 0 {
      events := [Take(count)];
      TakeIsStep(env, iter, n, count);
    } else {
      events := CollectingIsSteps(env, iter, n, count, todo, valid, i - 1);
      var k := todo[i - 1];
      var tx := Find(n.disk.pending, k);
      var ok := tx.Some? && valid(tx.value);
      ReadIsStep(env, iter, n, events, n, todo[i - 1..], Collected(n.disk.pending, todo[..i - 1], valid), todo[..i - 1], ok);
      CollectedNext(n.disk.pending, todo, valid, i - 1);
      events := events + [ReadNext(ok)];
    }
  }

  /** The header of a block, field by field. */
  ghost predicate HeaderIs(env: Env, metas: map<nat, Meta>, h: nat, time: nat, appHash: Bytes, b: Block) {
    && b.header.chainID == env.chainID && b.header.height == h && b.header.time == time
    && b.header.proposer == env.proposer && b.header.appHash == appHash && b.header.dataHash == env.dataHash(b.txs)
    && b.header.lastBlockHash == if h > 0 && h - 1 in metas then metas[h - 1].hash else []
  }

  /** A block that got through all its writes is stored as it was built, and committed. */
  lemma PersistStores(env: Env, n: Node, cleanup: bool)
    requires n.mem.work.Built? && n.mem.work.block.header.chainID == env.chainID && n.mem.work.block.header.height == n.mem.height
    ensures var n', b, h := Persist(env, n, NoFault, cleanup), n.mem.work.block, n.mem.height;
            && StoredAs(env, n'.disk, h, b) && n'.committed == n.committed[h := b]
            && n'.mem.keys == Without(n.mem.keys, n.mem.work.consumed)
            && n'.disk.pending == if cleanup then n.disk.pending - Deleted(n.mem.work.consumed) else n.disk.pending
  {
    var stored := DoWriteMeta(env, n, true);
    var complete := DoWriteTxs(stored, true);
    assert StoredAs(env, complete.disk, n.mem.height, n.mem.work.block);
  }

  class Vocone {
    const env: Env
    const iter: IterateKeys
    var disk: Disk
    var height: nat
    var current: nat
    var mempoolKeys: seq<Key>
    var mempoolSeq: nat
    ghost var work: Work
    ghost var committed: map<nat, Block>
    ghost var savedByBlock: bool
    ghost var sent: map<nat, Bytes>
    ghost var pruned: set<nat>
    ghost var consumedByBlock: set<nat>

    ghost function AsNode(): Node
      reads this
    {
      Node(disk, Memory(height, current, mempoolKeys, mempoolSeq, work), committed, savedByBlock, sent, pruned, consumedByBlock)
    }

    /** NewVocone on existing databases, which is also what a restart does. */
    constructor (env: Env, iter: IterateKeys, ghost before: Node, disk: Disk)
      requires before.disk == disk
      ensures this.env == env && this.iter == iter
      ensures AsNode() == Step(env, iter, before, Restart)
      ensures work.Idle? && this.disk == disk && height == RecoveredHeight(disk) && current == height
    {
      this.env, this.iter, this.disk := env, iter, disk;
      committed, savedByBlock, sent := before.committed, before.savedByBlock, before.sent;
      pruned, consumedByBlock, work := before.pruned, before.consumedByBlock, Idle;
      var next := disk.saved;
      if next in disk.metas {
        next := next + 1;
      }
      height, current := next, next;
      var keys, lastSeq := LoadMempool(disk, iter);
      mempoolKeys, mempoolSeq := keys, lastSeq;
    }

    method AddTx(tx: Bytes, valid: bool, stored: bool) returns (accepted: bool)
      modifies this
      ensures AsNode() == Step(env, iter, old(AsNode()), Event.AddTx(tx, valid, stored))
      ensures accepted <==> valid && stored && |old(mempoolKeys)| < MEMPOOL_SIZE
      ensures accepted ==>
                && disk == old(disk).(pending := old(disk.pending)[old(mempoolSeq) + 1 := tx], lastSeq := old(mempoolSeq) + 1)
                && mempoolKeys == old(mempoolKeys) + [Full(old(mempoolSeq) + 1)]
      ensures !accepted ==> disk == old(disk) && mempoolKeys == old(mempoolKeys)
    {
      if !valid || |mempoolKeys| >= MEMPOOL_SIZE {
        return false;
      }
      mempoolSeq := mempoolSeq + 1;
      if !stored {
        return false;
      }
      disk := disk.(pending := disk.pending[mempoolSeq := tx], lastSeq := mempoolSeq);
      sent := sent[mempoolSeq := tx];
      mempoolKeys := mempoolKeys + [Full(mempoolSeq)];
      return true;
    }

    /** Removes the first pending transaction that matches. */
    method MempoolPrune(matches: Bytes -> bool, stored: bool)
      modifies this
      ensures AsNode() == Step(env, iter, old(AsNode()), Prune(matches, stored))
      ensures var i := FirstMatch(old(disk.pending), old(mempoolKeys), matches);
              if i < |old(mempoolKeys)| && stored
              then disk.pending == old(disk.pending) - {old(mempoolKeys)[i].seqNo} && mempoolKeys == old(mempoolKeys)[..i] + old(mempoolKeys)[i + 1..]
              else disk == old(disk) && mempoolKeys == old(mempoolKeys)
    {
      for i := 0 to |mempoolKeys|
        invariant AsNode() == old(AsNode())
        invariant forall j :: 0 <= j < i ==> Find(disk.pending, mempoolKeys[j]).Some? ==> !matches(Find(disk.pending, mempoolKeys[j]).value)
      {
        var tx := Find(disk.pending, mempoolKeys[i]);
        if tx.Some? && matches(tx.value) {
          assert i == FirstMatch(disk.pending, mempoolKeys, matches);
          if stored {
            var s := mempoolKeys[i].seqNo;
            disk := disk.(pending := disk.pending - {s});
            mempoolKeys := mempoolKeys[..i] + mempoolKeys[i + 1..];
            pruned := pruned + {s};
          }
          return;
        }
      }
    }

    /** Takes up to `count` keys from the front and reads and checks their transactions; `events` are the
        steps that makes. */
    method PrepareBlock(count: nat, valid: Bytes -> bool)
      returns (txs: seq<Bytes>, consumed: seq<Key>, ghost events: seq<Event>, ghost places: seq<nat>)
      requires work.Idle?
      modifies this`work
      ensures work == Reading([], txs, consumed)
      ensures MadeOf(disk.pending, consumed, valid, places, txs)
      ensures consumed == if count <= |mempoolKeys| then mempoolKeys[..count] else mempoolKeys
      ensures forall e :: e in events ==> e.Take? || e.ReadNext?
      ensures AsNode() == Steps(env, iter, old(AsNode()), events)
    {
      var todo := if count <= |mempoolKeys| then mempoolKeys[..count] else mempoolKeys;
      txs, consumed := [], [];
      for i := 0 to |todo|
        invariant consumed == todo[..i] && txs == Collected(disk.pending, todo[..i], valid)
      {
        assert todo[..i + 1][..i] == todo[..i];
        var tx := Find(disk.pending, todo[i]);
        if tx.Some? && valid(tx.value) {
          txs := txs + [tx.value];
        }
        consumed := consumed + [todo[i]];
      }
      assert todo[..|todo|] == todo;
      places := CollectedIsMade(disk.pending, todo, valid);
      events := CollectingIsSteps(env, iter, AsNode(), count, todo, valid, |todo|);
      work := Reading([], txs, consumed);
    }

    /** Removes exactly the consumed keys from the index, whatever has been appended since. */
    method CleanupIndex(consumed: seq<Key>)
      modifies this`mempoolKeys
      ensures mempoolKeys == Without(old(mempoolKeys), consumed)
    {
      var gone := set k | k in consumed;
      var filtered := [];
      for i := 0 to |mempoolKeys|
        invariant mempoolKeys == old(mempoolKeys)
        invariant filtered == Without(mempoolKeys[..i], consumed)
      {
        assert mempoolKeys[..i + 1][..i] == mempoolKeys[..i];
        if mempoolKeys[i] !in gone {
          filtered := filtered + [mempoolKeys[i]];
        }
      }
      assert mempoolKeys[..|mempoolKeys|] == mempoolKeys;
      mempoolKeys := filtered;
    }

    /** Executes the transactions at the node's height and builds the block. */
    method ExecuteAndBuild(txs: seq<Bytes>, ghost consumed: seq<Key>, time: nat, appHash: Bytes, ok: bool) returns (b: Block)
      requires work == Reading([], txs, consumed)
      modifies this`current, this`work
      ensures AsNode() == DoExecute(env, old(AsNode()), ok, time, appHash)
      ensures b == BuildBlock(env, disk, height, time, txs, appHash) && (ok ==> work == Built(b, consumed))
    {
      current := height;
      b := BuildBlock(env, disk, height, time, txs, appHash);
      work := if ok then Built(b, consumed) else Idle;
    }

    method StoreBlockMeta(b: Block, ghost consumed: seq<Key>, ok: bool)
      requires work == Built(b, consumed)
      modifies this`disk, this`work
      ensures AsNode() == DoWriteMeta(env, old(AsNode()), ok)
    {
      if ok {
        disk := StoreMeta(disk, height, MetaOf(env, b));
      }
      work := if ok then MetaStored(b, consumed) else Idle;
    }

    method StoreBlockTxs(b: Block, ghost consumed: seq<Key>, ok: bool)
      requires work == MetaStored(b, consumed)
      modifies this`disk, this`work
      ensures AsNode() == DoWriteTxs(old(AsNode()), ok)
    {
      if ok {
        disk := StoreTxs(disk, height, b.txs);
      }
      work := if ok then TxsStored(b, consumed) else Idle;
    }

    method CommitState(ghost b: Block, ghost consumed: seq<Key>, ok: bool)
      requires work == TxsStored(b, consumed)
      modifies this`disk, this`work, this`committed, this`savedByBlock
      ensures AsNode() == DoSaveState(old(AsNode()), ok)
    {
      if ok {
        disk := disk.(saved := current);
        committed, savedByBlock := committed[height := b], true;
      }
      work := if ok then Saved(consumed) else Idle;
    }

    /** commitMempoolCleanup: the database first, then the index. */
    method CommitMempoolCleanup(consumed: seq<Key>, ok: bool)
      requires work == Saved(consumed)
      modifies this`disk, this`work, this`consumedByBlock, this`mempoolKeys, this`height
      ensures AsNode() == DoCleanIndex(DoCleanDatabase(old(AsNode()), ok))
    {
      if ok {
        disk := disk.(pending := disk.pending - Deleted(consumed));
        consumedByBlock := consumedByBlock + Deleted(consumed);
      }
      work := Cleaned(consumed);
      assert AsNode() == DoCleanDatabase(old(AsNode()), ok);
      CleanupIndex(consumed);
      height, work := height + 1, Idle;
    }

    /** The writes of a built block, in their fixed order. */
    method PersistBlock(b: Block, consumed: seq<Key>, fault: Fault, cleanup: bool) returns (ok: bool)
      requires work == Built(b, consumed) && !fault.ExecuteFails?
      modifies this
      ensures AsNode() == Persist(env, old(AsNode()), fault, cleanup)
      ensures ok && b.header.chainID == env.chainID && b.header.height == old(height) ==>
                && StoredAs(env, disk, old(height), b) && committed == old(committed)[old(height) := b]
                && mempoolKeys == Without(old(mempoolKeys), consumed)
                && disk.pending == if cleanup then old(disk.pending) - Deleted(consumed) else old(disk.pending)
      ensures !ok ==> committed == old(committed) && mempoolKeys == old(mempoolKeys) && disk.pending == old(disk.pending)
      ensures work.Idle? && (ok <==> fault.NoFault?) && height == if ok then old(height) + 1 else old(height)
    {
      if b.header.chainID == env.chainID && b.header.height == height {
        PersistStores(env, AsNode(), cleanup);
      }
      StoreBlockMeta(b, consumed, !fault.MetaFails?);
      if fault.MetaFails? {
        return false;
      }
      StoreBlockTxs(b, consumed, !fault.TxsFail?);
      if fault.TxsFail? {
        return false;
      }
      CommitState(b, consumed, !fault.SaveFails?);
      if fault.SaveFails? {
        return false;
      }
      CommitMempoolCleanup(consumed, cleanup);
      return true;
    }

    /** produceBlock. Whichever write fails, what has been done is a prefix of the steps of a block, and a
        crash at any point is a restart after such a prefix. It succeeds exactly when no write fails; only
        then the height advances. */
    method ProduceBlock(count: nat, valid: Bytes -> bool, time: nat, appHash: Bytes, fault: Fault, cleanup: bool)
      returns (ok: bool, ghost events: seq<Event>, ghost consumed: seq<Key>, ghost places: seq<nat>, ghost txs: seq<Bytes>)
      requires work.Idle?
      modifies this
      ensures consumed == if count <= |old(mempoolKeys)| then old(mempoolKeys)[..count] else old(mempoolKeys)
      ensures MadeOf(old(disk.pending), consumed, valid, places, txs)
      ensures ok ==>
                var b := GetBlock(env, disk, old(height));
                && b.txs == txs && HeaderIs(env, old(disk.metas), old(height), time, appHash, b)
                && committed == old(committed)[old(height) := b]
                && mempoolKeys == Without(old(mempoolKeys), consumed)
                && disk.pending == if cleanup then old(disk.pending) - Deleted(consumed) else old(disk.pending)
      ensures !ok ==> committed == old(committed) && mempoolKeys == old(mempoolKeys) && disk.pending == old(disk.pending)
      ensures work.Idle? && (ok <==> fault.NoFault?) && height == if ok then old(height) + 1 else old(height)
      ensures AsNode() == Steps(env, iter, old(AsNode()), events + ProductionSteps(fault, time, appHash, cleanup))
      ensures forall e :: e in events ==> e.Take? || e.ReadNext?
    {
      var taken, keys;
      taken, keys, events, places := PrepareBlock(count, valid);
      txs, consumed := taken, keys;
      StepsConcat(env, iter, old(AsNode()), events, ProductionSteps(fault, time, appHash, cleanup));
      ProductionIsSteps(env, iter, AsNode(), fault, time, appHash, cleanup);
      var b := ExecuteAndBuild(taken, keys, time, appHash, !fault.ExecuteFails?);
      if fault.ExecuteFails? {
        ok := false;
        return;
      }
      ok := PersistBlock(b, keys, fault, cleanup);
      if ok {
        StoredIsRead(env, disk, old(height), b);
      }
    }

    /** commit, outside a block. */
    method SaveOutside()
      requires work.Idle?
      modifies this
      ensures AsNode() == Step(env, iter, old(AsNode()), SaveOutsideBlock)
      ensures RecoveredHeight(disk) == if current in disk.metas then current + 1 else current
      ensures disk == old(disk).(saved := old(current)) && !savedByBlock
      ensures height == old(height) && current == old(current) && work == old(work)
    {
      disk := disk.(saved := current);
      savedByBlock := false;
    }

    /** getBlock reads exactly as many transactions as the metadata counts. */
    method ReadBlock(h: nat) returns (b: Block)
      ensures b == GetBlock(env, disk, h)
    {
      if h !in disk.metas {
        return Block(Header(env.chainID, h, 0, [], [], [], []), []);
      }
      var m := disk.metas[h];
      var txs := [];
      var i := 0;
      while i < m.txCount && (h, i) in disk.txs
        invariant i <= m.txCount
        invariant StoredTxs(disk, h, 0, m.txCount) == txs + StoredTxs(disk, h, i, m.txCount)
      {
        txs := txs + [disk.txs[(h, i)]];
        i := i + 1;
      }
      return Block(Header(env.chainID, h, m.time, m.proposer, m.stateRoot, m.lastBlockHash, m.dataHash), txs);
    }
  }

  lemma StartIsSteps(env: Env, iter: IterateKeys, n: Node)
    ensures Steps(env, iter, n, [Restart] + ([SaveOutsideBlock] + [])) == Step(env, iter, Step(env, iter, n, Restart), SaveOutsideBlock)
  {
    StepsCons(env, iter, n, Restart, [SaveOutsideBlock] + []);
    StepsCons(env, iter, Step(env, iter, n, Restart), SaveOutsideBlock, []);
  }

  /** Until the next save, a block of that height that gets stored makes recovery pass over it. */
  lemma StoredIsPassedOver(later: Disk, h: nat)
    requires later.saved == h
    ensures RecoveredHeight(later) == if h in later.metas then h + 1 else h
  {
  }

  /** NewVocone: recovery, and the save with which the key keeper is set. From then on a crash recovers at
      the height the node starts at, unless a block of that height gets stored: it is then passed over,
      whether it was committed or not. */
  method NewVocone(env: Env, iter: IterateKeys, ghost before: Node, disk: Disk) returns (vc: Vocone)
    requires before.disk == disk
    ensures fresh(vc) && vc.env == env && vc.iter == iter && vc.work.Idle?
    ensures vc.AsNode() == Steps(env, iter, before, [Restart] + ([SaveOutsideBlock] + []))
    ensures vc.height == RecoveredHeight(disk) && vc.disk.saved == vc.height && !vc.savedByBlock
    ensures RecoveredHeight(vc.disk) == if vc.height in vc.disk.metas then vc.height + 1 else vc.height
  {
    vc := new Vocone(env, iter, before, disk);
    StartIsSteps(env, iter, before);
    vc.SaveOutside();
  }

  /** loadMempool: the keys as iteration gives them, and the larger of the stored sequence number and the
      largest one seen. */
  method LoadMempool(disk: Disk, iter: IterateKeys) returns (keys: seq<Key>, lastSeq: nat)
    ensures keys == AsKeys(iter, PendingOrder(disk)) && lastSeq == RecoveredSeq(disk)
  {
    var order := PendingOrder(disk);
    ghost var all := AsKeys(iter, order);
    keys := [];
    var maxObserved := 0;
    for i := 0 to |order|
      invariant keys == all[..i]
      invariant maxObserved == if i == 0 then 0 else order[i - 1]
    {
      if order[i] > maxObserved {
        maxObserved := order[i];
      }
      keys := keys + [if iter.FullKeys? then Full(order[i]) else Stripped(order[i])];
    }
    assert all[..|order|] == all;
    lastSeq := if disk.lastSeq >= maxObserved then disk.lastSeq else maxObserved;
  }
}
