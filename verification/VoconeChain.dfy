/** Crash safety of the chain: what every run keeps, with a crash allowed between any two writes and
    any number of restarts. */
module VoconeChain {
  import opened Base
  import opened VoconeModel

  /** Headers of different heights have different, non-empty hashes. */
  ghost predicate GoodHashes(env: Env) {
    && (forall h: Header :: env.headerHash(h) != [])
    && (forall h: Header, g: Header {:trigger env.headerHash(h), env.headerHash(g)} :: env.headerHash(h) == env.headerHash(g) ==> h.height == g.height)
  }

  /** The block in production at the node's height, if it has been built. */
  function InProduction(w: Work): Option<Block> {
    match w
    case Built(b, _) => Some(b)
    case MetaStored(b, _) => Some(b)
    case TxsStored(b, _) => Some(b)
    case _ => None
  }

  /** The block is the header and transactions that the databases hold for its height. */
  ghost predicate StoredAs(env: Env, disk: Disk, height: nat, b: Block) {
    && height in disk.metas && disk.metas[height] == MetaOf(env, b)
    && b.header.chainID == env.chainID && b.header.height == height
    && (forall i :: 0 <= i < |b.txs| ==> (height, i) in disk.txs && disk.txs[(height, i)] == b.txs[i])
  }

  /** The stored heights are those below some bound. */
  ghost predicate Contiguous(disk: Disk, top: nat) {
    forall h: nat :: h in disk.metas <==> h < top
  }

  /** The header that stored metadata stands for. */
  function HeaderOf(env: Env, height: nat, m: Meta): Header {
    Header(env.chainID, height, m.time, m.proposer, m.stateRoot, m.lastBlockHash, m.dataHash)
  }

  /** Each block's hash is that of its header, and the header names the hash of the block before it. */
  ghost predicate Chained(env: Env, disk: Disk) {
    && (forall h: nat {:trigger HeaderOf(env, h, disk.metas[h])} :: h in disk.metas ==> disk.metas[h].hash == env.headerHash(HeaderOf(env, h, disk.metas[h])))
    && (forall h: nat {:trigger PreviousHash(disk, h)} :: h in disk.metas ==> disk.metas[h].lastBlockHash == PreviousHash(disk, h))
  }

  /** The hash index and the metadata are inverse of each other. */
  ghost predicate Indexed(disk: Disk) {
    && (forall x :: x in disk.index ==> disk.index[x] in disk.metas && disk.metas[disk.index[x]].hash == x)
    && (forall h: nat :: h in disk.metas ==> disk.metas[h].hash in disk.index && disk.index[disk.metas[h].hash] == h)
  }

  /** The heights below the one being worked on that were committed, and the ones that can be. */
  ghost predicate HeightsInv(n: Node, top: nat) {
    && Contiguous(n.disk, top)
    && n.disk.saved <= n.mem.height <= n.disk.saved + 1
    && n.mem.height <= top <= n.mem.height + 1
    && n.mem.current <= n.mem.height <= n.mem.current + 1
    && (n.mem.height < top ==> n.mem.current == n.mem.height)
    && (forall h :: h in n.committed ==> h < top && h <= n.disk.saved)
    && (forall h :: h in n.committed ==> h < n.mem.height || (h == n.mem.height && (n.mem.work.Saved? || n.mem.work.Cleaned?)))
    && (n.savedByBlock ==> n.disk.saved in n.committed)
    && (!n.mem.work.Idle? && !n.mem.work.Reading? ==> n.mem.current == n.mem.height)
    && (n.mem.work.MetaStored? || n.mem.work.TxsStored? || n.mem.work.Saved? || n.mem.work.Cleaned? ==> top == n.mem.height + 1)
    && (n.mem.work.Saved? || n.mem.work.Cleaned? ==> n.mem.height in n.committed)
  }

  /** The block in production is the one the databases are being given. */
  ghost predicate ProductionInv(env: Env, n: Node) {
    && (InProduction(n.mem.work).Some? ==>
          var b := InProduction(n.mem.work).value;
          && b.header.chainID == env.chainID && b.header.height == n.mem.height
          && b.header.lastBlockHash == PreviousHash(n.disk, n.mem.height))
    && (n.mem.work.MetaStored? || n.mem.work.TxsStored? ==> n.mem.height in n.disk.metas && n.disk.metas[n.mem.height] == MetaOf(env, n.mem.work.block))
    && (n.mem.work.TxsStored? ==> StoredAs(env, n.disk, n.mem.height, n.mem.work.block))
  }

  /** The block store is a chain and its index is right. */
  ghost predicate StoreInv(env: Env, disk: Disk, top: nat) {
    Contiguous(disk, top) && Chained(env, disk) && Indexed(disk)
  }

  /** The committed blocks are stored. */
  ghost predicate CommittedStored(env: Env, n: Node) {
    forall h :: h in n.committed ==> StoredAs(env, n.disk, h, n.committed[h])
  }

  ghost predicate ChainInv(env: Env, n: Node, top: nat) {
    HeightsInv(n, top) && ProductionInv(env, n) && StoreInv(env, n.disk, top) && CommittedStored(env, n)
  }

  // ---------------------------------------------------------------- the writing steps

  lemma StoreMetaChains(env: Env, disk: Disk, height: nat, b: Block, top: nat)
    requires StoreInv(env, disk, top)
    requires height <= top <= height + 1 && b.header.height == height && b.header.chainID == env.chainID
    requires b.header.lastBlockHash == PreviousHash(disk, height)
    ensures var disk' := StoreMeta(disk, height, MetaOf(env, b));
            Contiguous(disk', height + 1) && Chained(env, disk') && PreviousHash(disk', height) == PreviousHash(disk, height)
  {
    var disk' := StoreMeta(disk, height, MetaOf(env, b));
    assert HeaderOf(env, height, MetaOf(env, b)) == b.header;
    forall h: nat | h in disk'.metas
      ensures disk'.metas[h].lastBlockHash == PreviousHash(disk', h)
      ensures disk'.metas[h].hash == env.headerHash(HeaderOf(env, h, disk'.metas[h])) {
      assert h <= height;
      assert PreviousHash(disk', h) == PreviousHash(disk, h);
      if h != height {
        assert disk.metas[h].hash == env.headerHash(HeaderOf(env, h, disk.metas[h]));
      }
    }
  }

  /** Another height does not have the hash of a header of this one. */
  lemma OtherHash(env: Env, disk: Disk, h: nat, g: Header)
    requires GoodHashes(env) && Chained(env, disk) && h in disk.metas && h != g.height
    ensures disk.metas[h].hash != env.headerHash(g)
  {
    assert HeaderOf(env, h, disk.metas[h]).height == h;
  }

  lemma StoreMetaIndexes(env: Env, disk: Disk, height: nat, b: Block, top: nat)
    requires GoodHashes(env) && StoreInv(env, disk, top)
    requires b.header.height == height
    ensures Indexed(StoreMeta(disk, height, MetaOf(env, b)))
  {
    var m := MetaOf(env, b);
    var disk' := StoreMeta(disk, height, m);
    assert m.hash == env.headerHash(b.header) && m.hash != [];
    assert height in disk.metas ==> disk.metas[height].hash == env.headerHash(HeaderOf(env, height, disk.metas[height]));
    forall h: nat | h in disk'.metas ensures disk'.metas[h].hash in disk'.index && disk'.index[disk'.metas[h].hash] == h {
      if h != height {
        OtherHash(env, disk, h, b.header);
        if height in disk.metas {
          OtherHash(env, disk, h, HeaderOf(env, height, disk.metas[height]));
        }
      }
    }
    forall x | x in disk'.index ensures disk'.index[x] in disk'.metas && disk'.metas[disk'.index[x]].hash == x {
      if x != m.hash {
        assert x in disk.index && disk'.index[x] == disk.index[x];
      }
    }
  }

  // ---------------------------------------------------------------- every step

  /** The number of stored blocks after a step. */
  function TopAfter(n: Node, e: Event, top: nat): nat {
    if e.WriteMeta? && e.succeeds && n.mem.work.Built? then n.mem.height + 1 else top
  }

  lemma StepKeepsStore(env: Env, iter: IterateKeys, n: Node, e: Event, top: nat)
    requires GoodHashes(env) && HeightsInv(n, top) && ProductionInv(env, n) && StoreInv(env, n.disk, top)
    ensures StoreInv(env, Step(env, iter, n, e).disk, TopAfter(n, e, top))
  {
    if e.WriteMeta? && e.succeeds && n.mem.work.Built? {
      StoreMetaChains(env, n.disk, n.mem.height, n.mem.work.block, top);
      StoreMetaIndexes(env, n.disk, n.mem.height, n.mem.work.block, top);
    } else {
      SameStore(env, iter, n, e, top);
    }
  }

  /** Only the writing of metadata changes the metadata. */
  lemma SameMetas(env: Env, iter: IterateKeys, n: Node, e: Event)
    requires !(e.WriteMeta? && e.succeeds && n.mem.work.Built?)
    ensures Step(env, iter, n, e).disk.metas == n.disk.metas && Step(env, iter, n, e).disk.index == n.disk.index
  {
  }

  lemma SameStore(env: Env, iter: IterateKeys, n: Node, e: Event, top: nat)
    requires !(e.WriteMeta? && e.succeeds && n.mem.work.Built?) && StoreInv(env, n.disk, top)
    ensures StoreInv(env, Step(env, iter, n, e).disk, top)
  {
    SameMetas(env, iter, n, e);
    var disk, disk' := n.disk, Step(env, iter, n, e).disk;
    assert forall h: nat :: PreviousHash(disk', h) == PreviousHash(disk, h);
  }

  lemma WriteMetaKeepsHeights(env: Env, n: Node, top: nat)
    requires HeightsInv(n, top) && n.mem.work.Built?
    ensures HeightsInv(DoWriteMeta(env, n, true), n.mem.height + 1)
  {
    assert DoWriteMeta(env, n, true).disk.metas.Keys == n.disk.metas.Keys + {n.mem.height};
  }

  lemma MempoolKeepsHeights(env: Env, iter: IterateKeys, n: Node, e: Event, top: nat)
    requires HeightsInv(n, top) && (e.AddTx? || e.Prune? || e.Take? || e.ReadNext? || e.CleanDatabase?)
    ensures HeightsInv(Step(env, iter, n, e), top)
  {
  }

  lemma BlockKeepsHeights(env: Env, iter: IterateKeys, n: Node, e: Event, top: nat)
    requires HeightsInv(n, top) && (e.Execute? || e.WriteTxs? || e.SaveState? || e.CleanIndex?)
    ensures HeightsInv(Step(env, iter, n, e), top)
  {
  }

  lemma StepKeepsHeights(env: Env, iter: IterateKeys, n: Node, e: Event, top: nat)
    requires HeightsInv(n, top)
    ensures HeightsInv(Step(env, iter, n, e), TopAfter(n, e, top))
  {
    if e.AddTx? || e.Prune? || e.Take? || e.ReadNext? || e.CleanDatabase? {
      MempoolKeepsHeights(env, iter, n, e, top);
    } else if e.Execute? || e.WriteTxs? || e.SaveState? || e.CleanIndex? {
      BlockKeepsHeights(env, iter, n, e, top);
    } else if e.WriteMeta? && e.succeeds && n.mem.work.Built? {
      WriteMetaKeepsHeights(env, n, top);
    }
  }

  lemma WriteMetaKeepsProduction(env: Env, n: Node, top: nat)
    requires ProductionInv(env, n) && HeightsInv(n, top) && StoreInv(env, n.disk, top) && n.mem.work.Built?
    ensures ProductionInv(env, DoWriteMeta(env, n, true))
  {
    StoreMetaChains(env, n.disk, n.mem.height, n.mem.work.block, top);
  }

  lemma StepKeepsProduction(env: Env, iter: IterateKeys, n: Node, e: Event)
    requires ProductionInv(env, n) && !(e.WriteMeta? && e.succeeds && n.mem.work.Built?)
    ensures ProductionInv(env, Step(env, iter, n, e))
  {
    SameMetas(env, iter, n, e);
    assert PreviousHash(Step(env, iter, n, e).disk, n.mem.height) == PreviousHash(n.disk, n.mem.height);
    if e.AddTx? || e.Prune? {
      MempoolLeavesBlocks(env, iter, n, e);
    }
  }

  /** The mempool has nothing to do with the blocks. */
  lemma MempoolLeavesBlocks(env: Env, iter: IterateKeys, n: Node, e: Event)
    requires e.AddTx? || e.Prune?
    ensures var n' := Step(env, iter, n, e);
            n'.disk.metas == n.disk.metas && n'.disk.txs == n.disk.txs && n'.mem.work == n.mem.work && n'.mem.height == n.mem.height
  {
  }

  /** Only one step writes transactions. */
  lemma SameTxs(env: Env, iter: IterateKeys, n: Node, e: Event)
    requires !e.WriteTxs?
    ensures Step(env, iter, n, e).disk.txs == n.disk.txs
  {
  }

  /** A step writes metadata and transactions only at the node's height. */
  lemma WritesAtHeight(env: Env, iter: IterateKeys, n: Node, e: Event, h: nat)
    requires h != n.mem.height && h in n.disk.metas
    ensures var disk' := Step(env, iter, n, e).disk;
            && h in disk'.metas && disk'.metas[h] == n.disk.metas[h]
            && (forall i :: (h, i) in n.disk.txs ==> (h, i) in disk'.txs && disk'.txs[(h, i)] == n.disk.txs[(h, i)])
  {
    if e.WriteTxs? {
      SameMetas(env, iter, n, e);
    } else {
      SameTxs(env, iter, n, e);
      if !(e.WriteMeta? && e.succeeds && n.mem.work.Built?) {
        SameMetas(env, iter, n, e);
      }
    }
  }

  /** Once a block is committed, no step writes at its height. */
  lemma CommittedNotWritten(env: Env, iter: IterateKeys, n: Node, e: Event, top: nat, h: nat)
    requires HeightsInv(n, top) && h in n.committed && StoredAs(env, n.disk, h, n.committed[h])
    ensures var n' := Step(env, iter, n, e); h in n'.committed && n'.committed[h] == n.committed[h] && StoredAs(env, n'.disk, h, n.committed[h])
  {
    if h != n.mem.height {
      WritesAtHeight(env, iter, n, e, h);
    }
  }

  lemma StepKeepsCommitted(env: Env, iter: IterateKeys, n: Node, e: Event, top: nat)
    requires HeightsInv(n, top) && ProductionInv(env, n) && CommittedStored(env, n)
    ensures CommittedStored(env, Step(env, iter, n, e))
  {
    var n' := Step(env, iter, n, e);
    forall h | h in n'.committed ensures StoredAs(env, n'.disk, h, n'.committed[h]) {
      if h in n.committed {
        CommittedNotWritten(env, iter, n, e, top, h);
      }
    }
  }

  lemma StepKeepsChain(env: Env, iter: IterateKeys, n: Node, e: Event, top: nat)
    requires GoodHashes(env) && ChainInv(env, n, top)
    ensures ChainInv(env, Step(env, iter, n, e), TopAfter(n, e, top))
  {
    StepKeepsHeights(env, iter, n, e, top);
    if e.WriteMeta? && e.succeeds && n.mem.work.Built? {
      WriteMetaKeepsProduction(env, n, top);
    } else {
      StepKeepsProduction(env, iter, n, e);
    }
    StepKeepsStore(env, iter, n, e, top);
    StepKeepsCommitted(env, iter, n, e, top);
  }

  lemma {:induction false} RunKeepsChain(env: Env, iter: IterateKeys, events: seq<Event>) returns (top: nat)
    requires GoodHashes(env)
    ensures ChainInv(env, Run(env, iter, events), top)
    decreases |events|
  {
    if events == [] {
      top := 0;
    } else {
      var init, e := events[..|events| - 1], events[|events| - 1];
      var before := RunKeepsChain(env, iter, init);
      StepKeepsChain(env, iter, Run(env, iter, init), e, before);
      top := TopAfter(Run(env, iter, init), e, before);
    }
  }

  // ---------------------------------------------------------------- what follows for every run

  /** In every reachable state the stored heights are contiguous from 0, each block names the hash of
      its predecessor and carries the hash of its own header, the hash index is the inverse of the
      metadata, and the height being worked on is the top one or the next. */
  lemma ChainIsSound(env: Env, iter: IterateKeys, events: seq<Event>) returns (top: nat)
    requires GoodHashes(env)
    ensures var n := Run(env, iter, events);
            && (forall h: nat :: h in n.disk.metas <==> h < top)
            && (forall h: nat :: 0 < h < top ==> n.disk.metas[h].lastBlockHash == n.disk.metas[h - 1].hash)
            && (forall h: nat :: h < top ==> n.disk.metas[h].hash == env.headerHash(GetBlock(env, n.disk, h).header))
            && (forall x: Bytes, h: nat {:trigger Lookup(n.disk.index, x), h in n.disk.metas} ::
                  Lookup(n.disk.index, x) == Some(h) <==> h in n.disk.metas && n.disk.metas[h].hash == x)
            && n.mem.height <= top <= n.mem.height + 1
  {
    top := RunKeepsChain(env, iter, events);
    var n := Run(env, iter, events);
    forall h: nat | 0 < h < top ensures n.disk.metas[h].lastBlockHash == n.disk.metas[h - 1].hash {
      assert n.disk.metas[h].lastBlockHash == PreviousHash(n.disk, h);
    }
    forall h: nat | h < top ensures n.disk.metas[h].hash == env.headerHash(GetBlock(env, n.disk, h).header) {
      assert HeaderOf(env, h, n.disk.metas[h]) == GetBlock(env, n.disk, h).header;
    }
  }

  /** Reading back a block of which header and transactions are stored. */
  lemma {:induction false} StoredTxsAreRead(disk: Disk, height: nat, txs: seq<Bytes>, from: nat)
    requires from <= |txs|
    requires forall i :: 0 <= i < |txs| ==> (height, i) in disk.txs && disk.txs[(height, i)] == txs[i]
    ensures StoredTxs(disk, height, from, |txs|) == txs[from..]
    decreases |txs| - from
  {
    if from < |txs| {
      StoredTxsAreRead(disk, height, txs, from + 1);
      assert txs[from..] == [txs[from]] + txs[from + 1..];
    }
  }

  lemma StoredIsRead(env: Env, disk: Disk, height: nat, b: Block)
    requires StoredAs(env, disk, height, b)
    ensures GetBlock(env, disk, height) == b
  {
    StoredTxsAreRead(disk, height, b.txs, 0);
    assert b.txs[0..] == b.txs;
  }

  lemma CommittedOneMore(env: Env, iter: IterateKeys, events: seq<Event>, e: Event, h: nat)
    requires GoodHashes(env) && h in Run(env, iter, events).committed
    ensures h in Run(env, iter, events + [e]).committed
    ensures Run(env, iter, events + [e]).committed[h] == Run(env, iter, events).committed[h]
  {
    var top := RunKeepsChain(env, iter, events);
    StepsAppend(env, iter, NewNode(iter), events, e);
    CommittedNotWritten(env, iter, Run(env, iter, events), e, top, h);
  }

  lemma {:induction false} CommittedForever(env: Env, iter: IterateKeys, events: seq<Event>, more: seq<Event>, h: nat)
    requires GoodHashes(env) && h in Run(env, iter, events).committed
    ensures h in Run(env, iter, events + more).committed
    ensures Run(env, iter, events + more).committed[h] == Run(env, iter, events).committed[h]
    decreases |more|
  {
    if more == [] {
      assert events + more == events;
    } else {
      var init, e := more[..|more| - 1], more[|more| - 1];
      CommittedForever(env, iter, events, init, h);
      assert events + more == (events + init) + [e];
      CommittedOneMore(env, iter, events + init, e, h);
    }
  }

  /** Crash safety: a block whose state was committed stays what it is through everything that happens
      afterwards, crashes and restarts included. It is read back as it was built, by height and by hash,
      whatever transactions of failed attempts lie around; and the node is past its height, so it is
      neither executed nor written again. */
  lemma CommittedBlocksAreFinal(env: Env, iter: IterateKeys, events: seq<Event>, more: seq<Event>, h: nat)
    requires GoodHashes(env) && h in Run(env, iter, events).committed
    ensures var b, n := Run(env, iter, events).committed[h], Run(env, iter, events + more);
            && GetBlock(env, n.disk, h) == b
            && GetBlockByHash(env, n.disk, env.headerHash(b.header)) == Some(b)
            && (h < n.mem.height || (h == n.mem.height && (n.mem.work.Saved? || n.mem.work.Cleaned?)))
            && h < RecoveredHeight(n.disk)
  {
    CommittedForever(env, iter, events, more, h);
    var n := Run(env, iter, events + more);
    var top := RunKeepsChain(env, iter, events + more);
    assert StoredAs(env, n.disk, h, n.committed[h]);
    StoredIsRead(env, n.disk, h, n.committed[h]);
  }

  /** Where recovery starts: at the height the node was at, or one above it; the latter exactly when
      the last save was at that height and its block is stored. For a committed block that is right. A
      block that is stored and not committed is passed over exactly when, moreover, the last save was
      made outside a block, which is a save at the height in production. */
  lemma RecoveryExactly(env: Env, iter: IterateKeys, events: seq<Event>)
    requires GoodHashes(env)
    ensures var n := Run(env, iter, events);
            var h := n.mem.height;
            && (RecoveredHeight(n.disk) == h || RecoveredHeight(n.disk) == h + 1)
            && (h in n.committed ==> RecoveredHeight(n.disk) == h + 1)
            && (h !in n.committed ==>
                  (RecoveredHeight(n.disk) == h + 1 <==> h in n.disk.metas && n.disk.saved == h && !n.savedByBlock))
  {
    var top := RunKeepsChain(env, iter, events);
  }

  /** The failing case, for every environment: the key keeper is set at start, which saves the state at
      height 0, block 0 is executed and its metadata stored, and the process crashes. The restarted node
      goes on at height 1, and block 0 stays in the chain although its state was never committed. */
  lemma UncommittedBlockPassedOver(env: Env, iter: IterateKeys, time: nat, appHash: Bytes)
    ensures var n := Run(env, iter, [SaveOutsideBlock, Take(500), Execute(true, time, appHash), WriteMeta(true), Restart]);
            n.mem.height == 1 && 0 in n.disk.metas && n.committed == map[]
  {
    var execute := Execute(true, time, appHash);
    var es3 := [SaveOutsideBlock, Take(500), execute];
    var es4 := es3 + [WriteMeta(true)];
    FirstBlockBuilt(env, iter, time, appHash);
    StepsAppend(env, iter, NewNode(iter), es3, WriteMeta(true));
    StepsAppend(env, iter, NewNode(iter), es4, Restart);
    assert es4 + [Restart] == [SaveOutsideBlock, Take(500), execute, WriteMeta(true), Restart];
  }

  lemma FirstBlockBuilt(env: Env, iter: IterateKeys, time: nat, appHash: Bytes)
    ensures var n := Run(env, iter, [SaveOutsideBlock, Take(500), Execute(true, time, appHash)]);
            n.disk == EMPTY_DISK && n.committed == map[] && n.mem.height == 0 && n.mem.work.Built?
  {
    var start := NewNode(iter);
    assert forall k: nat :: k !in PendingOrder(EMPTY_DISK);
    assert start.mem.keys == [] && start.mem.work.Idle?;
    var es1, execute := [] + [SaveOutsideBlock], Execute(true, time, appHash);
    var es2 := es1 + [Take(500)];
    StepsAppend(env, iter, NewNode(iter), [], SaveOutsideBlock);
    StepsAppend(env, iter, NewNode(iter), es1, Take(500));
    StepsAppend(env, iter, NewNode(iter), es2, execute);
    assert es2 + [execute] == [SaveOutsideBlock, Take(500), execute];
  }
}
