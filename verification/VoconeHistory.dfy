/** What became of a transaction, over whole runs: how it left the mempool, and what a restart does to it
    when the database iterates without prefixes. */
module VoconeHistory {
  import opened Base
  import opened VoconeModel
  import opened VoconeChain
  import opened VoconeMempool

  // ---------------------------------------------------------------- how transactions leave

  lemma {:induction false} RunKeepsHeights(env: Env, iter: IterateKeys, events: seq<Event>) returns (top: nat)
    ensures HeightsInv(Run(env, iter, events), top)
    decreases |events|
  {
    if events == [] {
      top := 0;
    } else {
      var init, e := events[..|events| - 1], events[|events| - 1];
      var before := RunKeepsHeights(env, iter, init);
      StepKeepsHeights(env, iter, Run(env, iter, init), e, before);
      top := TopAfter(Run(env, iter, init), e, before);
    }
  }

  /** A pruned transaction is on record, and stays there. */
  lemma PrunedIsRecorded(env: Env, iter: IterateKeys, n: Node, e: Event, s: nat)
    ensures s in n.pruned ==> s in Step(env, iter, n, e).pruned
    ensures e.Prune? && s in n.disk.pending && s !in Step(env, iter, n, e).disk.pending ==> s in Step(env, iter, n, e).pruned
  {
  }

  lemma AcceptedIsPending(env: Env, iter: IterateKeys, n: Node, e: Event, s: nat)
    requires s !in n.sent && s in Step(env, iter, n, e).sent
    ensures s in Step(env, iter, n, e).disk.pending
  {
  }

  /** Every accepted transaction that is neither pending nor pruned left through a block: at some earlier
      point of the run, production held its key, its block's state had just been saved, and the block of
      that height was committed. */
  lemma {:induction false} LeftThroughBlock(env: Env, iter: IterateKeys, events: seq<Event>, s: nat) returns (i: nat)
    requires var n := Run(env, iter, events); s in n.sent && s !in n.disk.pending && s !in n.pruned
    ensures i < |events|
    ensures var n := Run(env, iter, events[..i]);
            n.mem.work.Saved? && Full(s) in n.mem.work.consumed && n.mem.height in n.committed && s in n.disk.pending
    decreases |events|
  {
    assert events == [] ==> Run(env, iter, events).sent == map[];
    if events != [] {
      var init, e := events[..|events| - 1], events[|events| - 1];
      var n := Run(env, iter, init);
      PrunedIsRecorded(env, iter, n, e, s);
      if s in n.disk.pending {
        var top := RunKeepsHeights(env, iter, init);
        LeavesOnlyWhenDone(env, iter, n, e, top, s);
        i := |init|;
      } else if s in n.sent {
        i := LeftThroughBlock(env, iter, init, s);
        assert init[..i] == events[..i];
      } else {
        AcceptedIsPending(env, iter, n, e, s);
      }
    }
  }

  // ---------------------------------------------------------------- restarts without prefixes

  /** The transaction is in the database, and no key that the node holds can read or delete it. */
  ghost predicate Stuck(n: Node, s: nat, tx: Bytes) {
    && s in n.disk.pending && n.disk.pending[s] == tx
    && s <= n.mem.lastSeq && s <= n.disk.lastSeq
    && Full(s) !in n.mem.keys && Full(s) !in WorkKeys(n.mem.work)
  }

  lemma RestartSticks(n: Node, s: nat)
    requires s in n.disk.pending && s <= n.disk.lastSeq
    ensures Stuck(n.(mem := Recover(n.disk, StrippedKeys)), s, n.disk.pending[s])
  {
  }

  lemma AddKeepsStuck(n: Node, tx': Bytes, valid: bool, stored: bool, s: nat, tx: Bytes)
    requires Stuck(n, s, tx)
    ensures Stuck(DoAddTx(n, tx', valid, stored), s, tx)
  {
  }

  lemma PruneKeepsStuck(n: Node, matches: Bytes -> bool, stored: bool, s: nat, tx: Bytes)
    requires Stuck(n, s, tx)
    ensures Stuck(DoPrune(n, matches, stored), s, tx)
  {
    var i := FirstMatch(n.disk.pending, n.mem.keys, matches);
    if i < |n.mem.keys| {
      assert n.mem.keys[i] in n.mem.keys;
    }
  }

  lemma ReadingKeepsStuck(n: Node, count: nat, valid: bool, s: nat, tx: Bytes)
    requires Stuck(n, s, tx)
    ensures Stuck(DoTake(n, count), s, tx) && Stuck(DoReadNext(n, valid), s, tx)
  {
    if n.mem.work.Reading? && n.mem.work.todo != [] {
      var w := n.mem.work;
      assert w.todo[0] in WorkKeys(w);
      forall k | k in w.todo[1..] + (w.consumed + [w.todo[0]]) ensures k in WorkKeys(w) {}
    }
  }

  lemma BlockKeepsStuck(env: Env, n: Node, e: Event, s: nat, tx: Bytes)
    requires Stuck(n, s, tx)
    requires e.Execute? || e.WriteMeta? || e.WriteTxs? || e.SaveState? || e.CleanIndex? || e.SaveOutsideBlock?
    ensures Stuck(Step(env, StrippedKeys, n, e), s, tx)
  {
    if e.Execute? {
      ExecuteLeavesMempool(env, n, e.succeeds, e.time, e.appHash);
    } else {
      WritesLeaveMempool(env, StrippedKeys, n, e);
    }
  }

  lemma StepKeepsStuck(env: Env, n: Node, e: Event, s: nat, tx: Bytes)
    requires Stuck(n, s, tx)
    ensures Stuck(Step(env, StrippedKeys, n, e), s, tx)
  {
    match e
    case AddTx(tx', valid, stored) => AddKeepsStuck(n, tx', valid, stored, s, tx);
    case Prune(matches, stored) => PruneKeepsStuck(n, matches, stored, s, tx);
    case Take(count) => ReadingKeepsStuck(n, count, true, s, tx);
    case ReadNext(valid) => ReadingKeepsStuck(n, 0, valid, s, tx);
    case CleanDatabase(succeeds) =>
    case Restart => RestartSticks(n, s);
    case _ => BlockKeepsStuck(env, n, e, s, tx);
  }

  lemma {:induction false} StepsKeepStuck(env: Env, n: Node, events: seq<Event>, s: nat, tx: Bytes)
    requires Stuck(n, s, tx)
    ensures Stuck(Steps(env, StrippedKeys, n, events), s, tx)
    decreases |events|
  {
    if events != [] {
      var init := events[..|events| - 1];
      StepsKeepStuck(env, n, init, s, tx);
      StepKeepsStuck(env, Steps(env, StrippedKeys, n, init), events[|events| - 1], s, tx);
    }
  }

  lemma {:induction false} StepsSplit(env: Env, iter: IterateKeys, n: Node, events: seq<Event>, i: nat)
    requires i <= |events|
    ensures Steps(env, iter, n, events) == Steps(env, iter, Steps(env, iter, n, events[..i]), events[i..])
    decreases |events|
  {
    if i == |events| {
      assert events[..i] == events;
    } else {
      var init, e := events[..|events| - 1], events[|events| - 1];
      StepsSplit(env, iter, n, init, i);
      assert init[..i] == events[..i] && events[i..] == init[i..] + [e];
      StepsAppend(env, iter, Steps(env, iter, n, events[..i]), init[i..], e);
    }
  }

  /** With keys stripped of their prefix, a transaction that is pending at a restart stays in the database
      for ever, through all that follows: no key of the node reads it, so it enters no block, no block
      consumes it, and it cannot be pruned. */
  lemma PendingAtRestartIsStuck(env: Env, events: seq<Event>, i: nat, s: nat)
    requires i < |events| && events[i].Restart? && s in Run(env, StrippedKeys, events[..i]).disk.pending
    ensures var n := Run(env, StrippedKeys, events);
            && Stuck(n, s, Run(env, StrippedKeys, events[..i]).disk.pending[s])
            && (forall k :: k in n.mem.keys || k in WorkKeys(n.mem.work) ==> k.seqNo == s ==> Find(n.disk.pending, k).None?)
            && s !in n.pruned && s !in n.consumedByBlock
  {
    StuckAfterRestart(env, events, i, s);
    StepsSplit(env, StrippedKeys, NewNode(StrippedKeys), events, i + 1);
    StepsKeepStuck(env, Run(env, StrippedKeys, events[..i + 1]), events[i + 1..], s, Run(env, StrippedKeys, events[..i]).disk.pending[s]);
    RunKeepsAccount(env, StrippedKeys, events);
  }

  lemma StuckAfterRestart(env: Env, events: seq<Event>, i: nat, s: nat)
    requires i < |events| && events[i].Restart? && s in Run(env, StrippedKeys, events[..i]).disk.pending
    ensures Stuck(Run(env, StrippedKeys, events[..i + 1]), s, Run(env, StrippedKeys, events[..i]).disk.pending[s])
  {
    RunKeepsAccount(env, StrippedKeys, events[..i]);
    RestartSticks(Run(env, StrippedKeys, events[..i]), s);
    assert events[..i + 1] == events[..i] + [events[i]];
    StepsAppend(env, StrippedKeys, NewNode(StrippedKeys), events[..i], events[i]);
  }

  /** Every restart of the run finds an empty mempool. */
  ghost predicate RestartsFindNothing(env: Env, events: seq<Event>) {
    forall i :: 0 <= i < |events| && events[i].Restart? ==> Run(env, StrippedKeys, events[..i]).disk.pending == map[]
  }

  lemma RecoveredEmpty(disk: Disk)
    requires disk.pending == map[]
    ensures Recover(disk, StrippedKeys) == Recover(disk, FullKeys)
  {
    var order := PendingOrder(disk);
    FirstIsIn(order);
  }

  lemma FirstIsIn(order: seq<nat>)
    ensures order == [] || exists k :: k in order
  {
    if order != [] {
      assert order[0] in order;
    }
  }

  /** Up to a restart that finds something, both kinds of iteration give the same run. */
  lemma {:induction false} SameUntilRestart(env: Env, events: seq<Event>)
    requires RestartsFindNothing(env, events)
    ensures Run(env, StrippedKeys, events) == Run(env, FullKeys, events)
    decreases |events|
  {
    if events == [] {
      RecoveredEmpty(EMPTY_DISK);
    } else {
      var init, e := events[..|events| - 1], events[|events| - 1];
      forall i | 0 <= i < |init| && init[i].Restart? ensures Run(env, StrippedKeys, init[..i]).disk.pending == map[] {
        assert init[..i] == events[..i] && events[i].Restart?;
      }
      SameUntilRestart(env, init);
      if e.Restart? {
        RecoveredEmpty(Run(env, StrippedKeys, init).disk);
      }
    }
  }

  /** Queue agrees with database, for the iteration that Pebble has: with accepted cleanups and no cleanup
      under way, the index is the list of stored keys if and only if every restart so far found an empty
      mempool. */
  lemma StrippedQueueAgreesExactly(env: Env, events: seq<Event>)
    requires CleanDatabase(false) !in events
    requires !Run(env, StrippedKeys, events).mem.work.Cleaned?
    ensures var n := Run(env, StrippedKeys, events);
            n.mem.keys == AsKeys(FullKeys, PendingOrder(n.disk)) <==> RestartsFindNothing(env, events)
  {
    var n := Run(env, StrippedKeys, events);
    if RestartsFindNothing(env, events) {
      SameUntilRestart(env, events);
      QueueAgreesWithDatabase(env, events);
    } else {
      var i :| 0 <= i < |events| && events[i].Restart? && Run(env, StrippedKeys, events[..i]).disk.pending != map[];
      var s :| s in Run(env, StrippedKeys, events[..i]).disk.pending;
      PendingAtRestartIsStuck(env, events, i, s);
      RecoveredHas(n.disk, s);
    }
  }

  lemma RecoveredHas(disk: Disk, s: nat)
    requires s in disk.pending
    ensures Full(s) in AsKeys(FullKeys, PendingOrder(disk))
  {
    var order := PendingOrder(disk);
    assert s in order;
    var i :| 0 <= i < |order| && order[i] == s;
    assert AsKeys(FullKeys, order)[i] == Full(s);
  }
}
