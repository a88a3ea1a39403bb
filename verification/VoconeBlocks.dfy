/** What the committed blocks are made of, over whole runs: each was built by an execution at its height, its
    transactions were read from the mempool and found valid, and what a block consumed is in it or was gone
    or invalid when it was read. */
module VoconeBlocks {
  import opened Base
  import opened VoconeModel
  import opened VoconeChain
  import opened VoconeMempool
  import opened VoconeHistory
  import opened VoconeNode

  // ---------------------------------------------------------------- headers

  /** The block is what an execution makes of the transactions read: its header field by field. */
  ghost predicate BuiltBy(env: Env, n: Node, e: Event, b: Block) {
    && e.Execute? && e.succeeds && n.mem.work.Reading? && n.mem.work.todo == []
    && b.txs == n.mem.work.txs && HeaderIs(env, n.disk.metas, n.mem.height, e.time, e.appHash, b)
  }

  lemma ProductionAfter(env: Env, iter: IterateKeys, n: Node, e: Event)
    ensures var n' := Step(env, iter, n, e);
            InProduction(n'.mem.work).Some? ==>
              && n'.mem.height == n.mem.height
              && (BuiltBy(env, n, e, InProduction(n'.mem.work).value) || InProduction(n'.mem.work) == InProduction(n.mem.work))
  {
  }

  lemma CommittedAfter(env: Env, iter: IterateKeys, n: Node, e: Event, h: nat)
    requires h in Step(env, iter, n, e).committed
    ensures || (h in n.committed && Step(env, iter, n, e).committed[h] == n.committed[h])
            || (h == n.mem.height && InProduction(n.mem.work) == Some(Step(env, iter, n, e).committed[h]))
  {
  }

  ghost predicate BuiltAt(env: Env, iter: IterateKeys, events: seq<Event>, i: nat, h: nat, b: Block)
    requires i < |events|
  {
    Run(env, iter, events[..i]).mem.height == h && BuiltBy(env, Run(env, iter, events[..i]), events[i], b)
  }

  lemma BuiltAtPrefix(env: Env, iter: IterateKeys, events: seq<Event>, m: nat, i: nat, h: nat, b: Block)
    requires i < m <= |events| && BuiltAt(env, iter, events[..m], i, h, b)
    ensures BuiltAt(env, iter, events, i, h, b)
  {
    assert events[..m][..i] == events[..i];
  }

  /** The execution that made the block in production. */
  lemma {:induction false} ProductionWasBuilt(env: Env, iter: IterateKeys, events: seq<Event>) returns (i: nat)
    requires InProduction(Run(env, iter, events).mem.work).Some?
    ensures i < |events|
    ensures var n := Run(env, iter, events); BuiltAt(env, iter, events, i, n.mem.height, InProduction(n.mem.work).value)
    decreases |events|
  {
    assert events == [] ==> Run(env, iter, events).mem.work.Idle?;
    if events != [] {
      var init, e := events[..|events| - 1], events[|events| - 1];
      var n := Run(env, iter, init);
      ProductionAfter(env, iter, n, e);
      var b := InProduction(Run(env, iter, events).mem.work).value;
      if BuiltBy(env, n, e, b) {
        i := |init|;
      } else {
        i := ProductionWasBuilt(env, iter, init);
        BuiltAtPrefix(env, iter, events, |init|, i, n.mem.height, b);
      }
    }
  }

  /** Every committed block was built by an execution of the run at its height: it carries the time and the
      state root of that execution, the node's identity, the hash of the block before it, the hash of its
      transactions, and exactly the transactions that had been read by then. */
  lemma {:induction false} CommittedWasBuilt(env: Env, iter: IterateKeys, events: seq<Event>, h: nat) returns (i: nat)
    requires h in Run(env, iter, events).committed
    ensures i < |events| && BuiltAt(env, iter, events, i, h, Run(env, iter, events).committed[h])
    decreases |events|
  {
    assert events == [] ==> Run(env, iter, events).committed == map[];
    if events != [] {
      var init, e := events[..|events| - 1], events[|events| - 1];
      var n := Run(env, iter, init);
      var b := Run(env, iter, events).committed[h];
      CommittedAfter(env, iter, n, e, h);
      if h in n.committed && n.committed[h] == b {
        i := CommittedWasBuilt(env, iter, init, h);
      } else {
        i := ProductionWasBuilt(env, iter, init);
      }
      BuiltAtPrefix(env, iter, events, |init|, i, h, b);
    }
  }

  // ---------------------------------------------------------------- reading

  /** The step reads the key of `s` and finds its transaction, still valid. */
  ghost predicate Reads(n: Node, e: Event, s: nat) {
    && e.ReadNext? && n.mem.work.Reading? && n.mem.work.todo != [] && n.mem.work.todo[0] == Full(s)
    && s in n.disk.pending && e.valid
  }

  /** The step reads the key of `s`, and its transaction is gone or no longer valid. */
  ghost predicate Drops(n: Node, e: Event, s: nat) {
    && e.ReadNext? && n.mem.work.Reading? && n.mem.work.todo != [] && n.mem.work.todo[0] == Full(s)
    && (s !in n.disk.pending || !e.valid)
  }

  ghost function ReadBy(n: Node, e: Event): set<nat> {
    if e.ReadNext? && n.mem.work.Reading? && n.mem.work.todo != [] && Reads(n, e, n.mem.work.todo[0].seqNo) then {n.mem.work.todo[0].seqNo} else {}
  }

  ghost function DroppedBy(n: Node, e: Event): set<nat> {
    if e.ReadNext? && n.mem.work.Reading? && n.mem.work.todo != [] && Drops(n, e, n.mem.work.todo[0].seqNo) then {n.mem.work.todo[0].seqNo} else {}
  }

  /** The numbers read and found valid, and those dropped, in a run. */
  ghost function ReadIn(env: Env, iter: IterateKeys, events: seq<Event>): set<nat> {
    if events == [] then {}
    else ReadIn(env, iter, events[..|events| - 1]) + ReadBy(Run(env, iter, events[..|events| - 1]), events[|events| - 1])
  }

  ghost function DroppedIn(env: Env, iter: IterateKeys, events: seq<Event>): set<nat> {
    if events == [] then {}
    else DroppedIn(env, iter, events[..|events| - 1]) + DroppedBy(Run(env, iter, events[..|events| - 1]), events[|events| - 1])
  }

  lemma {:induction false} ReadWhen(env: Env, iter: IterateKeys, events: seq<Event>, s: nat) returns (i: nat)
    requires s in ReadIn(env, iter, events)
    ensures i < |events| && Reads(Run(env, iter, events[..i]), events[i], s)
    decreases |events|
  {
    var init := events[..|events| - 1];
    if s in ReadIn(env, iter, init) {
      i := ReadWhen(env, iter, init, s);
      assert init[..i] == events[..i];
    } else {
      i := |init|;
    }
  }

  lemma {:induction false} DroppedWhen(env: Env, iter: IterateKeys, events: seq<Event>, s: nat) returns (i: nat)
    requires s in DroppedIn(env, iter, events)
    ensures i < |events| && Drops(Run(env, iter, events[..i]), events[i], s)
    decreases |events|
  {
    var init := events[..|events| - 1];
    if s in DroppedIn(env, iter, init) {
      i := DroppedWhen(env, iter, init, s);
      assert init[..i] == events[..i];
    } else {
      i := |init|;
    }
  }

  // ---------------------------------------------------------------- transactions

  /** The keys that production has consumed. */
  function Consumed(w: Work): seq<Key> {
    match w
    case Idle => []
    case Reading(_, _, c) => c
    case Built(_, c) => c
    case MetaStored(_, c) => c
    case TxsStored(_, c) => c
    case Saved(c) => c
    case Cleaned(c) => c
  }

  /** The transactions of the block in production, or just committed. */
  ghost function Held(n: Node): seq<Bytes> {
    match n.mem.work
    case Idle => []
    case Reading(_, txs, _) => txs
    case Built(b, _) => b.txs
    case MetaStored(b, _) => b.txs
    case TxsStored(b, _) => b.txs
    case Saved(_) => if n.mem.height in n.committed then n.committed[n.mem.height].txs else []
    case Cleaned(_) => if n.mem.height in n.committed then n.committed[n.mem.height].txs else []
  }

  /** The transaction with this number is among these. */
  ghost predicate Among(sent: map<nat, Bytes>, s: nat, txs: seq<Bytes>) {
    s in sent && sent[s] in txs
  }

  /** Every one of these was sent with a number that was read. */
  ghost predicate AllRead(sent: map<nat, Bytes>, read: set<nat>, txs: seq<Bytes>) {
    forall tx :: tx in txs ==> SentAs(sent, read, tx)
  }

  ghost predicate SentAs(sent: map<nat, Bytes>, read: set<nat>, tx: Bytes) {
    exists s :: s in read && s in sent && sent[s] == tx
  }

  ghost predicate InSomeBlock(n: Node, s: nat) {
    exists h :: h in n.committed && Among(n.sent, s, n.committed[h].txs)
  }

  ghost predicate HeldTracked(n: Node, read: set<nat>, dropped: set<nat>) {
    && (forall s :: Full(s) in Consumed(n.mem.work) ==> s in dropped || Among(n.sent, s, Held(n)))
    && AllRead(n.sent, read, Held(n))
  }

  ghost predicate BlocksTracked(n: Node, read: set<nat>, dropped: set<nat>) {
    && (forall s :: s in n.consumedByBlock ==> s in dropped || InSomeBlock(n, s))
    && (forall h :: h in n.committed ==> AllRead(n.sent, read, n.committed[h].txs))
  }

  /** More sent, read and dropped numbers keep what is tracked. */
  lemma AllReadGrows(sent: map<nat, Bytes>, read: set<nat>, sent': map<nat, Bytes>, read': set<nat>, txs: seq<Bytes>)
    requires AllRead(sent, read, txs) && read <= read' && forall s :: s in sent ==> s in sent' && sent'[s] == sent[s]
    ensures AllRead(sent', read', txs)
  {
    forall tx | tx in txs ensures SentAs(sent', read', tx) {
      assert SentAs(sent, read, tx);
      var s :| s in read && s in sent && sent[s] == tx;
      assert s in read' && s in sent' && sent'[s] == tx;
    }
  }

  lemma ReadTracks(n: Node, valid: bool, read: set<nat>, dropped: set<nat>)
    requires Accounted(n) && HeldTracked(n, read, dropped)
    ensures var e := ReadNext(valid); HeldTracked(DoReadNext(n, valid), read + ReadBy(n, e), dropped + DroppedBy(n, e))
  {
    var e, n' := ReadNext(valid), DoReadNext(n, valid);
    var read', dropped' := read + ReadBy(n, e), dropped + DroppedBy(n, e);
    AllReadGrows(n.sent, read, n.sent, read', Held(n));
    if n.mem.work.Reading? && n.mem.work.todo != [] {
      var w, k := n.mem.work, n.mem.work.todo[0];
      assert k in WorkKeys(w);
      var tx := Find(n.disk.pending, k);
      if tx.Some? && valid {
        assert k.seqNo in n.disk.pending && n.sent[k.seqNo] == tx.value;
        assert Reads(n, e, k.seqNo);
        assert SentAs(n.sent, read', tx.value) by {
          assert k.seqNo in read' && k.seqNo in n.sent;
        }
        assert Held(n') == w.txs + [tx.value];
      }
    }
  }

  lemma SaveTracks(n: Node, succeeds: bool, top: nat, read: set<nat>, dropped: set<nat>)
    requires HeightsInv(n, top) && HeldTracked(n, read, dropped) && BlocksTracked(n, read, dropped)
    ensures HeldTracked(DoSaveState(n, succeeds), read, dropped) && BlocksTracked(DoSaveState(n, succeeds), read, dropped)
  {
    var n' := DoSaveState(n, succeeds);
    if n.mem.work.TxsStored? && succeeds {
      assert n.mem.height !in n.committed;
      forall s | s in n'.consumedByBlock && s !in dropped ensures InSomeBlock(n', s) {
        assert InSomeBlock(n, s);
        var h :| h in n.committed && Among(n.sent, s, n.committed[h].txs);
        assert h in n'.committed && n'.committed[h] == n.committed[h];
      }
    }
  }

  lemma CleanTracks(n: Node, succeeds: bool, top: nat, read: set<nat>, dropped: set<nat>)
    requires HeightsInv(n, top) && HeldTracked(n, read, dropped) && BlocksTracked(n, read, dropped)
    ensures HeldTracked(DoCleanDatabase(n, succeeds), read, dropped) && BlocksTracked(DoCleanDatabase(n, succeeds), read, dropped)
  {
    var n' := DoCleanDatabase(n, succeeds);
    if n.mem.work.Saved? {
      var h := n.mem.height;
      assert h in n.committed && Held(n) == n.committed[h].txs;
      forall s | s in n'.consumedByBlock && s !in dropped ensures InSomeBlock(n', s) {
        if s in n.consumedByBlock {
          assert InSomeBlock(n, s);
          var g :| g in n.committed && Among(n.sent, s, n.committed[g].txs);
          assert g in n'.committed && Among(n'.sent, s, n'.committed[g].txs);
        } else {
          assert Full(s) in Consumed(n.mem.work);
          assert h in n'.committed && Among(n'.sent, s, n'.committed[h].txs);
        }
      }
    }
  }

  /** The other steps of production carry keys and transactions along, or let go of both. */
  lemma OthersTrack(env: Env, iter: IterateKeys, n: Node, e: Event, top: nat, read: set<nat>, dropped: set<nat>)
    requires HeightsInv(n, top) && HeldTracked(n, read, dropped) && BlocksTracked(n, read, dropped)
    requires e.Take? || e.Execute? || e.WriteMeta? || e.WriteTxs? || e.CleanIndex? || e.SaveOutsideBlock? || e.Restart? || e.Prune?
    ensures HeldTracked(Step(env, iter, n, e), read, dropped) && BlocksTracked(Step(env, iter, n, e), read, dropped)
  {
    OthersCarry(env, iter, n, e);
    var n' := Step(env, iter, n, e);
    forall s | s in n'.consumedByBlock && s !in dropped ensures InSomeBlock(n', s) {
      assert InSomeBlock(n, s);
      var h :| h in n.committed && Among(n.sent, s, n.committed[h].txs);
      assert h in n'.committed && Among(n'.sent, s, n'.committed[h].txs);
    }
  }

  lemma OthersCarry(env: Env, iter: IterateKeys, n: Node, e: Event)
    requires e.Take? || e.Execute? || e.WriteMeta? || e.WriteTxs? || e.CleanIndex? || e.SaveOutsideBlock? || e.Restart? || e.Prune?
    ensures var n' := Step(env, iter, n, e);
            && n'.sent == n.sent && n'.committed == n.committed && n'.consumedByBlock == n.consumedByBlock
            && ((Consumed(n'.mem.work) == Consumed(n.mem.work) && Held(n') == Held(n)) || (Consumed(n'.mem.work) == [] && Held(n') == []))
  {
  }

  lemma AddTracks(n: Node, tx: Bytes, valid: bool, stored: bool, read: set<nat>, dropped: set<nat>)
    requires Accounted(n) && HeldTracked(n, read, dropped) && BlocksTracked(n, read, dropped)
    ensures HeldTracked(DoAddTx(n, tx, valid, stored), read, dropped) && BlocksTracked(DoAddTx(n, tx, valid, stored), read, dropped)
  {
    var n' := DoAddTx(n, tx, valid, stored);
    assert forall s :: s in n.sent ==> s in n'.sent && n'.sent[s] == n.sent[s];
    AllReadGrows(n.sent, read, n'.sent, read, Held(n));
    forall h | h in n'.committed ensures AllRead(n'.sent, read, n'.committed[h].txs) {
      AllReadGrows(n.sent, read, n'.sent, read, n.committed[h].txs);
    }
    forall s | s in n'.consumedByBlock && s !in dropped ensures InSomeBlock(n', s) {
      assert InSomeBlock(n, s);
      var h :| h in n.committed && Among(n.sent, s, n.committed[h].txs);
      assert h in n'.committed && Among(n'.sent, s, n'.committed[h].txs);
    }
  }

  lemma BlocksTrackedGrows(n: Node, read: set<nat>, dropped: set<nat>, read': set<nat>, dropped': set<nat>)
    requires BlocksTracked(n, read, dropped) && read <= read' && dropped <= dropped'
    ensures BlocksTracked(n, read', dropped')
  {
    forall h | h in n.committed ensures AllRead(n.sent, read', n.committed[h].txs) {
      AllReadGrows(n.sent, read, n.sent, read', n.committed[h].txs);
    }
  }

  lemma StepTracks(env: Env, iter: IterateKeys, n: Node, e: Event, top: nat, read: set<nat>, dropped: set<nat>)
    requires HeightsInv(n, top) && Accounted(n) && HeldTracked(n, read, dropped) && BlocksTracked(n, read, dropped)
    ensures var n', read', dropped' := Step(env, iter, n, e), read + ReadBy(n, e), dropped + DroppedBy(n, e);
            HeldTracked(n', read', dropped') && BlocksTracked(n', read', dropped')
  {
    match e
    case AddTx(tx, valid, stored) =>
      NothingRead(n, e, read, dropped);
      AddTracks(n, tx, valid, stored, read, dropped);
    case ReadNext(valid) =>
      ReadTracks(n, valid, read, dropped);
      BlocksTrackedGrows(n, read, dropped, read + ReadBy(n, e), dropped + DroppedBy(n, e));
      ReadKeepsBlocks(n, valid, read + ReadBy(n, e), dropped + DroppedBy(n, e));
    case SaveState(succeeds) =>
      NothingRead(n, e, read, dropped);
      SaveTracks(n, succeeds, top, read, dropped);
    case CleanDatabase(succeeds) =>
      NothingRead(n, e, read, dropped);
      CleanTracks(n, succeeds, top, read, dropped);
    case _ =>
      NothingRead(n, e, read, dropped);
      OthersTrack(env, iter, n, e, top, read, dropped);
  }

  lemma NothingRead(n: Node, e: Event, read: set<nat>, dropped: set<nat>)
    requires !e.ReadNext?
    ensures read + ReadBy(n, e) == read && dropped + DroppedBy(n, e) == dropped
  {
  }

  lemma ReadKeepsBlocks(n: Node, valid: bool, read: set<nat>, dropped: set<nat>)
    requires BlocksTracked(n, read, dropped)
    ensures BlocksTracked(DoReadNext(n, valid), read, dropped)
  {
    var n' := DoReadNext(n, valid);
    forall s | s in n'.consumedByBlock && s !in dropped ensures InSomeBlock(n', s) {
      assert InSomeBlock(n, s);
      var h :| h in n.committed && Among(n.sent, s, n.committed[h].txs);
      assert h in n'.committed && Among(n'.sent, s, n'.committed[h].txs);
    }
  }

  lemma {:induction false} RunTracks(env: Env, iter: IterateKeys, events: seq<Event>)
    ensures var n, read, dropped := Run(env, iter, events), ReadIn(env, iter, events), DroppedIn(env, iter, events);
            HeldTracked(n, read, dropped) && BlocksTracked(n, read, dropped)
    decreases |events|
  {
    if events != [] {
      var init, e := events[..|events| - 1], events[|events| - 1];
      RunTracks(env, iter, init);
      RunKeepsAccount(env, iter, init);
      var top := RunKeepsHeights(env, iter, init);
      StepTracks(env, iter, Run(env, iter, init), e, top, ReadIn(env, iter, init), DroppedIn(env, iter, init));
    }
  }

  /** What a committed block consumed is in a committed block, unless it was gone or no longer valid when it
      was read: in every run, with crashes, for every number that left the mempool through a block. */
  lemma ConsumedIsInBlock(env: Env, iter: IterateKeys, events: seq<Event>, s: nat) returns (i: nat)
    requires s in Run(env, iter, events).consumedByBlock && !InSomeBlock(Run(env, iter, events), s)
    ensures i < |events| && Drops(Run(env, iter, events[..i]), events[i], s)
  {
    RunTracks(env, iter, events);
    i := DroppedWhen(env, iter, events, s);
  }

  /** Every transaction of a committed block was sent to this node, read from its mempool and found valid. */
  lemma BlockTransactionsWereRead(env: Env, iter: IterateKeys, events: seq<Event>, h: nat, tx: Bytes) returns (i: nat, s: nat)
    requires h in Run(env, iter, events).committed && tx in Run(env, iter, events).committed[h].txs
    ensures i < |events| && Reads(Run(env, iter, events[..i]), events[i], s)
    ensures s in Run(env, iter, events).sent && Run(env, iter, events).sent[s] == tx
  {
    RunTracks(env, iter, events);
    var n, read := Run(env, iter, events), ReadIn(env, iter, events);
    assert AllRead(n.sent, read, n.committed[h].txs);
    assert SentAs(n.sent, read, tx);
    s :| s in read && s in n.sent && n.sent[s] == tx;
    i := ReadWhen(env, iter, events, s);
  }

  // ---------------------------------------------------------------- what was sent

  /** The step accepts the transaction under the number `s`. */
  ghost predicate Accepts(n: Node, e: Event, s: nat, tx: Bytes) {
    e == AddTx(tx, true, true) && |n.mem.keys| < MEMPOOL_SIZE && s == n.mem.lastSeq + 1
  }

  lemma SentAfter(env: Env, iter: IterateKeys, n: Node, e: Event, s: nat)
    requires s in Step(env, iter, n, e).sent
    ensures || (s in n.sent && Step(env, iter, n, e).sent[s] == n.sent[s])
            || Accepts(n, e, s, Step(env, iter, n, e).sent[s])
  {
  }

  /** Every number that was given out was given to a transaction that somebody sent: the call that accepted
      it, with that content, is in the run. */
  lemma {:induction false} SentWasAccepted(env: Env, iter: IterateKeys, events: seq<Event>, s: nat) returns (i: nat)
    requires s in Run(env, iter, events).sent
    ensures i < |events| && Accepts(Run(env, iter, events[..i]), events[i], s, Run(env, iter, events).sent[s])
    decreases |events|
  {
    assert events == [] ==> Run(env, iter, events).sent == map[];
    if events != [] {
      var init, e := events[..|events| - 1], events[|events| - 1];
      var n := Run(env, iter, init);
      SentAfter(env, iter, n, e, s);
      if s in n.sent && n.sent[s] == Run(env, iter, events).sent[s] {
        i := SentWasAccepted(env, iter, init, s);
        assert init[..i] == events[..i];
      } else {
        i := |init|;
      }
    }
  }

  /** And every accepted call puts its transaction into the database, at the end of the queue. */
  lemma AcceptedIsQueued(env: Env, iter: IterateKeys, n: Node, e: Event, s: nat, tx: Bytes)
    requires Accepts(n, e, s, tx)
    ensures var n' := Step(env, iter, n, e);
            && n'.disk.pending == n.disk.pending[s := tx] && n'.disk.lastSeq == s
            && n'.mem.keys == n.mem.keys + [Full(s)] && n'.sent == n.sent[s := tx]
  {
  }
}
