/** Vocone on values: a chain produced by a single node, its three databases, its volatile indexes,
    and the steps between which the process may crash. */
module VoconeModel {
  import opened Base

  // ---------------------------------------------------------------- databases

  /** What is stored for each block beside its transactions. */
  datatype Meta = Meta(time: nat, txCount: nat, stateRoot: Bytes, hash: Bytes, proposer: Bytes, lastBlockHash: Bytes, dataHash: Bytes)

  /** The block store (metadata, hash index and transactions), the mempool database (pending
      transactions by sequence number, and the last sequence number) and the height of the last save of
      the application state. */
  datatype Disk = Disk(
    metas: map<nat, Meta>, index: map<Bytes, nat>, txs: map<(nat, nat), Bytes>,
    pending: map<nat, Bytes>, lastSeq: nat,
    saved: nat)

  const EMPTY_DISK := Disk(map[], map[], map[], map[], 0, 0)

  /** A key as the mempool index holds it: a database key, or one without its prefix, under which the
      database has nothing. */
  datatype Key = Full(seqNo: nat) | Stripped(seqNo: nat)

  /** Whether iterating over a prefix yields whole keys or what follows the prefix. */
  datatype IterateKeys = FullKeys | StrippedKeys

  // ---------------------------------------------------------------- blocks

  datatype Header = Header(chainID: Bytes, height: nat, time: nat, proposer: Bytes, appHash: Bytes, lastBlockHash: Bytes, dataHash: Bytes)

  datatype Block = Block(header: Header, txs: seq<Bytes>)

  /** The node's identity and the hashes of headers and of lists of transactions. */
  datatype Env = Env(chainID: Bytes, proposer: Bytes, headerHash: Header -> Bytes, dataHash: seq<Bytes> -> Bytes)

  /** The hash of the block at the previous height, if that block is stored. */
  function PreviousHash(disk: Disk, height: nat): Bytes {
    if height > 0 && height - 1 in disk.metas then disk.metas[height - 1].hash else []
  }

  /** buildBlock. */
  function BuildBlock(env: Env, disk: Disk, height: nat, time: nat, txs: seq<Bytes>, appHash: Bytes): Block {
    Block(Header(env.chainID, height, time, env.proposer, appHash, PreviousHash(disk, height), env.dataHash(txs)), txs)
  }

  function MetaOf(env: Env, b: Block): Meta {
    Meta(b.header.time, |b.txs|, b.header.appHash, env.headerHash(b.header), b.header.proposer, b.header.lastBlockHash, b.header.dataHash)
  }

  /** storeBlockMeta: replaces the metadata of a height and moves the hash index along, atomically. */
  function StoreMeta(disk: Disk, height: nat, meta: Meta): Disk {
    var index := if height in disk.metas && disk.metas[height].hash != [] && disk.metas[height].hash != meta.hash
                 then disk.index - {disk.metas[height].hash} else disk.index;
    disk.(metas := disk.metas[height := meta], index := if meta.hash != [] then index[meta.hash := height] else index)
  }

  /** The transactions of a block, written in one transaction of the database. */
  function StoreTxs(disk: Disk, height: nat, txs: seq<Bytes>): Disk {
    disk.(txs := disk.txs + (map i: nat | i < |txs| :: (height, i) := txs[i]))
  }

  /** The transactions of a stored block: as many as the metadata says, up to the first missing one. */
  function StoredTxs(disk: Disk, height: nat, from: nat, count: nat): seq<Bytes>
    decreases count - from
  {
    if from >= count || (height, from) !in disk.txs then []
    else [disk.txs[(height, from)]] + StoredTxs(disk, height, from + 1, count)
  }

  /** getBlock: a stored block, or a shell with only the height for one that is not stored. */
  function GetBlock(env: Env, disk: Disk, height: nat): Block {
    if height !in disk.metas then Block(Header(env.chainID, height, 0, [], [], [], []), [])
    else
      var m := disk.metas[height];
      Block(Header(env.chainID, height, m.time, m.proposer, m.stateRoot, m.lastBlockHash, m.dataHash), StoredTxs(disk, height, 0, m.txCount))
  }

  /** getBlockByHash. */
  function GetBlockByHash(env: Env, disk: Disk, hash: Bytes): Option<Block> {
    if hash in disk.index then Some(GetBlock(env, disk, disk.index[hash])) else None
  }

  // ---------------------------------------------------------------- the running node

  const MEMPOOL_SIZE: nat := 8192

  /** Where block production stands. The keys taken for a block are read and checked one by one, the
      block is executed, its metadata and transactions are stored, the state is saved, and only then
      the consumed keys leave the mempool: first the database, then the index. */
  datatype Work =
    | Idle
    | Reading(todo: seq<Key>, txs: seq<Bytes>, consumed: seq<Key>)
    | Built(block: Block, consumed: seq<Key>)
    | MetaStored(block: Block, consumed: seq<Key>)
    | TxsStored(block: Block, consumed: seq<Key>)
    | Saved(consumed: seq<Key>)
    | Cleaned(consumed: seq<Key>)

  /** `current` is the height the application state works at, `keys` the mempool index in order. */
  datatype Memory = Memory(height: nat, current: nat, keys: seq<Key>, lastSeq: nat, work: Work)

  /** A node, with the history that its guarantees speak of: the blocks whose state was committed, who
      made the last save, the transactions ever stored by sequence number, and those taken out of the mempool by
      pruning or because a committed block had consumed them. */
  datatype Node = Node(
    disk: Disk, mem: Memory,
    committed: map<nat, Block>, savedByBlock: bool,
    sent: map<nat, Bytes>, pruned: set<nat>, consumedByBlock: set<nat>)

  datatype Event =
    | AddTx(tx: Bytes, valid: bool, stored: bool)
    | Prune(matches: Bytes -> bool, stored: bool)
    | Take(count: nat)
    | ReadNext(valid: bool)
    | Execute(succeeds: bool, time: nat, appHash: Bytes)
    | WriteMeta(succeeds: bool)
    | WriteTxs(succeeds: bool)
    | SaveState(succeeds: bool)
    | CleanDatabase(succeeds: bool)
    | CleanIndex
    | SaveOutsideBlock
    | Restart

  // ---------------------------------------------------------------- recovery

  /** The pending sequence numbers in increasing order, which is the order of their keys. */
  function SortedKeys(pending: set<nat>, below: nat): (keys: seq<nat>)
    ensures forall k :: k in keys <==> k in pending && k < below
    ensures forall i, j :: 0 <= i < j < |keys| ==> keys[i] < keys[j]
  {
    if below == 0 then []
    else
      var before := SortedKeys(pending, below - 1);
      assert forall i :: 0 <= i < |before| ==> before[i] in before;
      if below - 1 in pending then before + [below - 1] else before
  }

  function Bound(pending: set<nat>): (b: nat)
    ensures forall k :: k in pending ==> k < b
  {
    if pending == {} then 0
    else
      var k := MaxOf(pending);
      k + 1
  }

  function MaxOf(s: set<nat>): (m: nat)
    requires s != {}
    ensures m in s && forall k :: k in s ==> k <= m
  {
    MaxExists(s);
    assert exists m :: m in s && forall k :: k in s ==> k <= m by {
      var top :| IsMax(s, top);
    }
    var m :| m in s && forall k :: k in s ==> k <= m;
    m
  }

  lemma {:induction false} MaxExists(s: set<nat>)
    requires s != {}
    ensures exists m :: IsMax(s, m)
    decreases |s|
  {
    var x :| x in s;
    var rest := s - {x};
    assert forall k: nat :: k in s <==> k == x || k in rest;
    if rest == {} {
      assert IsMax(s, x);
    } else {
      MaxExists(rest);
      var m :| IsMax(rest, m);
      assert IsMax(s, if m <= x then x else m);
    }
  }

  ghost predicate IsMax(s: set<nat>, m: nat) {
    m in s && forall k :: k in s ==> k <= m
  }

  /** The pending sequence numbers, in the order the database iterates over them. */
  function PendingOrder(disk: Disk): (order: seq<nat>)
    ensures forall k :: k in order <==> k in disk.pending
    ensures forall i, j :: 0 <= i < j < |order| ==> order[i] < order[j]
  {
    SortedKeys(disk.pending.Keys, Bound(disk.pending.Keys))
  }

  function AsKeys(iter: IterateKeys, order: seq<nat>): (keys: seq<Key>)
    ensures |keys| == |order|
    ensures forall i :: 0 <= i < |keys| ==> keys[i] == if iter.FullKeys? then Full(order[i]) else Stripped(order[i])
  {
    seq(|order|, i requires 0 <= i < |order| => if iter.FullKeys? then Full(order[i]) else Stripped(order[i]))
  }

  /** The next height: the one after the last saved if that block is stored, the last saved if not. */
  function RecoveredHeight(disk: Disk): nat {
    if disk.saved in disk.metas then disk.saved + 1 else disk.saved
  }

  /** The larger of the stored sequence number and the largest one among the pending keys. */
  function RecoveredSeq(disk: Disk): nat {
    var order := PendingOrder(disk);
    if order != [] && order[|order| - 1] > disk.lastSeq then order[|order| - 1] else disk.lastSeq
  }

  /** NewVocone: everything volatile is rebuilt from the databases. */
  function Recover(disk: Disk, iter: IterateKeys): Memory {
    Memory(RecoveredHeight(disk), RecoveredHeight(disk), AsKeys(iter, PendingOrder(disk)), RecoveredSeq(disk), Idle)
  }

  // ---------------------------------------------------------------- the mempool

  /** Reading a pending transaction. */
  function Find(pending: map<nat, Bytes>, k: Key): Option<Bytes> {
    if k.Full? then Lookup(pending, k.seqNo) else None
  }

  /** The sequence numbers that deleting these keys removes. */
  function Deleted(keys: seq<Key>): set<nat> {
    set k | k in keys && k.Full? :: k.seqNo
  }

  /** The keys that are not consumed, in their order. */
  function Without(keys: seq<Key>, consumed: seq<Key>): (rest: seq<Key>)
    ensures forall k :: k in rest <==> k in keys && k !in consumed
  {
    if keys == [] then []
    else
      var before := Without(keys[..|keys| - 1], consumed);
      if keys[|keys| - 1] in consumed then before else before + [keys[|keys| - 1]]
  }

  /** The position of the first pending transaction that matches, or the number of keys. */
  function FirstMatch(pending: map<nat, Bytes>, keys: seq<Key>, matches: Bytes -> bool): (i: nat)
    ensures i <= |keys|
    ensures i < |keys| ==> Find(pending, keys[i]).Some? && matches(Find(pending, keys[i]).value)
    ensures forall j :: 0 <= j < i ==> Find(pending, keys[j]).Some? ==> !matches(Find(pending, keys[j]).value)
  {
    if keys == [] then 0
    else
      var before := FirstMatch(pending, keys[..|keys| - 1], matches);
      if before < |keys| - 1 then before
      else
        var last := Find(pending, keys[|keys| - 1]);
        if last.Some? && matches(last.value) then |keys| - 1 else |keys|
  }

  // ---------------------------------------------------------------- the steps

  function DoAddTx(n: Node, tx: Bytes, valid: bool, stored: bool): Node {
    if !valid || |n.mem.keys| >= MEMPOOL_SIZE then n
    else
      var s := n.mem.lastSeq + 1;
      if !stored then n.(mem := n.mem.(lastSeq := s))
      else n.(disk := n.disk.(pending := n.disk.pending[s := tx], lastSeq := s),
              mem := n.mem.(lastSeq := s, keys := n.mem.keys + [Full(s)]),
              sent := n.sent[s := tx])
  }

  function DoPrune(n: Node, matches: Bytes -> bool, stored: bool): Node {
    var i := FirstMatch(n.disk.pending, n.mem.keys, matches);
    if i == |n.mem.keys| || !stored then n
    else
      var s := n.mem.keys[i].seqNo;
      n.(disk := n.disk.(pending := n.disk.pending - {s}),
         mem := n.mem.(keys := n.mem.keys[..i] + n.mem.keys[i + 1..]),
         pruned := n.pruned + {s})
  }

  function DoTake(n: Node, count: nat): Node {
    if !n.mem.work.Idle? then n
    else n.(mem := n.mem.(work := Reading(if count <= |n.mem.keys| then n.mem.keys[..count] else n.mem.keys, [], [])))
  }

  /** A key whose transaction is gone or no longer valid is consumed without entering the block. */
  function DoReadNext(n: Node, valid: bool): Node {
    if !n.mem.work.Reading? || n.mem.work.todo == [] then n
    else
      var w := n.mem.work;
      var tx := Find(n.disk.pending, w.todo[0]);
      n.(mem := n.mem.(work := Reading(w.todo[1..], if tx.Some? && valid then w.txs + [tx.value] else w.txs, w.consumed + [w.todo[0]])))
  }

  function DoExecute(env: Env, n: Node, succeeds: bool, time: nat, appHash: Bytes): Node {
    if !n.mem.work.Reading? || n.mem.work.todo != [] then n
    else if !succeeds then n.(mem := n.mem.(current := n.mem.height, work := Idle))
    else n.(mem := n.mem.(current := n.mem.height,
                          work := Built(BuildBlock(env, n.disk, n.mem.height, time, n.mem.work.txs, appHash), n.mem.work.consumed)))
  }

  function DoWriteMeta(env: Env, n: Node, succeeds: bool): Node {
    if !n.mem.work.Built? then n
    else if !succeeds then n.(mem := n.mem.(work := Idle))
    else n.(disk := StoreMeta(n.disk, n.mem.height, MetaOf(env, n.mem.work.block)),
            mem := n.mem.(work := MetaStored(n.mem.work.block, n.mem.work.consumed)))
  }

  function DoWriteTxs(n: Node, succeeds: bool): Node {
    if !n.mem.work.MetaStored? then n
    else if !succeeds then n.(mem := n.mem.(work := Idle))
    else n.(disk := StoreTxs(n.disk, n.mem.height, n.mem.work.block.txs),
            mem := n.mem.(work := TxsStored(n.mem.work.block, n.mem.work.consumed)))
  }

  function DoSaveState(n: Node, succeeds: bool): Node {
    if !n.mem.work.TxsStored? then n
    else if !succeeds then n.(mem := n.mem.(work := Idle))
    else n.(disk := n.disk.(saved := n.mem.current),
            mem := n.mem.(work := Saved(n.mem.work.consumed)),
            committed := n.committed[n.mem.height := n.mem.work.block], savedByBlock := true)
  }

  /** A cleanup that the database refuses is only logged. */
  function DoCleanDatabase(n: Node, succeeds: bool): Node {
    if !n.mem.work.Saved? then n
    else
      var w := n.mem.work;
      if !succeeds then n.(mem := n.mem.(work := Cleaned(w.consumed)))
      else n.(disk := n.disk.(pending := n.disk.pending - Deleted(w.consumed)),
              mem := n.mem.(work := Cleaned(w.consumed)),
              consumedByBlock := n.consumedByBlock + Deleted(w.consumed))
  }

  function DoCleanIndex(n: Node): Node {
    if !n.mem.work.Cleaned? then n
    else n.(mem := n.mem.(keys := Without(n.mem.keys, n.mem.work.consumed), height := n.mem.height + 1, work := Idle))
  }

  /** The saves made outside blocks (genesis, accounts, costs, the key keeper at every start). */
  function DoSaveOutsideBlock(n: Node): Node {
    if !n.mem.work.Idle? then n else n.(disk := n.disk.(saved := n.mem.current), savedByBlock := false)
  }

  function Step(env: Env, iter: IterateKeys, n: Node, e: Event): Node {
    match e
    case AddTx(tx, valid, stored) => DoAddTx(n, tx, valid, stored)
    case Prune(matches, stored) => DoPrune(n, matches, stored)
    case Take(count) => DoTake(n, count)
    case ReadNext(valid) => DoReadNext(n, valid)
    case Execute(succeeds, time, appHash) => DoExecute(env, n, succeeds, time, appHash)
    case WriteMeta(succeeds) => DoWriteMeta(env, n, succeeds)
    case WriteTxs(succeeds) => DoWriteTxs(n, succeeds)
    case SaveState(succeeds) => DoSaveState(n, succeeds)
    case CleanDatabase(succeeds) => DoCleanDatabase(n, succeeds)
    case CleanIndex => DoCleanIndex(n)
    case SaveOutsideBlock => DoSaveOutsideBlock(n)
    case Restart => n.(mem := Recover(n.disk, iter))
  }

  function NewNode(iter: IterateKeys): Node {
    Node(EMPTY_DISK, Recover(EMPTY_DISK, iter), map[], false, map[], {}, {})
  }

  /** The node after a sequence of events; a crash between two of them is a Restart there. */
  function Steps(env: Env, iter: IterateKeys, n: Node, events: seq<Event>): Node
    decreases |events|
  {
    if events == [] then n else Step(env, iter, Steps(env, iter, n, events[..|events| - 1]), events[|events| - 1])
  }

  /** A run from empty databases. */
  function Run(env: Env, iter: IterateKeys, events: seq<Event>): Node {
    Steps(env, iter, NewNode(iter), events)
  }

  lemma StepsAppend(env: Env, iter: IterateKeys, n: Node, events: seq<Event>, e: Event)
    ensures Steps(env, iter, n, events + [e]) == Step(env, iter, Steps(env, iter, n, events), e)
  {
    assert (events + [e])[..|events|] == events;
  }
}
