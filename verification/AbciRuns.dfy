/** Runs of the four ABCI calls in every order the consensus engine may use: any number of
    PrepareProposal and ProcessProposal calls at a height, then FinalizeBlock of the decided block,
    then Commit. */
module AbciRuns {
  import opened Base
  import opened AbciModel

  /** Which call wrote the working state last since the last commit: none, a failing execution, or
      the execution of a block. */
  datatype Held = Clean | Partial | Executed(block: Block)

  /** The cached proposal and the committed state it was executed on. */
  datatype Entry = Entry(block: Block, base: AppState)

  /** A node with the history its guarantees depend on: the height decided so far, the block decided
      and not yet committed, the blocks committed, and the answers given for them. */
  datatype Node = Node(
    app: App, height: nat, held: Held, entry: Option<Entry>,
    decided: Option<Block>, blocks: seq<Block>, answers: seq<Finalized>)

  datatype Call = PrepareProposal | ProcessProposal(block: Block) | FinalizeBlock(block: Block) | CommitBlock

  function Start(genesis: AppState): Node {
    Node(App(genesis, genesis, genesis.version, Cache(None, [], [])), genesis.version, Clean, None, None, [], [])
  }

  /** ProcessProposal gets as far as executing the block. */
  predicate Executes(rules: Rules, app: App, b: Block) {
    (rules.endOfChain == 0 || b.height <= rules.endOfChain) && rules.validator(app.committed.content) == Some(true)
  }

  function HeldAfter(rules: Rules, app: App, b: Block): Held {
    if Execute(rules, app.committed, b).Done? then Executed(b) else Partial
  }

  /** One call. `named` is the block a hash stands for: hashes identify blocks. */
  ghost predicate Step(rules: Rules, named: Bytes -> Block, n: Node, call: Call, n': Node) {
    match call
    case PrepareProposal =>
      n.decided.None? && n' == n.(app := AfterPrepare(n.app), held := Clean)
    case ProcessProposal(b) =>
      && n.decided.None? && b.height == n.height + 1 && named(b.hash) == b
      && var r := Process(rules, n.app, b);
         n' == n.(app := r.0,
                  held := if Executes(rules, n.app, b) then HeldAfter(rules, n.app, b) else n.held,
                  entry := if r.1 != Accept then n.entry
                           else if Executes(rules, n.app, b) then Some(Entry(b, n.app.committed)) else None)
    case FinalizeBlock(b) =>
      && n.decided.None? && b.height == n.height + 1 && named(b.hash) == b
      && var r := Finalize(rules, n.app, b);
         && r.1.Response?
         && n' == n.(app := r.0, held := if CacheHit(n.app, b) then n.held else Executed(b),
                     decided := Some(b), answers := n.answers + [r.1])
    case CommitBlock =>
      && n.decided.Some?
      && n' == n.(app := Commit(rules, n.app), height := n.height + 1, held := Clean, decided := None, blocks := n.blocks + [n.decided.value])
  }

  // ---------------------------------------------------------------- the invariant of every run

  ghost predicate Inv(rules: Rules, named: Bytes -> Block, n: Node) {
    && n.app.committed.version <= n.height
    && (n.entry.None? ==> n.app.cache.root.None?)
    && (n.entry.Some? ==>
          var b, base := n.entry.value.block, n.entry.value.base;
          var e := Execute(rules, base, b);
          && e.Done? && AllValid(e.responses) && named(b.hash) == b
          && n.app.cache == Cache(Some(e.root), b.hash, e.responses)
          && b.height <= n.height + 1
          && (b.height == n.height + 1 ==> base == n.app.committed))
    && (n.decided.None? ==>
          match n.held
          case Clean => n.app.working == n.app.committed
          case Partial => n.app.working.version == n.app.committed.version
          case Executed(b) => named(b.hash) == b && b.height == n.height + 1 && Execute(rules, n.app.committed, b).Done? && n.app.working == Execute(rules, n.app.committed, b).state)
    && (n.decided.Some? ==> n.decided.value.height == n.height + 1 && n.app.working.version <= n.height + 1)
  }

  lemma StepKeepsInv(rules: Rules, named: Bytes -> Block, n: Node, call: Call, n': Node)
    requires Inv(rules, named, n) && Step(rules, named, n, call, n')
    ensures Inv(rules, named, n')
  {
    match call
    case PrepareProposal =>
    case ProcessProposal(b) => ProcessKeepsInv(rules, named, n, b, n');
    case FinalizeBlock(b) =>
    case CommitBlock =>
  }

  lemma ProcessKeepsInv(rules: Rules, named: Bytes -> Block, n: Node, b: Block, n': Node)
    requires Inv(rules, named, n) && Step(rules, named, n, ProcessProposal(b), n')
    ensures Inv(rules, named, n')
  {
  }

  /** A run from the genesis state. */
  ghost predicate Run(rules: Rules, named: Bytes -> Block, genesis: AppState, nodes: seq<Node>, calls: seq<Call>) {
    && |nodes| == |calls| + 1 && nodes[0] == Start(genesis)
    && (forall i {:trigger calls[i]} :: 0 <= i < |calls| ==> Step(rules, named, nodes[i], calls[i], nodes[i + 1]))
  }

  lemma {:induction false} RunKeepsInv(rules: Rules, named: Bytes -> Block, genesis: AppState, nodes: seq<Node>, calls: seq<Call>, i: nat)
    requires Run(rules, named, genesis, nodes, calls) && i < |nodes|
    ensures Inv(rules, named, nodes[i])
    decreases i
  {
    if i > 0 {
      RunKeepsInv(rules, named, genesis, nodes, calls, i - 1);
      StepKeepsInv(rules, named, nodes[i - 1], calls[i - 1], nodes[i]);
    }
  }

  // ---------------------------------------------------------------- optimistic execution

  lemma AnswerIsFresh(rules: Rules, named: Bytes -> Block, n: Node, b: Block, n': Node)
    requires Inv(rules, named, n) && Step(rules, named, n, FinalizeBlock(b), n')
    ensures var e := Execute(rules, n.app.committed, b);
            && e.Done? && Finalize(rules, n.app, b).1 == Response(e.root, e.responses) && |e.responses| == |b.txs|
            && (CacheHit(n.app, b) ==> n.entry == Some(Entry(b, n.app.committed)))
  {
  }

  /** Optimistic execution agrees with re-execution: at whatever point of whatever run, FinalizeBlock
      answers with the root and the responses that executing the decided block on the committed state
      gives, also when it answers from the cache; and it always has one response per transaction. */
  lemma AnswersAreFresh(rules: Rules, named: Bytes -> Block, genesis: AppState, nodes: seq<Node>, calls: seq<Call>, i: nat)
    requires Run(rules, named, genesis, nodes, calls) && i < |calls| && calls[i].FinalizeBlock?
    ensures var n, b := nodes[i], calls[i].block;
            var e := Execute(rules, n.app.committed, b);
            && e.Done? && Finalize(rules, n.app, b).1 == Response(e.root, e.responses) && |e.responses| == |b.txs|
            && e.root == rules.root(e.state.content)
            && (exists states :: IsExecution(rules, n.app.committed, b, states, e))
            && (CacheHit(n.app, b) ==> n.entry == Some(Entry(b, n.app.committed)))
  {
    var states := ExecutionHasTrace(rules, nodes[i].app.committed, calls[i].block);
    RunKeepsInv(rules, named, genesis, nodes, calls, i);
    AnswerIsFresh(rules, named, nodes[i], calls[i].block, nodes[i + 1]);
  }

  // ---------------------------------------------------------------- what gets committed

  /** Nothing touched the working state between the accepting ProcessProposal of the block and its
      FinalizeBlock, or the cache does not answer for the block at all. */
  predicate Undisturbed(n: Node, b: Block) {
    CacheHit(n.app, b) ==> n.held == Executed(b)
  }

  /** Finalizing and committing the block at this point saves what executing it would. */
  ghost predicate Faithful(rules: Rules, n: Node, b: Block) {
    Some(Commit(rules, Finalize(rules, n.app, b).0).committed) == NextState(rules, n.app.committed, b)
  }

  /** What saving the outcome of executing block `x` would leave when block `b` is finalized. */
  ghost function SavedAs(rules: Rules, committed: AppState, x: Block, b: Block): Option<AppState> {
    var e := Execute(rules, committed, x);
    var scheduled := rules.schedule(e.state.content, b);
    if scheduled.None? then None else Some(AppState(rules.seal(scheduled.value), e.state.version))
  }

  /** Exactly when the committed state is right. FinalizeBlock trusts the cache without looking at the
      working state, so the answer is: if the cache did not answer, or if the last call to write the
      working state executed a block of the same outcome. After a PrepareProposal, or after a failing
      execution, it is never right: the node saves a state of the previous height. */
  lemma FaithfulExactly(rules: Rules, named: Bytes -> Block, n: Node, b: Block, n': Node)
    requires Inv(rules, named, n) && Step(rules, named, n, FinalizeBlock(b), n')
    ensures Faithful(rules, n, b) <==>
            || !CacheHit(n.app, b)
            || (n.held.Executed? && SavedAs(rules, n.app.committed, n.held.block, b) == SavedAs(rules, n.app.committed, b, b))
    ensures Undisturbed(n, b) ==> Faithful(rules, n, b)
  {
  }

  /** The failing case, for every application and every block: a validator accepts the block, is asked
      for a proposal of its own, and then the block is decided. The answer is that of the block, but
      what is saved is the old state, at the old height. */
  lemma PrepareProposalLosesTheBlock(rules: Rules, app: App, b: Block)
    requires Executes(rules, app, b) && Process(rules, app, b).1 == Accept
    ensures var prepared := AfterPrepare(Process(rules, app, b).0);
            var r := Finalize(rules, prepared, b);
            r.1.Response? ==>
              && Execute(rules, app.committed, b).Done? && r.1.appHash == Execute(rules, app.committed, b).root
              && Commit(rules, r.0).committed.version == app.committed.version
              && rules.schedule(app.committed.content, b).Some?
              && Commit(rules, r.0).committed.content == rules.seal(rules.schedule(app.committed.content, b).value)
              && (b.height != app.committed.version ==> Some(Commit(rules, r.0).committed) != NextState(rules, app.committed, b))
  {
  }

  /** No other block of that height comes out as `b` does. */
  ghost predicate OnlyOutcome(rules: Rules, named: Bytes -> Block, committed: AppState, b: Block) {
    forall x: Block {:trigger SavedAs(rules, committed, x, b)} :: x != b && named(x.hash) == x && x.height == b.height ==>
      Execute(rules, committed, x).Done? ==> SavedAs(rules, committed, x, b) != SavedAs(rules, committed, b, b)
  }

  /** In terms of the calls alone: when no other block comes out as `b` does, the committed state is right
      if and only if nothing touched the working state between the accepting ProcessProposal of `b` and its
      FinalizeBlock, or the cache did not answer. */
  lemma FaithfulIffUndisturbed(rules: Rules, named: Bytes -> Block, n: Node, b: Block, n': Node)
    requires Inv(rules, named, n) && Step(rules, named, n, FinalizeBlock(b), n')
    requires OnlyOutcome(rules, named, n.app.committed, b)
    ensures Faithful(rules, n, b) <==> Undisturbed(n, b)
  {
    FaithfulExactly(rules, named, n, b, n');
  }

  /** The other failing case, for every application: a validator accepts a block, then executes and rejects
      another one, and then the first is decided. The answer is that of the decided block; what is saved is
      the outcome of the rejected one. */
  lemma RejectedProposalReplacesTheBlock(rules: Rules, app: App, b: Block, rejected: Block)
    requires Executes(rules, app, b) && Process(rules, app, b).1 == Accept
    requires Executes(rules, app, rejected) && Process(rules, Process(rules, app, b).0, rejected).1 == Reject
    ensures var r := Finalize(rules, Process(rules, Process(rules, app, b).0, rejected).0, b);
            r.1.Response? ==>
              && Execute(rules, app.committed, b).Done? && r.1.appHash == Execute(rules, app.committed, b).root
              && SavedAs(rules, app.committed, rejected, b) == Some(Commit(rules, r.0).committed)
              && (Some(Commit(rules, r.0).committed) == NextState(rules, app.committed, b) <==>
                    SavedAs(rules, app.committed, rejected, b) == SavedAs(rules, app.committed, b, b))
  {
    var accepted := Process(rules, app, b).0;
    assert accepted.committed == app.committed && CacheHit(accepted, b);
    var after := Process(rules, accepted, rejected).0;
    assert after.cache == accepted.cache && after.working == Execute(rules, app.committed, rejected).state;
  }

  /** An application that records its transactions and refuses the empty one. */
  const RECORDER: Rules := Rules(
    (c, t) => c,
    tx => true,
    tx => None,
    (c: Content, h: nat, tx: Bytes) => if tx == [] then (c, TxResult(1, [])) else (c[tx := tx], TxResult(0, [])),
    (c, h, t) => Some(c),
    (c, b) => Some(c),
    c => c,
    c => Some(true),
    c => [],
    0)

  lemma DeliverTwo(rules: Rules, c: Content, h: nat, x: Bytes, y: Bytes)
    ensures var a := Deliver(rules, c, h, x);
            var b := Deliver(rules, a.0, h, y);
            DeliverAll(rules, c, h, [x, y]) == (b.0, [a.1, b.1])
  {
    DeliverAppend(rules, c, h, [], x);
    DeliverAppend(rules, c, h, [] + [x], y);
    assert [] + [x] + [y] == [x, y];
    var a := Deliver(rules, c, h, x);
    var b := Deliver(rules, a.0, h, y);
    assert [] + [a.1] + [b.1] == [a.1, b.1];
  }

  /** The failure happens: an empty block is accepted and decided, and the transaction of a rejected block
      ends up in the committed state. */
  lemma RejectedTransactionIsCommitted(app: App, b: Block, rejected: Block, tx: Bytes)
    requires b.txs == [] && tx != [] && rejected.txs == [tx, []] && tx !in app.committed.content
    ensures Executes(RECORDER, app, b) && Process(RECORDER, app, b).1 == Accept
    ensures Process(RECORDER, Process(RECORDER, app, b).0, rejected).1 == Reject
    ensures var r := Finalize(RECORDER, Process(RECORDER, Process(RECORDER, app, b).0, rejected).0, b);
            && r.1.Response?
            && tx in Commit(RECORDER, r.0).committed.content
            && NextState(RECORDER, app.committed, b).Some? && tx !in NextState(RECORDER, app.committed, b).value.content
  {
    DeliverTwo(RECORDER, app.committed.content, rejected.height, tx, []);
    var e, f := Execute(RECORDER, app.committed, b), Execute(RECORDER, app.committed, rejected);
    assert e == Done(AppState(app.committed.content, b.height), [], []);
    assert f.Done? && f.state.content == app.committed.content[tx := tx] && f.responses[1].code == 1;
    assert !AllValid(f.responses);
    var accepted := Process(RECORDER, app, b).0;
    assert accepted.cache == Cache(Some([]), b.hash, []) && accepted.committed == app.committed;
    var after := Process(RECORDER, accepted, rejected).0;
    assert after.cache == accepted.cache && after.working == f.state;
  }

  // ---------------------------------------------------------------- replica agreement

  /** Every FinalizeBlock of the run found the working state undisturbed. */
  ghost predicate UndisturbedRun(nodes: seq<Node>, calls: seq<Call>) {
    |nodes| == |calls| + 1 && forall i :: 0 <= i < |calls| && calls[i].FinalizeBlock? ==> Undisturbed(nodes[i], calls[i].block)
  }

  /** The committed state is the replay of the committed blocks; once a block is decided, committing
      makes it the replay with that block. */
  ghost predicate OnTrack(rules: Rules, genesis: AppState, n: Node) {
    && Replay(rules, genesis, n.blocks) == Some(n.app.committed)
    && (n.decided.Some? ==> NextState(rules, n.app.committed, n.decided.value) == Some(Commit(rules, n.app).committed))
    && n.answers == AnswersFor(rules, genesis, if n.decided.Some? then n.blocks + [n.decided.value] else n.blocks)
  }

  /** The answers a node that executes every block gives. */
  ghost function AnswersFor(rules: Rules, genesis: AppState, blocks: seq<Block>): seq<Finalized> {
    if blocks == [] then []
    else
      var init := blocks[..|blocks| - 1];
      var before := Replay(rules, genesis, init);
      var e := if before.None? then Failed(genesis) else Execute(rules, before.value, blocks[|blocks| - 1]);
      AnswersFor(rules, genesis, init) + [if e.Failed? then Halted else Response(e.root, e.responses)]
  }

  lemma AnswersAppend(rules: Rules, genesis: AppState, blocks: seq<Block>, committed: AppState, b: Block)
    requires Replay(rules, genesis, blocks) == Some(committed)
    ensures Replay(rules, genesis, blocks + [b]) == NextState(rules, committed, b)
    ensures var e := Execute(rules, committed, b);
            AnswersFor(rules, genesis, blocks + [b]) == AnswersFor(rules, genesis, blocks) + [if e.Failed? then Halted else Response(e.root, e.responses)]
  {
    assert (blocks + [b])[..|blocks|] == blocks;
  }

  lemma FinalizeStaysOnTrack(rules: Rules, named: Bytes -> Block, genesis: AppState, n: Node, b: Block, n': Node)
    requires Inv(rules, named, n) && OnTrack(rules, genesis, n)
    requires Step(rules, named, n, FinalizeBlock(b), n') && Undisturbed(n, b)
    ensures OnTrack(rules, genesis, n')
  {
    FaithfulExactly(rules, named, n, b, n');
    AnswerIsFresh(rules, named, n, b, n');
    AnswersAppend(rules, genesis, n.blocks, n.app.committed, b);
  }

  lemma StepStaysOnTrack(rules: Rules, named: Bytes -> Block, genesis: AppState, n: Node, call: Call, n': Node)
    requires Inv(rules, named, n) && OnTrack(rules, genesis, n) && Step(rules, named, n, call, n')
    requires call.FinalizeBlock? ==> Undisturbed(n, call.block)
    ensures OnTrack(rules, genesis, n')
  {
    if call.FinalizeBlock? {
      FinalizeStaysOnTrack(rules, named, genesis, n, call.block, n');
    } else if call.CommitBlock? {
      CommitStaysOnTrack(rules, named, genesis, n, call, n');
    }
  }

  lemma CommitStaysOnTrack(rules: Rules, named: Bytes -> Block, genesis: AppState, n: Node, call: Call, n': Node)
    requires OnTrack(rules, genesis, n) && call.CommitBlock? && Step(rules, named, n, call, n')
    ensures OnTrack(rules, genesis, n')
  {
    AnswersAppend(rules, genesis, n.blocks, n.app.committed, n.decided.value);
  }

  lemma {:induction false} RunStaysOnTrack(rules: Rules, named: Bytes -> Block, genesis: AppState, nodes: seq<Node>, calls: seq<Call>, i: nat)
    requires Run(rules, named, genesis, nodes, calls) && UndisturbedRun(nodes, calls) && i < |nodes|
    ensures OnTrack(rules, genesis, nodes[i])
    decreases i
  {
    if i > 0 {
      RunStaysOnTrack(rules, named, genesis, nodes, calls, i - 1);
      RunKeepsInv(rules, named, genesis, nodes, calls, i - 1);
      StepStaysOnTrack(rules, named, genesis, nodes[i - 1], calls[i - 1], nodes[i]);
    }
  }

  /** Block by block: in an undisturbed run, each commit leads from one committed state to the next as the
      decided block says, transaction by transaction, and what was announced is the root of the state after
      the transitions. */
  lemma CommitsDecide(rules: Rules, named: Bytes -> Block, genesis: AppState, nodes: seq<Node>, calls: seq<Call>, i: nat) returns (states: seq<Content>)
    requires Run(rules, named, genesis, nodes, calls) && UndisturbedRun(nodes, calls) && i < |calls| && calls[i].CommitBlock?
    ensures nodes[i].decided.Some? && nodes[i].answers != []
    ensures Decides(rules, nodes[i].app.committed, nodes[i].decided.value, states,
                    nodes[i].answers[|nodes[i].answers| - 1], nodes[i + 1].app.committed)
  {
    RunStaysOnTrack(rules, named, genesis, nodes, calls, i);
    StepAt(rules, named, genesis, nodes, calls, i);
    states := CommitDecides(rules, named, genesis, nodes[i], nodes[i + 1]);
  }

  lemma StepAt(rules: Rules, named: Bytes -> Block, genesis: AppState, nodes: seq<Node>, calls: seq<Call>, i: nat)
    requires Run(rules, named, genesis, nodes, calls) && i < |calls|
    ensures Step(rules, named, nodes[i], calls[i], nodes[i + 1])
  {
  }

  lemma CommitDecides(rules: Rules, named: Bytes -> Block, genesis: AppState, n: Node, n': Node) returns (states: seq<Content>)
    requires OnTrack(rules, genesis, n) && Step(rules, named, n, CommitBlock, n')
    ensures n.answers != []
    ensures Decides(rules, n.app.committed, n.decided.value, states, n.answers[|n.answers| - 1], n'.app.committed)
  {
    var b := n.decided.value;
    AnswersAppend(rules, genesis, n.blocks, n.app.committed, b);
    states := NextStateDecides(rules, n.app.committed, b);
  }

  /** The verdict of a validator, in terms of the trace of the block: accepted exactly when every transaction
      passes and the transitions succeed, rejected for a transaction that does not pass, failed for
      transitions that do not succeed. */
  lemma VerdictExactly(rules: Rules, app: App, b: Block, states: seq<Content>, responses: seq<TxResult>)
    requires Executes(rules, app, b) && Trace(rules, app.committed, b, states, responses)
    ensures var v, passes := Process(rules, app, b).1, forall i :: 0 <= i < |b.txs| ==> responses[i].code == 0;
            && (v == Accept <==> passes && Moved(rules, b, states).Some?)
            && (v == Reject <==> !passes && Moved(rules, b, states).Some?)
            && (v == Failure <==> Moved(rules, b, states).None?)
  {
    var own := ExecutionHasTrace(rules, app.committed, b);
    var e := Execute(rules, app.committed, b);
    var delivered := DeliverAll(rules, rules.setTime(app.committed.content, b.time), b.height, b.txs);
    var again := DeliveryHasTrace(rules, rules.setTime(app.committed.content, b.time), b.height, b.txs);
    assert Trace(rules, app.committed, b, again, delivered.1);
    TracesAgree(rules, app.committed, b, states, responses, again, delivered.1, |b.txs|);
  }

  /** Replica agreement: two nodes of one chain whose proposals were not disturbed, whatever else was
      prepared and processed on each, have the same committed state and have given the same answers
      (application hashes and results) once they have committed the same blocks. */
  lemma ReplicasAgree(rules: Rules, rules': Rules, named: Bytes -> Block, genesis: AppState,
                      nodes1: seq<Node>, calls1: seq<Call>, i: nat, nodes2: seq<Node>, calls2: seq<Call>, j: nat)
    requires SameChain(rules, rules')
    requires Run(rules, named, genesis, nodes1, calls1) && UndisturbedRun(nodes1, calls1) && i < |nodes1|
    requires Run(rules', named, genesis, nodes2, calls2) && UndisturbedRun(nodes2, calls2) && j < |nodes2|
    requires nodes1[i].blocks == nodes2[j].blocks && nodes1[i].decided.None? && nodes2[j].decided.None?
    ensures nodes1[i].app.committed == nodes2[j].app.committed
    ensures nodes1[i].answers == nodes2[j].answers
  {
    RunStaysOnTrack(rules, named, genesis, nodes1, calls1, i);
    RunStaysOnTrack(rules', named, genesis, nodes2, calls2, j);
    SameReplay(rules, rules', genesis, nodes1[i].blocks);
  }

  /** The nodes run the same application; they may be validators or not. */
  ghost predicate SameChain(r: Rules, r': Rules) {
    r' == r.(validator := r'.validator)
  }

  lemma {:induction false} SameDelivery(r: Rules, r': Rules, content: Content, height: nat, txs: seq<Bytes>)
    requires SameChain(r, r')
    ensures DeliverAll(r, content, height, txs) == DeliverAll(r', content, height, txs)
    decreases |txs|
  {
    if txs != [] {
      SameDelivery(r, r', content, height, txs[..|txs| - 1]);
    }
  }

  lemma {:induction false} SameReplay(r: Rules, r': Rules, genesis: AppState, blocks: seq<Block>)
    requires SameChain(r, r')
    ensures Replay(r, genesis, blocks) == Replay(r', genesis, blocks)
    ensures AnswersFor(r, genesis, blocks) == AnswersFor(r', genesis, blocks)
    decreases |blocks|
  {
    if blocks != [] {
      var init, b := blocks[..|blocks| - 1], blocks[|blocks| - 1];
      SameReplay(r, r', genesis, init);
      var before := Replay(r, genesis, init);
      if before.Some? {
        SameDelivery(r, r', r.setTime(before.value.content, b.time), b.height, b.txs);
      }
    }
  }
}
