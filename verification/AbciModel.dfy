/** The ABCI side of the application on values: execution of a block, and what each of the four
    calls of the consensus engine does to the committed state, the working state and the cache of
    the last executed proposal. */
module AbciModel {
  import opened Base

  /** Everything stored in the state: trees and auxiliary data. */
  type Content = map<Bytes, Bytes>

  /** A state of the application; `version` is the height it was prepared for. */
  datatype AppState = AppState(content: Content, version: nat)

  datatype TxResult = TxResult(code: nat, data: Bytes)

  /** What the mempool and the proposer see of a transaction: the sender, if it has one, and the nonce. */
  datatype TxInfo = TxInfo(sender: Option<nat>, nonce: nat)

  datatype Block = Block(hash: Bytes, height: nat, time: nat, txs: seq<Bytes>)

  /** The deterministic parts of the application that the calls are built from: the state's clock,
      decoding sender and nonce of a transaction, its execution at a height, the internal transitions at the end of a block, the
      scheduling of the score update for the next block, what saving adds to the state, whether this
      node is a validator of a state, and the root of a state. */
  datatype Rules = Rules(
    setTime: (Content, nat) -> Content,
    decodes: Bytes -> bool,
    extract: Bytes -> Option<TxInfo>,
    check: (Content, nat, Bytes) -> (Content, TxResult),
    transitions: (Content, nat, nat) -> Option<Content>,
    schedule: (Content, Block) -> Option<Content>,
    seal: Content -> Content,
    validator: Content -> Option<bool>,
    root: Content -> Bytes,
    endOfChain: nat)

  // ---------------------------------------------------------------- execution of a block

  /** deliverTx. */
  function Deliver(rules: Rules, content: Content, height: nat, tx: Bytes): (Content, TxResult) {
    if !rules.decodes(tx) then (content, TxResult(1, [])) else rules.check(content, height, tx)
  }

  /** The transactions of a block, one after the other. */
  function DeliverAll(rules: Rules, content: Content, height: nat, txs: seq<Bytes>): (r: (Content, seq<TxResult>))
    ensures |r.1| == |txs|
  {
    if txs == [] then (content, [])
    else
      var before := DeliverAll(rules, content, height, txs[..|txs| - 1]);
      var last := Deliver(rules, before.0, height, txs[|txs| - 1]);
      (last.0, before.1 + [last.1])
  }

  lemma DeliverAppend(rules: Rules, content: Content, height: nat, txs: seq<Bytes>, tx: Bytes)
    ensures var before := DeliverAll(rules, content, height, txs);
            var last := Deliver(rules, before.0, height, tx);
            DeliverAll(rules, content, height, txs + [tx]) == (last.0, before.1 + [last.1])
  {
    assert (txs + [tx])[..|txs|] == txs;
  }

  /** What became of an execution: the working state it left, and the responses and root if it got
      to the end. */
  datatype Execution =
    | Failed(state: AppState)
    | Done(state: AppState, responses: seq<TxResult>, root: Bytes)

  /** Executing a block on a committed state. */
  function Execute(rules: Rules, committed: AppState, b: Block): (e: Execution)
    ensures e.Done? ==> |e.responses| == |b.txs| && e.state.version == b.height
    ensures e.Done? ==> e.root == rules.root(e.state.content)
    ensures e.Failed? ==> e.state.version == committed.version
  {
    var delivered := DeliverAll(rules, rules.setTime(committed.content, b.time), b.height, b.txs);
    var moved := rules.transitions(delivered.0, b.height, b.time);
    if moved.None? then Failed(AppState(delivered.0, committed.version))
    else Done(AppState(moved.value, b.height), delivered.1, rules.root(moved.value))
  }

  // ---------------------------------------------------------------- execution as a trace

  /** The transaction number `i` is delivered between two states: one that does not decode is answered with
      an error code and changes nothing, any other does what its check does at this height. */
  ghost predicate DeliveredAt(rules: Rules, height: nat, txs: seq<Bytes>, states: seq<Content>, responses: seq<TxResult>, i: nat)
    requires |states| == |txs| + 1 && |responses| == |txs| && i < |txs|
  {
    if rules.decodes(txs[i]) then rules.check(states[i], height, txs[i]) == (states[i + 1], responses[i])
    else states[i + 1] == states[i] && responses[i].code == 1
  }

  /** The states that the transactions of a block lead through, from the committed state with the clock set. */
  ghost predicate Trace(rules: Rules, committed: AppState, b: Block, states: seq<Content>, responses: seq<TxResult>) {
    && |states| == |b.txs| + 1 && |responses| == |b.txs|
    && states[0] == rules.setTime(committed.content, b.time)
    && forall i :: 0 <= i < |b.txs| ==> DeliveredAt(rules, b.height, b.txs, states, responses, i)
  }

  /** The content after the internal transitions that follow the transactions. */
  ghost function Moved(rules: Rules, b: Block, states: seq<Content>): Option<Content>
    requires |states| == |b.txs| + 1
  {
    rules.transitions(states[|b.txs|], b.height, b.time)
  }

  /** An execution is a trace and the transitions after it; its root is that of the state it leaves. */
  ghost predicate IsExecution(rules: Rules, committed: AppState, b: Block, states: seq<Content>, e: Execution) {
    && |states| == |b.txs| + 1
    && (e.Done? <==> Moved(rules, b, states).Some?)
    && (e.Done? ==>
          && Trace(rules, committed, b, states, e.responses)
          && e.state == AppState(Moved(rules, b, states).value, b.height)
          && e.root == rules.root(Moved(rules, b, states).value))
    && (e.Failed? ==> e.state == AppState(states[|b.txs|], committed.version))
  }

  lemma {:induction false} DeliveryHasTrace(rules: Rules, content: Content, height: nat, txs: seq<Bytes>) returns (states: seq<Content>)
    ensures |states| == |txs| + 1 && states[0] == content && states[|txs|] == DeliverAll(rules, content, height, txs).0
    ensures forall i :: 0 <= i < |txs| ==> DeliveredAt(rules, height, txs, states, DeliverAll(rules, content, height, txs).1, i)
    decreases |txs|
  {
    if txs == [] {
      states := [content];
    } else {
      var init := txs[..|txs| - 1];
      var before := DeliveryHasTrace(rules, content, height, init);
      var responses, all := DeliverAll(rules, content, height, init).1, DeliverAll(rules, content, height, txs).1;
      states := before + [DeliverAll(rules, content, height, txs).0];
      forall i | 0 <= i < |txs| ensures DeliveredAt(rules, height, txs, states, all, i) {
        if i < |init| {
          assert DeliveredAt(rules, height, init, before, responses, i);
        }
      }
    }
  }

  lemma ExecutionHasTrace(rules: Rules, committed: AppState, b: Block) returns (states: seq<Content>)
    ensures IsExecution(rules, committed, b, states, Execute(rules, committed, b))
  {
    states := DeliveryHasTrace(rules, rules.setTime(committed.content, b.time), b.height, b.txs);
  }

  /** There is only one execution: any trace of the block, whoever made it, ends as Execute says. */
  lemma {:induction false} TracesAgree(rules: Rules, committed: AppState, b: Block, s1: seq<Content>, r1: seq<TxResult>, s2: seq<Content>, r2: seq<TxResult>, n: nat)
    requires Trace(rules, committed, b, s1, r1) && Trace(rules, committed, b, s2, r2) && n <= |b.txs|
    ensures s1[n] == s2[n] && forall i :: 0 <= i < n ==> r1[i].code == r2[i].code
    decreases n
  {
    if n > 0 {
      TracesAgree(rules, committed, b, s1, r1, s2, r2, n - 1);
      assert DeliveredAt(rules, b.height, b.txs, s1, r1, n - 1) && DeliveredAt(rules, b.height, b.txs, s2, r2, n - 1);
    }
  }

  /** A clock is set by setTime and by nothing else. */
  ghost predicate IsClock(rules: Rules, clock: Content -> nat) {
    && (forall c: Content, t: nat :: clock(rules.setTime(c, t)) == t)
    && (forall c: Content, h: nat, tx: Bytes :: clock(rules.check(c, h, tx).0) == clock(c))
    && (forall c: Content, h: nat, t: nat :: rules.transitions(c, h, t).Some? ==> clock(rules.transitions(c, h, t).value) == clock(c))
  }

  lemma {:induction false} ClockThroughTrace(rules: Rules, clock: Content -> nat, committed: AppState, b: Block, states: seq<Content>, responses: seq<TxResult>, n: nat)
    requires IsClock(rules, clock) && Trace(rules, committed, b, states, responses) && n <= |b.txs|
    ensures clock(states[n]) == b.time
    decreases n
  {
    if n > 0 {
      ClockThroughTrace(rules, clock, committed, b, states, responses, n - 1);
      assert DeliveredAt(rules, b.height, b.txs, states, responses, n - 1);
    }
  }

  /** A block leaves the clock of the state at its own time. */
  lemma ClockIsBlockTime(rules: Rules, clock: Content -> nat, committed: AppState, b: Block)
    requires IsClock(rules, clock) && Execute(rules, committed, b).Done?
    ensures clock(Execute(rules, committed, b).state.content) == b.time
  {
    var states := ExecutionHasTrace(rules, committed, b);
    ClockThroughTrace(rules, clock, committed, b, states, Execute(rules, committed, b).responses, |b.txs|);
  }

  predicate AllValid(responses: seq<TxResult>) {
    forall i :: 0 <= i < |responses| ==> responses[i].code == 0
  }

  // ---------------------------------------------------------------- the four calls

  /** The result of the last proposal accepted by this node, kept for FinalizeBlock. */
  datatype Cache = Cache(root: Option<Bytes>, blockHash: Bytes, responses: seq<TxResult>)

  /** `height` is the height the last execution was for; rolling back does not reset it. */
  datatype App = App(committed: AppState, working: AppState, height: nat, cache: Cache)

  datatype Verdict = Accept | Reject | Failure

  /** PrepareProposal leaves the working state rolled back and the cache as it was. */
  function AfterPrepare(app: App): App {
    app.(working := app.committed)
  }

  /** ProcessProposal: the verdict and the new state. */
  function Process(rules: Rules, app: App, b: Block): (App, Verdict) {
    if rules.endOfChain > 0 && b.height > rules.endOfChain then (app, Reject)
    else
      var validator := rules.validator(app.committed.content);
      if validator.None? then (app, Failure)
      else if !validator.value then (app.(cache := Cache(None, [], [])), Accept)
      else
        var e := Execute(rules, app.committed, b);
        if e.Failed? then (app.(working := e.state, height := b.height), Failure)
        else if !AllValid(e.responses) then (app.(working := e.state, height := b.height), Reject)
        else (app.(working := e.state, height := b.height, cache := Cache(Some(e.root), b.hash, e.responses)), Accept)
  }

  /** The cache holds the result for a block with this hash. */
  predicate CacheHit(app: App, b: Block) {
    app.cache.root.Some? && app.cache.blockHash == b.hash
  }

  datatype Finalized =
    | Halted
    | Response(appHash: Bytes, results: seq<TxResult>)

  /** FinalizeBlock: answers from the cache when it can, executes the block when it cannot, and
      schedules the score update in the working state. More responses than transactions would write
      past the end of the results. */
  function Finalize(rules: Rules, app: App, b: Block): (App, Finalized) {
    if CacheHit(app, b) then FinishFinalize(rules, app, b, app.cache.root.value, app.cache.responses)
    else
      var e := Execute(rules, app.committed, b);
      if e.Failed? then (app.(working := e.state, height := b.height), Halted)
      else FinishFinalize(rules, app.(working := e.state, height := b.height), b, e.root, e.responses)
  }

  function FinishFinalize(rules: Rules, app: App, b: Block, root: Bytes, responses: seq<TxResult>): (App, Finalized) {
    if |responses| > |b.txs| then (app, Halted)
    else
      var scheduled := rules.schedule(app.working.content, b);
      if scheduled.None? then (app, Halted)
      else (app.(working := app.working.(content := scheduled.value)), Response(root, responses))
  }

  /** Commit saves the working state. */
  function Commit(rules: Rules, app: App): App {
    var saved := AppState(rules.seal(app.working.content), app.working.version);
    app.(committed := saved, working := saved)
  }

  // ---------------------------------------------------------------- what a decided block should do

  /** The reference: execute the block on the committed state, schedule, save. */
  function NextState(rules: Rules, committed: AppState, b: Block): Option<AppState> {
    var e := Execute(rules, committed, b);
    if e.Failed? then None
    else
      var scheduled := rules.schedule(e.state.content, b);
      if scheduled.None? then None else Some(AppState(rules.seal(scheduled.value), b.height))
  }

  /** The state after a sequence of decided blocks. */
  function Replay(rules: Rules, genesis: AppState, blocks: seq<Block>): Option<AppState> {
    if blocks == [] then Some(genesis)
    else
      var before := Replay(rules, genesis, blocks[..|blocks| - 1]);
      if before.None? then None else NextState(rules, before.value, blocks[|blocks| - 1])
  }

  /** A decided block leads from one committed state to the next: the transactions in turn, the transitions,
      whose outcome has the announced root, the scheduling, the sealing, at the height of the block. */
  ghost predicate Decides(rules: Rules, committed: AppState, b: Block, states: seq<Content>, answer: Finalized, saved: AppState) {
    && answer.Response? && Trace(rules, committed, b, states, answer.results)
    && Moved(rules, b, states).Some?
    && var moved := Moved(rules, b, states).value;
    && answer.appHash == rules.root(moved)
    && rules.schedule(moved, b).Some?
    && saved == AppState(rules.seal(rules.schedule(moved, b).value), b.height)
  }

  /** The reference is just that. */
  lemma NextStateDecides(rules: Rules, committed: AppState, b: Block) returns (states: seq<Content>)
    requires NextState(rules, committed, b).Some?
    ensures var e := Execute(rules, committed, b);
            e.Done? && Decides(rules, committed, b, states, Response(e.root, e.responses), NextState(rules, committed, b).value)
  {
    states := ExecutionHasTrace(rules, committed, b);
  }
}
