/** The application object behind the ABCI calls. Each call is proved to do what AbciModel says. */
module AbciApp {
  import opened Base
  import opened AbciModel
  import opened Proposals

  class BaseApplication {
    const rules: Rules
    var committed: AppState
    var working: AppState
    var height: nat
    var lastRootHash: Option<Bytes>
    var lastBlockHash: Bytes
    var lastDeliverTxResponse: seq<TxResult>

    constructor (rules: Rules, genesis: AppState)
      ensures this.rules == rules
      ensures State() == App(genesis, genesis, genesis.version, Cache(None, [], []))
    {
      this.rules := rules;
      committed, working, height := genesis, genesis, genesis.version;
      lastRootHash, lastBlockHash, lastDeliverTxResponse := None, [], [];
    }

    ghost function State(): App
      reads this
    {
      App(committed, working, height, Cache(lastRootHash, lastBlockHash, lastDeliverTxResponse))
    }

    method Rollback()
      modifies this`working
      ensures working == committed
    {
      working := committed;
    }

    /** Executes a block on the committed state, discarding what the working state held. The invalid
        transactions are the positions of the responses with a code other than zero. */
    method ExecuteBlock(b: Block) returns (e: Execution, invalid: seq<nat>)
      modifies this`working, this`height
      ensures e == Execute(rules, committed, b) && working == e.state && height == b.height
      ensures e.Done? ==> (invalid == [] <==> AllValid(e.responses))
      ensures e.Done? ==> forall i: nat :: i in invalid <==> i < |b.txs| && e.responses[i].code != 0
      ensures exists states :: IsExecution(rules, committed, b, states, e)
    {
      Rollback();
      working := working.(content := rules.setTime(working.content, b.time));
      height := b.height;
      ghost var start := working.content;
      var responses := [];
      invalid := [];
      for i := 0 to |b.txs|
        invariant working.version == committed.version && height == b.height
        invariant DeliverAll(rules, start, b.height, b.txs[..i]) == (working.content, responses)
        invariant (invalid == []) == AllValid(responses)
        invariant |responses| == i && forall j: nat :: j in invalid <==> j < i && responses[j].code != 0
      {
        var delivered := Deliver(rules, working.content, b.height, b.txs[i]);
        assert b.txs[..i + 1] == b.txs[..i] + [b.txs[i]];
        DeliverAppend(rules, start, b.height, b.txs[..i], b.txs[i]);
        if delivered.1.code != 0 {
          invalid := invalid + [i];
        }
        ValidAppend(responses, delivered.1);
        working := working.(content := delivered.0);
        responses := responses + [delivered.1];
      }
      assert b.txs[..|b.txs|] == b.txs;
      ghost var states := ExecutionHasTrace(rules, committed, b);
      var moved := rules.transitions(working.content, b.height, b.time);
      if moved.None? {
        return Failed(working), invalid;
      }
      working := AppState(moved.value, b.height);
      e := Done(working, responses, rules.root(working.content));
    }

    /** What the proposer gets: transactions of the mempool, none more often than it came, ordered by
        sender and nonce, each passing when tried in that order; and no trace in the state. */
    method PrepareProposal(txs: seq<Bytes>)
      returns (proposal: seq<Bytes>, ghost tried: seq<Candidate>, ghost states: seq<Content>, ghost places: seq<nat>)
      modifies this`working
      ensures State() == AfterPrepare(old(State()))
      ensures forall tx: Bytes :: multiset(Transactions(tried))[tx] ==
                if rules.decodes(tx) && rules.extract(tx).Some? then multiset(txs)[tx] else 0
      ensures forall i :: 0 <= i < |tried| ==> rules.extract(tried[i].tx) == Some(tried[i].info)
      ensures InOrder(tried) && Chooses(rules, committed.content, height, tried, states, places, proposal)
      ensures multiset(tried) == multiset(Candidates(rules, txs)) && Ordered(tried)
      ensures proposal == Transactions(Passing(rules, committed.content, height, tried).1)
      ensures multiset(proposal) <= multiset(txs)
    {
      Rollback();
      var candidates := Collect(txs);
      var sorted := Sort(candidates);
      tried := sorted;
      ghost var passed;
      proposal, passed := Try(sorted);
      Rollback();
      PassedAreInput(rules, txs, committed.content, height, sorted);
      states, places := PassingChooses(rules, committed.content, height, sorted);
      SortedCandidates(rules, txs, candidates, sorted);
    }

    /** The first loop of PrepareProposal: what decodes and has a readable sender and nonce. */
    method Collect(txs: seq<Bytes>) returns (candidates: seq<Candidate>)
      ensures candidates == Candidates(rules, txs)
    {
      candidates := [];
      for i := 0 to |txs|
        invariant candidates == Candidates(rules, txs[..i])
      {
        assert txs[..i + 1][..i] == txs[..i];
        if rules.decodes(txs[i]) && rules.extract(txs[i]).Some? {
          candidates := candidates + [Candidate(txs[i], rules.extract(txs[i]).value)];
        }
      }
      assert txs[..|txs|] == txs;
    }

    /** The second loop: each is tried on the working state. */
    method Try(cs: seq<Candidate>) returns (proposal: seq<Bytes>, ghost passed: seq<Candidate>)
      modifies this`working
      ensures working.version == old(working.version)
      ensures (working.content, passed) == Passing(rules, old(working.content), height, cs)
      ensures proposal == Transactions(passed)
    {
      proposal, passed := [], [];
      for i := 0 to |cs|
        invariant working.version == old(working.version)
        invariant (working.content, passed) == Passing(rules, old(working.content), height, cs[..i])
        invariant proposal == Transactions(passed)
      {
        assert cs[..i + 1][..i] == cs[..i];
        var checked := rules.check(working.content, height, cs[i].tx);
        working := working.(content := checked.0);
        if checked.1.code == 0 {
          TransactionsAppend(passed, cs[i]);
          proposal, passed := proposal + [cs[i].tx], passed + [cs[i]];
        }
      }
      assert cs[..|cs|] == cs;
    }

    method ProcessProposal(b: Block) returns (v: Verdict)
      modifies this
      ensures (State(), v) == Process(rules, old(State()), b)
    {
      if rules.endOfChain > 0 && b.height > rules.endOfChain {
        return Reject;
      }
      var validator := rules.validator(committed.content);
      if validator.None? {
        return Failure;
      }
      if !validator.value {
        lastRootHash, lastBlockHash, lastDeliverTxResponse := None, [], [];
        return Accept;
      }
      var e, invalid := ExecuteBlock(b);
      if e.Failed? {
        return Failure;
      }
      if |invalid| > 0 {
        return Reject;
      }
      lastRootHash, lastBlockHash, lastDeliverTxResponse := Some(e.root), b.hash, e.responses;
      return Accept;
    }

    method FinalizeBlock(b: Block) returns (r: Finalized)
      modifies this`working, this`height
      ensures (State(), r) == Finalize(rules, old(State()), b)
    {
      var root, responses;
      if lastRootHash.None? || lastBlockHash != b.hash {
        var e, _ := ExecuteBlock(b);
        if e.Failed? {
          return Halted;
        }
        root, responses := e.root, e.responses;
      } else {
        root, responses := lastRootHash.value, lastDeliverTxResponse;
      }
      if |responses| > |b.txs| {
        return Halted;
      }
      var scheduled := rules.schedule(working.content, b);
      if scheduled.None? {
        return Halted;
      }
      working := working.(content := scheduled.value);
      return Response(root, responses);
    }

    method CommitState()
      modifies this`committed, this`working
      ensures State() == Commit(rules, old(State()))
    {
      committed := AppState(rules.seal(working.content), working.version);
      working := committed;
    }
  }

  /** The undisturbed way of a block: proposed, accepted, decided and committed, from whatever state the
      application was in. What is saved is the execution of the block on the committed state, what was
      announced is its root, and the next block starts from what was saved. */
  method DecideBlock(app: BaseApplication, b: Block) returns (v: Verdict, r: Finalized)
    modifies app
    ensures v == Accept && r.Response? ==>
              && Some(app.committed) == NextState(app.rules, old(app.committed), b)
              && r.appHash == Execute(app.rules, old(app.committed), b).root
              && app.working == app.committed
              && exists states :: Decides(app.rules, old(app.committed), b, states, r, app.committed)
    ensures !(v == Accept && r.Response?) ==> app.committed == old(app.committed)
  {
    v := app.ProcessProposal(b);
    if v != Accept {
      return v, Halted;
    }
    r := app.FinalizeBlock(b);
    if r.Response? {
      app.CommitState();
      ghost var states := NextStateDecides(app.rules, old(app.committed), b);
    }
  }

  lemma ValidAppend(responses: seq<TxResult>, r: TxResult)
    ensures AllValid(responses + [r]) <==> AllValid(responses) && r.code == 0
  {
    if AllValid(responses + [r]) {
      assert (responses + [r])[|responses|] == r;
      assert forall i :: 0 <= i < |responses| ==> (responses + [r])[i] == responses[i];
    }
  }

  lemma TransactionsWithout(cs: seq<Candidate>, i: nat)
    requires i < |cs|
    ensures multiset(cs) == multiset(cs[..i] + cs[i + 1..]) + multiset{cs[i]}
    ensures multiset(Transactions(cs)) == multiset(Transactions(cs[..i] + cs[i + 1..])) + multiset{cs[i].tx}
  {
    assert cs == cs[..i] + [cs[i]] + cs[i + 1..];
    var txs := Transactions(cs);
    assert txs == txs[..i] + [txs[i]] + txs[i + 1..];
    assert Transactions(cs[..i] + cs[i + 1..]) == txs[..i] + txs[i + 1..];
  }

  lemma SmallerBags<T>(a: multiset<T>, b: multiset<T>, x: T)
    requires a + multiset{x} <= b + multiset{x}
    ensures a <= b
  {
    forall y ensures a[y] <= b[y] {
      assert (a + multiset{x})[y] <= (b + multiset{x})[y];
    }
  }

  lemma LargerBags<T>(a: multiset<T>, b: multiset<T>, x: T)
    requires a <= b
    ensures a + multiset{x} <= b + multiset{x}
  {
  }

  lemma {:induction false} FewerTransactions(few: seq<Candidate>, many: seq<Candidate>)
    requires multiset(few) <= multiset(many)
    ensures multiset(Transactions(few)) <= multiset(Transactions(many))
    decreases |few|
  {
    if few != [] {
      var i := Matching(few, many);
      var few', many' := few[..0] + few[1..], many[..i] + many[i + 1..];
      TransactionsWithout(few, 0);
      TransactionsWithout(many, i);
      FewerTransactions(few', many');
      LargerBags(multiset(Transactions(few')), multiset(Transactions(many')), few[0].tx);
    }
  }

  lemma PassedAreInput(rules: Rules, txs: seq<Bytes>, content: Content, height: nat, sorted: seq<Candidate>)
    requires multiset(sorted) == multiset(Candidates(rules, txs))
    ensures multiset(Transactions(Passing(rules, content, height, sorted).1)) <= multiset(txs)
  {
    PassingAreSubsequence(rules, content, height, sorted);
    CandidatesAreInput(rules, txs);
    FewerTransactions(Passing(rules, content, height, sorted).1, Candidates(rules, txs));
  }

  lemma SortedCandidates(rules: Rules, txs: seq<Bytes>, cs: seq<Candidate>, sorted: seq<Candidate>)
    requires cs == Candidates(rules, txs) && multiset(sorted) == multiset(cs)
    ensures forall tx: Bytes :: multiset(Transactions(sorted))[tx] ==
              if rules.decodes(tx) && rules.extract(tx).Some? then multiset(txs)[tx] else 0
    ensures forall i :: 0 <= i < |sorted| ==> rules.extract(sorted[i].tx) == Some(sorted[i].info)
  {
    FewerTransactions(sorted, cs);
    FewerTransactions(cs, sorted);
    forall tx: Bytes ensures multiset(Transactions(sorted))[tx] == if rules.decodes(tx) && rules.extract(tx).Some? then multiset(txs)[tx] else 0 {
      CandidatesExactly(rules, txs, tx);
    }
    forall i | 0 <= i < |sorted| ensures rules.extract(sorted[i].tx) == Some(sorted[i].info) {
      assert sorted[i] in multiset(cs);
    }
  }

  /** The first element of the smaller list in the larger one; without it, one is still smaller. */
  lemma Matching(few: seq<Candidate>, many: seq<Candidate>) returns (i: nat)
    requires multiset(few) <= multiset(many) && few != []
    ensures i < |many| && many[i] == few[0]
    ensures multiset(few[..0] + few[1..]) <= multiset(many[..i] + many[i + 1..])
  {
    assert few[0] in multiset(few) && few[0] in multiset(many);
    i :| 0 <= i < |many| && many[i] == few[0];
    TransactionsWithout(few, 0);
    TransactionsWithout(many, i);
    SmallerBags(multiset(few[..0] + few[1..]), multiset(many[..i] + many[i + 1..]), few[0]);
  }
}
