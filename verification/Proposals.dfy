/** PrepareProposal: the transactions a proposer picks out of its mempool, and why the block made of
    them executes without a single rejected transaction. */
module Proposals {
  import opened Base
  import opened AbciModel

  /** A transaction with its sender and nonce. */
  datatype Candidate = Candidate(tx: Bytes, info: TxInfo)

  /** The comparison of the sort: transactions without sender first, then by address, then by nonce. */
  predicate Before(a: TxInfo, b: TxInfo) {
    match (a.sender, b.sender)
    case (None, None) => a.nonce < b.nonce
    case (None, Some(_)) => true
    case (Some(_), None) => false
    case (Some(x), Some(y)) => x < y || (x == y && a.nonce < b.nonce)
  }

  ghost predicate Ordered(cs: seq<Candidate>) {
    forall i, j :: 0 <= i < j < |cs| ==> !Before(cs[j].info, cs[i].info)
  }

  /** The order in so many words: transactions without sender first, then senders ascending, and the nonces
      of one sender ascending. */
  ghost predicate InOrder(cs: seq<Candidate>) {
    forall i, j :: 0 <= i < j < |cs| ==> GoesBefore(cs[i].info, cs[j].info)
  }

  ghost predicate GoesBefore(a: TxInfo, b: TxInfo) {
    && (b.sender.None? ==> a.sender.None?)
    && (a.sender.Some? && b.sender.Some? ==> a.sender.value <= b.sender.value)
    && (a.sender == b.sender ==> a.nonce <= b.nonce)
  }

  lemma OrderedExactly(cs: seq<Candidate>)
    ensures Ordered(cs) <==> InOrder(cs)
  {
    forall a: TxInfo, b: TxInfo ensures !Before(b, a) <==> GoesBefore(a, b) {}
  }

  // ---------------------------------------------------------------- the candidates

  /** The transactions that decode and have a readable sender and nonce, in their order. */
  function Candidates(rules: Rules, txs: seq<Bytes>): (cs: seq<Candidate>)
    ensures forall i :: 0 <= i < |cs| ==> rules.decodes(cs[i].tx) && rules.extract(cs[i].tx) == Some(cs[i].info)
  {
    if txs == [] then []
    else
      var before := Candidates(rules, txs[..|txs| - 1]);
      var tx := txs[|txs| - 1];
      if rules.decodes(tx) && rules.extract(tx).Some? then before + [Candidate(tx, rules.extract(tx).value)] else before
  }

  ghost function Transactions(cs: seq<Candidate>): (txs: seq<Bytes>)
    ensures |txs| == |cs| && forall i :: 0 <= i < |cs| ==> txs[i] == cs[i].tx
  {
    seq(|cs|, i requires 0 <= i < |cs| => cs[i].tx)
  }

  lemma TransactionsAppend(cs: seq<Candidate>, c: Candidate)
    ensures Transactions(cs + [c]) == Transactions(cs) + [c.tx]
  {
  }

  lemma {:induction false} CandidatesAreInput(rules: Rules, txs: seq<Bytes>)
    ensures multiset(Transactions(Candidates(rules, txs))) <= multiset(txs)
    decreases |txs|
  {
    if txs != [] {
      var init, tx := txs[..|txs| - 1], txs[|txs| - 1];
      assert txs == init + [tx];
      CandidatesAreInput(rules, init);
      if rules.decodes(tx) && rules.extract(tx).Some? {
        TransactionsAppend(Candidates(rules, init), Candidate(tx, rules.extract(tx).value));
      }
    }
  }

  /** Exactly the transactions that decode and have a readable sender and nonce become candidates, as often
      as they came. */
  lemma {:induction false} CandidatesExactly(rules: Rules, txs: seq<Bytes>, tx: Bytes)
    ensures multiset(Transactions(Candidates(rules, txs)))[tx] ==
            if rules.decodes(tx) && rules.extract(tx).Some? then multiset(txs)[tx] else 0
    decreases |txs|
  {
    if txs != [] {
      var init, last := txs[..|txs| - 1], txs[|txs| - 1];
      assert txs == init + [last];
      CandidatesExactly(rules, init, tx);
      if rules.decodes(last) && rules.extract(last).Some? {
        TransactionsAppend(Candidates(rules, init), Candidate(last, rules.extract(last).value));
      }
    }
  }

  // ---------------------------------------------------------------- the sort

  /** Any sorted rearrangement will do: the sort of the library promises no more. */
  method Sort(cs: seq<Candidate>) returns (sorted: seq<Candidate>)
    ensures multiset(sorted) == multiset(cs)
    ensures Ordered(sorted) && InOrder(sorted)
  {
    sorted := [];
    for i := 0 to |cs|
      invariant multiset(sorted) == multiset(cs[..i])
      invariant Ordered(sorted)
    {
      var at := 0;
      while at < |sorted| && !Before(cs[i].info, sorted[at].info)
        invariant 0 <= at <= |sorted|
        invariant forall j :: 0 <= j < at ==> !Before(cs[i].info, sorted[j].info)
      {
        at := at + 1;
      }
      assert cs[..i + 1] == cs[..i] + [cs[i]];
      assert sorted == sorted[..at] + sorted[at..];
      InsertKeepsOrder(sorted, cs[i], at);
      sorted := sorted[..at] + [cs[i]] + sorted[at..];
    }
    assert cs[..|cs|] == cs;
    OrderedExactly(sorted);
  }

  lemma BeforeIsAnOrder(a: TxInfo, b: TxInfo, c: TxInfo)
    ensures Before(a, b) ==> !Before(b, a)
    ensures Before(a, b) && !Before(c, b) ==> Before(a, c)
  {
  }

  lemma InsertKeepsOrder(cs: seq<Candidate>, c: Candidate, at: nat)
    requires Ordered(cs) && at <= |cs|
    requires forall j :: 0 <= j < at ==> !Before(c.info, cs[j].info)
    requires at < |cs| ==> Before(c.info, cs[at].info)
    ensures Ordered(cs[..at] + [c] + cs[at..])
  {
    var r := cs[..at] + [c] + cs[at..];
    forall i, j | 0 <= i < j < |r| ensures !Before(r[j].info, r[i].info) {
      if i == at {
        var k := j - 1;
        assert r[j] == cs[k];
        if k > at {
          assert !Before(cs[k].info, cs[at].info);
          BeforeIsAnOrder(c.info, cs[at].info, cs[k].info);
        }
        BeforeIsAnOrder(c.info, cs[k].info, c.info);
      }
    }
  }

  // ---------------------------------------------------------------- the filter

  /** The candidates that pass when tried one after the other, and the state that leaves. */
  function Passing(rules: Rules, content: Content, height: nat, cs: seq<Candidate>): (r: (Content, seq<Candidate>)) {
    if cs == [] then (content, [])
    else
      var before := Passing(rules, content, height, cs[..|cs| - 1]);
      var c := cs[|cs| - 1];
      var checked := rules.check(before.0, height, c.tx);
      (checked.0, if checked.1.code == 0 then before.1 + [c] else before.1)
  }

  /** The candidate number `i` is tried between two states. */
  ghost predicate TriedAt(rules: Rules, height: nat, cs: seq<Candidate>, states: seq<Content>, i: nat)
    requires |states| == |cs| + 1 && i < |cs|
  {
    states[i + 1] == rules.check(states[i], height, cs[i].tx).0
  }

  /** The candidates are tried in turn, each in the state that those before it left. */
  ghost predicate Tries(rules: Rules, content: Content, height: nat, cs: seq<Candidate>, states: seq<Content>) {
    && |states| == |cs| + 1 && states[0] == content
    && (forall i :: 0 <= i < |cs| ==> TriedAt(rules, height, cs, states, i))
  }

  /** The proposal is the transactions at these places, in order. */
  ghost predicate TakenFrom(cs: seq<Candidate>, places: seq<nat>, proposal: seq<Bytes>) {
    && |proposal| == |places|
    && (forall j :: 0 <= j < |places| ==> places[j] < |cs| && proposal[j] == cs[places[j]].tx)
  }

  /** The proposal is made of the candidates that their check accepts when tried in turn, in their order: who
      is missing was refused. */
  ghost predicate Chooses(rules: Rules, content: Content, height: nat, cs: seq<Candidate>, states: seq<Content>, places: seq<nat>, proposal: seq<Bytes>) {
    && Tries(rules, content, height, cs, states)
    && Picks(places, Passes(rules, height, cs, states))
    && TakenFrom(cs, places, proposal)
  }

  /** Whose check, in the state it is tried in, answers with code zero. */
  ghost function Passes(rules: Rules, height: nat, cs: seq<Candidate>, states: seq<Content>): (keep: seq<bool>)
    requires |states| == |cs| + 1
    ensures |keep| == |cs| && forall i :: 0 <= i < |cs| ==> keep[i] == (rules.check(states[i], height, cs[i].tx).1.code == 0)
  {
    seq(|cs|, i requires 0 <= i < |cs| => rules.check(states[i], height, cs[i].tx).1.code == 0)
  }

  lemma PassesAppend(rules: Rules, height: nat, cs: seq<Candidate>, states: seq<Content>, c: Candidate, after: Content)
    requires |states| == |cs| + 1
    ensures Passes(rules, height, cs + [c], states + [after]) ==
            Passes(rules, height, cs, states) + [rules.check(states[|cs|], height, c.tx).1.code == 0]
  {
  }

  lemma TriesAppend(rules: Rules, content: Content, height: nat, cs: seq<Candidate>, states: seq<Content>, c: Candidate)
    requires Tries(rules, content, height, cs, states)
    ensures Tries(rules, content, height, cs + [c], states + [rules.check(states[|cs|], height, c.tx).0])
  {
    var more, all := cs + [c], states + [rules.check(states[|cs|], height, c.tx).0];
    forall i | 0 <= i < |more| ensures TriedAt(rules, height, more, all, i) {
      if i < |cs| {
        assert TriedAt(rules, height, cs, states, i);
      }
    }
  }

  lemma ChoosesAppend(rules: Rules, content: Content, height: nat, cs: seq<Candidate>, states: seq<Content>, places: seq<nat>, proposal: seq<Bytes>, c: Candidate)
    requires Chooses(rules, content, height, cs, states, places, proposal)
    ensures var checked := rules.check(states[|cs|], height, c.tx);
            Chooses(rules, content, height, cs + [c], states + [checked.0],
                    if checked.1.code == 0 then places + [|cs|] else places,
                    if checked.1.code == 0 then proposal + [c.tx] else proposal)
  {
    var checked := rules.check(states[|cs|], height, c.tx);
    TriesAppend(rules, content, height, cs, states, c);
    PassesAppend(rules, height, cs, states, c, checked.0);
    PicksAppend(places, Passes(rules, height, cs, states), checked.1.code == 0);
    TakenAppend(cs, places, proposal, c);
  }

  lemma TakenAppend(cs: seq<Candidate>, places: seq<nat>, proposal: seq<Bytes>, c: Candidate)
    requires TakenFrom(cs, places, proposal)
    ensures TakenFrom(cs + [c], places, proposal) && TakenFrom(cs + [c], places + [|cs|], proposal + [c.tx])
  {
  }

  lemma ChoosesNothing(rules: Rules, content: Content, height: nat)
    ensures Chooses(rules, content, height, [], [content], [], Transactions([])) && Transactions([]) == []
  {
  }

  lemma PassingLast(rules: Rules, content: Content, height: nat, cs: seq<Candidate>, c: Candidate)
    ensures var before := Passing(rules, content, height, cs);
            var checked := rules.check(before.0, height, c.tx);
            Passing(rules, content, height, cs + [c]) == (checked.0, if checked.1.code == 0 then before.1 + [c] else before.1)
  {
    assert (cs + [c])[..|cs|] == cs;
  }

  lemma {:induction false} PassingChooses(rules: Rules, content: Content, height: nat, cs: seq<Candidate>) returns (states: seq<Content>, places: seq<nat>)
    ensures Chooses(rules, content, height, cs, states, places, Transactions(Passing(rules, content, height, cs).1))
    ensures states[|cs|] == Passing(rules, content, height, cs).0
    decreases |cs|
  {
    if cs == [] {
      states, places := [content], [];
      ChoosesNothing(rules, content, height);
    } else {
      var init, last := cs[..|cs| - 1], cs[|cs| - 1];
      assert cs == init + [last];
      var before, picked := PassingChooses(rules, content, height, init);
      states, places := PassingChoosesLast(rules, content, height, init, last, before, picked);
    }
  }

  lemma PassingChoosesLast(rules: Rules, content: Content, height: nat, cs: seq<Candidate>, c: Candidate, states: seq<Content>, places: seq<nat>)
    returns (more: seq<Content>, picked: seq<nat>)
    requires Chooses(rules, content, height, cs, states, places, Transactions(Passing(rules, content, height, cs).1))
    requires states[|cs|] == Passing(rules, content, height, cs).0
    ensures Chooses(rules, content, height, cs + [c], more, picked, Transactions(Passing(rules, content, height, cs + [c]).1))
    ensures more[|cs| + 1] == Passing(rules, content, height, cs + [c]).0
  {
    var checked := rules.check(states[|cs|], height, c.tx);
    more, picked := states + [checked.0], if checked.1.code == 0 then places + [|cs|] else places;
    var passed := Passing(rules, content, height, cs).1;
    ChoosesAppend(rules, content, height, cs, states, places, Transactions(passed), c);
    TransactionsAppend(passed, c);
    PassingLast(rules, content, height, cs, c);
  }

  /** The candidates that pass are a subsequence. */
  lemma {:induction false} PassingAreSubsequence(rules: Rules, content: Content, height: nat, cs: seq<Candidate>)
    ensures var passed := Passing(rules, content, height, cs).1;
            && multiset(passed) <= multiset(cs)
            && (Ordered(cs) ==> Ordered(passed))
            && (forall i :: 0 <= i < |passed| ==> passed[i] in cs)
    decreases |cs|
  {
    if cs != [] {
      assert cs == cs[..|cs| - 1] + [cs[|cs| - 1]];
      PassingAreSubsequence(rules, content, height, cs[..|cs| - 1]);
      var before := Passing(rules, content, height, cs[..|cs| - 1]).1;
      forall i | 0 <= i < |before| ensures before[i] in cs[..|cs| - 1] {}
      if Ordered(cs) {
        forall i | 0 <= i < |before| ensures !Before(cs[|cs| - 1].info, before[i].info) {
          assert before[i] in cs[..|cs| - 1];
        }
      }
    }
  }

  // ---------------------------------------------------------------- replay

  /** What the replay of a prepared proposal rests on: a transaction that is refused changes nothing,
      and `alike` relates states in which transactions do the same (states that differ in the clock),
      whatever the height. */
  ghost predicate ChecksCarryOver(rules: Rules, alike: (Content, Content) -> bool) {
    && (forall c: Content, h: nat, tx: Bytes :: rules.check(c, h, tx).1.code != 0 ==> rules.check(c, h, tx).0 == c)
    && (forall c: Content, t: nat :: alike(c, rules.setTime(c, t)))
    && (forall c: Content, d: Content, h: nat, k: nat, tx: Bytes {:trigger rules.check(c, h, tx), rules.check(d, k, tx)} :: alike(c, d) ==>
          && (rules.check(c, h, tx).1.code == 0 <==> rules.check(d, k, tx).1.code == 0)
          && alike(rules.check(c, h, tx).0, rules.check(d, k, tx).0))
  }

  /** The transactions that passed pass again, on their own, in a state that is alike. */
  lemma {:induction false} PassedPassAgain(rules: Rules, alike: (Content, Content) -> bool, c: Content, h: nat, d: Content, k: nat, cs: seq<Candidate>)
    requires ChecksCarryOver(rules, alike) && alike(c, d)
    requires forall i :: 0 <= i < |cs| ==> rules.decodes(cs[i].tx)
    ensures var passed := Passing(rules, c, h, cs);
            var replay := DeliverAll(rules, d, k, Transactions(passed.1));
            AllValid(replay.1) && alike(passed.0, replay.0)
    decreases |cs|
  {
    if cs != [] {
      var init, last := cs[..|cs| - 1], cs[|cs| - 1];
      PassedPassAgain(rules, alike, c, h, d, k, init);
      var before := Passing(rules, c, h, init);
      var replay := DeliverAll(rules, d, k, Transactions(before.1));
      var checked := rules.check(before.0, h, last.tx);
      assert Passing(rules, c, h, cs) == (checked.0, if checked.1.code == 0 then before.1 + [last] else before.1);
      if checked.1.code == 0 {
        TransactionsAppend(before.1, last);
        DeliverAppend(rules, d, k, Transactions(before.1), last.tx);
        assert alike(checked.0, rules.check(replay.0, k, last.tx).0);
      }
    }
  }

  /** A prepared proposal replays cleanly: executed as a block on the same committed state, whatever
      its height and time, every transaction of it passes; so unless the internal transitions fail,
      every validator with that committed state accepts it. */
  lemma PreparedReplaysCleanly(rules: Rules, alike: (Content, Content) -> bool, committed: AppState, h: nat, cs: seq<Candidate>, b: Block)
    requires ChecksCarryOver(rules, alike)
    requires forall i :: 0 <= i < |cs| ==> rules.decodes(cs[i].tx)
    requires b.txs == Transactions(Passing(rules, committed.content, h, cs).1)
    ensures Execute(rules, committed, b).Done? ==> AllValid(Execute(rules, committed, b).responses)
    ensures rules.validator(committed.content).Some? && (rules.endOfChain == 0 || b.height <= rules.endOfChain) ==>
              forall app: App :: app.committed == committed && Execute(rules, committed, b).Done? ==> Process(rules, app, b).1 == Accept
  {
    PassedPassAgain(rules, alike, committed.content, h, rules.setTime(committed.content, b.time), b.height, cs);
  }
}
