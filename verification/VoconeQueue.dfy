/** How long a transaction waits: the queue is served from the front, so a transaction at position p is
    gone after p / txsPerBlock + 1 finished blocks, whatever else happens meanwhile. */
module VoconeQueue {
  import opened Base
  import opened VoconeModel
  import opened VoconeChain
  import opened VoconeMempool

  /** The queued sequence numbers before `s`. */
  ghost function Ahead(keys: seq<Key>, s: nat): set<nat> {
    set q | q in SeqNos(keys) && q < s
  }

  /** The transaction `s` has at most `r` others before it, and once a block is in production, either
      the block has taken it or the block has taken `c` of those. */
  ghost predicate Waits(n: Node, s: nat, r: int, c: nat) {
    s in SeqNos(n.mem.keys) ==>
      && |Ahead(n.mem.keys, s)| <= r
      && (!n.mem.work.Idle? ==> s in SeqNos(WorkKeys(n.mem.work)) || |Ahead(n.mem.keys, s) - SeqNos(WorkKeys(n.mem.work))| + c <= r)
  }

  lemma FewerAhead(n: Node, n': Node, s: nat, r: int, c: nat)
    requires Waits(n, s, r, c)
    requires s in SeqNos(n'.mem.keys) ==> s in SeqNos(n.mem.keys) && Ahead(n'.mem.keys, s) <= Ahead(n.mem.keys, s)
    requires n'.mem.work.Idle? || (!n.mem.work.Idle? && SeqNos(WorkKeys(n'.mem.work)) == SeqNos(WorkKeys(n.mem.work)))
    ensures Waits(n', s, r, c)
  {
    if s in SeqNos(n'.mem.keys) {
      SubsetSize(Ahead(n'.mem.keys, s), Ahead(n.mem.keys, s));
      if !n'.mem.work.Idle? {
        var w := SeqNos(WorkKeys(n.mem.work));
        SubsetSize(Ahead(n'.mem.keys, s) - w, Ahead(n.mem.keys, s) - w);
      }
    }
  }

  /** A block takes the transaction, or as many as it can of those before it. */
  lemma TakeWaits(n: Node, s: nat, r: int, c: nat)
    requires Queued(n) && Waits(n, s, r, c)
    ensures Waits(DoTake(n, c), s, r, c)
  {
    if n.mem.work.Idle? && s in SeqNos(n.mem.keys) {
      var keys := n.mem.keys;
      var front := if c <= |keys| then keys[..c] else keys;
      assert WorkKeys(DoTake(n, c).mem.work) == front;
      if s !in SeqNos(front) {
        FrontCounts(keys, c, s);
      }
    }
  }

  lemma FrontCounts(keys: seq<Key>, c: nat, s: nat)
    requires Ascending(keys) && c <= |keys| && s in SeqNos(keys) && s !in SeqNos(keys[..c])
    ensures |Ahead(keys, s) - SeqNos(keys[..c])| + c == |Ahead(keys, s)|
  {
    var front, ahead := keys[..c], Ahead(keys, s);
    assert Ascending(front);
    AscendingSize(front);
    FrontIsAhead(keys, c, s);
    assert ahead == (ahead - SeqNos(front)) + SeqNos(front);
  }

  lemma FrontIsAhead(keys: seq<Key>, c: nat, s: nat)
    requires Ascending(keys) && c <= |keys| && s in SeqNos(keys) && s !in SeqNos(keys[..c])
    ensures SeqNos(keys[..c]) <= Ahead(keys, s)
  {
    var k :| k in keys && k.seqNo == s;
    var j :| 0 <= j < |keys| && keys[j] == k;
    assert forall i :: 0 <= i < c ==> keys[..c][i] == keys[i] && keys[..c][i].seqNo in SeqNos(keys[..c]);
    assert j >= c;
    forall q | q in SeqNos(keys[..c]) ensures q in Ahead(keys, s) {
      var x :| x in keys[..c] && x.seqNo == q;
      var i :| 0 <= i < c && keys[i] == x;
    }
  }

  lemma AddWaits(n: Node, tx: Bytes, valid: bool, stored: bool, s: nat, r: int, c: nat)
    requires Queued(n) && Waits(n, s, r, c) && s <= n.mem.lastSeq
    ensures Waits(DoAddTx(n, tx, valid, stored), s, r, c)
  {
    var n' := DoAddTx(n, tx, valid, stored);
    assert forall q :: q in SeqNos(n'.mem.keys) && q <= n.mem.lastSeq ==> q in SeqNos(n.mem.keys);
    if n.mem.work.Idle? {
      if s in SeqNos(n'.mem.keys) {
        SubsetSize(Ahead(n'.mem.keys, s), Ahead(n.mem.keys, s));
      }
    } else {
      FewerAhead(n, n', s, r, c);
    }
  }

  lemma PruneWaits(n: Node, matches: Bytes -> bool, stored: bool, s: nat, r: int, c: nat)
    requires Queued(n) && Waits(n, s, r, c)
    ensures Waits(DoPrune(n, matches, stored), s, r, c)
  {
    var i := FirstMatch(n.disk.pending, n.mem.keys, matches);
    if i < |n.mem.keys| {
      RemoveOne(n.mem.keys, i);
    }
    FewerAhead(n, DoPrune(n, matches, stored), s, r, c);
  }

  lemma ReadWaits(n: Node, valid: bool, s: nat, r: int, c: nat)
    requires Waits(n, s, r, c)
    ensures Waits(DoReadNext(n, valid), s, r, c)
  {
    if n.mem.work.Reading? && n.mem.work.todo != [] {
      var w := n.mem.work;
      assert forall k :: k in w.todo[1..] + (w.consumed + [w.todo[0]]) <==> k in w.todo + w.consumed;
      FewerAhead(n, DoReadNext(n, valid), s, r, c);
    }
  }

  lemma RestartWaits(n: Node, s: nat, r: int, c: nat)
    requires Queued(n) && Waits(n, s, r, c)
    ensures Waits(n.(mem := Recover(n.disk, FullKeys)), s, r, c)
  {
    RecoveredKeys(n.disk);
    FewerAhead(n, n.(mem := Recover(n.disk, FullKeys)), s, r, c);
  }

  /** A finished block brings every waiting transaction `c` places forward. */
  lemma FinishWaits(n: Node, s: nat, r: int, c: nat)
    requires Queued(n) && Waits(n, s, r, c) && n.mem.work.Cleaned? && (forall k :: k in n.mem.work.consumed ==> k.Full?)
    ensures Waits(DoCleanIndex(n), s, r - c, c)
  {
    var n' := DoCleanIndex(n);
    WithoutKeepsOrder(n.mem.keys, n.mem.work.consumed);
    assert SeqNos(n.mem.work.consumed) == Deleted(n.mem.work.consumed);
    if s in SeqNos(n'.mem.keys) {
      assert Ahead(n'.mem.keys, s) == Ahead(n.mem.keys, s) - SeqNos(n.mem.work.consumed);
    }
  }

  /** The keys that production holds are database keys, when those of the index are. */
  ghost predicate HoldsFullKeys(n: Node) {
    forall k :: k in WorkKeys(n.mem.work) ==> k.Full?
  }

  predicate Finishes(n: Node, e: Event) {
    e.CleanIndex? && n.mem.work.Cleaned?
  }

  lemma StepWaits(env: Env, n: Node, e: Event, s: nat, r: int, c: nat)
    requires Queued(n) && HoldsFullKeys(n) && Waits(n, s, r, c) && s <= n.mem.lastSeq
    requires e.Take? ==> e.count == c
    ensures Waits(Step(env, FullKeys, n, e), s, if Finishes(n, e) then r - c else r, c)
  {
    match e
    case AddTx(tx, valid, stored) => AddWaits(n, tx, valid, stored, s, r, c);
    case Prune(matches, stored) => PruneWaits(n, matches, stored, s, r, c);
    case Take(count) => TakeWaits(n, s, r, c);
    case ReadNext(valid) => ReadWaits(n, valid, s, r, c);
    case CleanIndex => if n.mem.work.Cleaned? { FinishWaits(n, s, r, c); }
    case Restart => RestartWaits(n, s, r, c);
    case Execute(succeeds, time, appHash) =>
      if n.mem.work.Reading? && n.mem.work.todo == [] {
        assert WorkKeys(n.mem.work) == n.mem.work.consumed;
        FewerAhead(n, Step(env, FullKeys, n, e), s, r, c);
      }
    case _ => SameWork(env, n, e, s, r, c);
  }

  /** The writing steps change neither the index nor the keys that production holds. */
  lemma SameWork(env: Env, n: Node, e: Event, s: nat, r: int, c: nat)
    requires Waits(n, s, r, c)
    requires e.WriteMeta? || e.WriteTxs? || e.SaveState? || e.CleanDatabase? || e.SaveOutsideBlock?
    ensures Waits(Step(env, FullKeys, n, e), s, r, c)
  {
    var n' := Step(env, FullKeys, n, e);
    WorkKept(env, n, e);
    if !n'.mem.work.Idle? {
      assert SeqNos(WorkKeys(n'.mem.work)) == SeqNos(WorkKeys(n.mem.work));
    }
  }

  lemma WorkKept(env: Env, n: Node, e: Event)
    requires e.WriteMeta? || e.WriteTxs? || e.SaveState? || e.CleanDatabase? || e.SaveOutsideBlock?
    ensures var n' := Step(env, FullKeys, n, e);
            && n'.mem.keys == n.mem.keys
            && (n'.mem.work.Idle? || (!n.mem.work.Idle? && WorkKeys(n'.mem.work) == WorkKeys(n.mem.work)))
  {
  }

  lemma StepHoldsFullKeys(env: Env, n: Node, e: Event)
    requires Queued(n) && HoldsFullKeys(n)
    ensures HoldsFullKeys(Step(env, FullKeys, n, e))
  {
    match e
    case ReadNext(valid) =>
      if n.mem.work.Reading? && n.mem.work.todo != [] {
        var w := n.mem.work;
        assert forall k :: k in w.todo[1..] + (w.consumed + [w.todo[0]]) ==> k in w.todo + w.consumed;
      }
    case Execute(succeeds, time, appHash) =>
      if n.mem.work.Reading? && n.mem.work.todo == [] {
        assert WorkKeys(n.mem.work) == n.mem.work.consumed;
      }
    case _ =>
  }

  /** What runs keep, as far as waiting depends on it. */
  ghost predicate Healthy(n: Node) {
    Queued(n) && Accounted(n) && HoldsFullKeys(n)
  }

  lemma {:induction false} RunIsHealthy(env: Env, events: seq<Event>)
    requires CleanDatabase(false) !in events
    ensures Healthy(Run(env, FullKeys, events))
    decreases |events|
  {
    RunKeepsQueue(env, events);
    RunKeepsAccount(env, FullKeys, events);
    if events != [] {
      var init := events[..|events| - 1];
      assert forall x :: x in init ==> x in events;
      RunIsHealthy(env, init);
      StepHoldsFullKeys(env, Run(env, FullKeys, init), events[|events| - 1]);
    }
  }

  lemma WaitsOneMore(env: Env, n: Node, e: Event, n': Node, s: nat, r: int, c: nat)
    requires StepsTo(env, n, e, n') && Regular(e, c)
    requires Waiting(n, s, r, c)
    ensures Waiting(n', s, if Finishes(n, e) then r - c else r, c)
  {
    StepKeepsQueue(env, n, e);
    StepKeepsAccount(env, FullKeys, n, e);
    StepHoldsFullKeys(env, n, e);
    StepWaits(env, n, e, s, r, c);
  }

  ghost predicate StepsTo(env: Env, n: Node, e: Event, n': Node) {
    n' == Step(env, FullKeys, n, e)
  }

  /** Cleanups are accepted and blocks have one size. */
  predicate Regular(e: Event, c: nat) {
    !(e.CleanDatabase? && !e.succeeds) && (e.Take? ==> e.count == c)
  }

  /** The nodes that the events lead through. */
  ghost predicate Trace(env: Env, nodes: seq<Node>, events: seq<Event>) {
    && |nodes| == |events| + 1
    && forall i {:trigger events[i]} :: 0 <= i < |events| ==> StepsTo(env, nodes[i], events[i], nodes[i + 1])
  }

  /** The blocks finished by the first `k` events. */
  ghost function Finished(nodes: seq<Node>, events: seq<Event>, k: nat): nat
    requires k <= |events| <= |nodes|
  {
    if k == 0 then 0 else Finished(nodes, events, k - 1) + if Finishes(nodes[k - 1], events[k - 1]) then 1 else 0
  }

  /** What `p` comes down to when each finished block takes `c` away. */
  ghost function Remaining(nodes: seq<Node>, events: seq<Event>, k: nat, p: nat, c: nat): int
    requires k <= |events| <= |nodes|
  {
    if k == 0 then p
    else
      var before := Remaining(nodes, events, k - 1, p, c);
      if Finishes(nodes[k - 1], events[k - 1]) then before - c else before
  }

  lemma {:induction false} RemainingIs(nodes: seq<Node>, events: seq<Event>, k: nat, p: nat, c: nat)
    requires k <= |events| <= |nodes|
    ensures Remaining(nodes, events, k, p, c) == p - Finished(nodes, events, k) * c
    decreases k
  {
    if k > 0 {
      RemainingIs(nodes, events, k - 1, p, c);
      var done := Finished(nodes, events, k - 1);
      assert (done + 1) * c == done * c + c;
    }
  }

  /** The transaction is waiting in a healthy node. */
  ghost predicate Waiting(n: Node, s: nat, r: int, c: nat) {
    Healthy(n) && s in n.sent && Waits(n, s, r, c)
  }

  lemma {:induction false} TraceWaits(env: Env, nodes: seq<Node>, events: seq<Event>, k: nat, s: nat, p: nat, c: nat)
    requires Trace(env, nodes, events) && k <= |events|
    requires forall i :: 0 <= i < |events| ==> Regular(events[i], c)
    requires Waiting(nodes[0], s, p, c)
    ensures Waiting(nodes[k], s, Remaining(nodes, events, k, p, c), c)
    decreases k
  {
    if k > 0 {
      TraceWaits(env, nodes, events, k - 1, s, p, c);
      WaitsOneMore(env, nodes[k - 1], events[k - 1], nodes[k], s, Remaining(nodes, events, k - 1, p, c), c);
    }
  }

  /** Bounded wait: take any reachable state with no block in production, and any continuation, crashes
      included. With whole keys from iteration, accepted cleanups and blocks of size c, the transaction
      at position p of the queue is out of the mempool once p / c + 1 blocks have been finished. */
  lemma BoundedWait(env: Env, before: seq<Event>, nodes: seq<Node>, events: seq<Event>, p: nat, c: nat)
    requires c > 0 && CleanDatabase(false) !in before
    requires Trace(env, nodes, events) && nodes[0] == Run(env, FullKeys, before)
    requires forall i :: 0 <= i < |events| ==> Regular(events[i], c)
    requires nodes[0].mem.work.Idle? && p < |nodes[0].mem.keys|
    requires Finished(nodes, events, |events|) >= p / c + 1
    ensures nodes[0].mem.keys[p].seqNo !in nodes[|events|].disk.pending
  {
    var n := nodes[0];
    RunIsHealthy(env, before);
    assert n.mem.keys[p] in n.mem.keys;
    PositionIsAhead(n.mem.keys, p);
    TraceWaits(env, nodes, events, |events|, n.mem.keys[p].seqNo, p, c);
    RemainingIs(nodes, events, |events|, p, c);
    MoreBlocksThanNeeded(Finished(nodes, events, |events|), c, p);
  }

  lemma MoreBlocksThanNeeded(d: nat, c: nat, p: nat)
    requires c > 0 && d >= p / c + 1
    ensures d * c > p
  {
    assert d * c >= (p / c + 1) * c;
    assert (p / c + 1) * c == (p / c) * c + c;
    assert p == (p / c) * c + p % c;
  }

  lemma PositionIsAhead(keys: seq<Key>, p: nat)
    requires Ascending(keys) && p < |keys|
    ensures |Ahead(keys, keys[p].seqNo)| == p
  {
    assert Ascending(keys[..p]);
    AscendingSize(keys[..p]);
    assert Ahead(keys, keys[p].seqNo) == SeqNos(keys[..p]) by {
      forall q | q in Ahead(keys, keys[p].seqNo) ensures q in SeqNos(keys[..p]) {
        var k :| k in keys && k.seqNo == q;
        var i :| 0 <= i < |keys| && keys[i] == k;
        assert i < p;
        assert keys[..p][i] in keys[..p];
      }
      forall q | q in SeqNos(keys[..p]) ensures q in Ahead(keys, keys[p].seqNo) {
        var k :| k in keys[..p] && k.seqNo == q;
        var i :| 0 <= i < p && keys[i] == k;
      }
    }
  }
}
