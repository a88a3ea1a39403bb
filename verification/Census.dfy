/** The census tree and its total weight, which is kept beside the tree and not recomputed from it. */
module Census {
  import opened Base
  import opened Numbers
  import opened CensusDump

  type Leaves = map<Bytes, Bytes>

  /** What the tree accepts on top of the length limits, and the width of the weight record. */
  datatype Setup = Setup(hashLen: nat, admits: (Leaves, Leaf) -> bool)

  /** Adding a leaf; nothing when the tree rejects it. */
  function AddLeaf(setup: Setup, leaves: Leaves, leaf: Leaf): (r: Option<Leaves>)
    ensures r.Some? <==> leaf.key !in leaves && |leaf.key| <= 255 && |leaf.value| <= 65535 && setup.admits(leaves, leaf)
    ensures r.Some? ==> r.value.Keys == leaves.Keys + {leaf.key} && r.value[leaf.key] == leaf.value
    ensures r.Some? ==> forall k :: k in leaves ==> r.value[k] == leaves[k]
  {
    if leaf.key in leaves || !Sized(leaf) || !setup.admits(leaves, leaf) then None
    else Some(leaves[leaf.key := leaf.value])
  }

  // ---------------------------------------------------------------- the weight of a tree

  /** The sum of the leaf values. */
  ghost function Total(leaves: Leaves): nat
    decreases |leaves|
  {
    if leaves == map[] then 0
    else
      assert leaves.Keys != {};
      var k :| k in leaves.Keys;
      FromLittleEndian(leaves[k]) + Total(leaves - {k})
  }

  /** The sum does not depend on the order. */
  lemma {:induction false} TotalWithout(leaves: Leaves, k: Bytes)
    requires k in leaves
    ensures Total(leaves) == FromLittleEndian(leaves[k]) + Total(leaves - {k})
    decreases |leaves|
  {
    assert leaves.Keys != {};
    var first :| first in leaves.Keys && Total(leaves) == FromLittleEndian(leaves[first]) + Total(leaves - {first});
    if first != k {
      TotalWithout(leaves - {first}, k);
      TotalWithout(leaves - {k}, first);
      assert leaves - {first} - {k} == leaves - {k} - {first};
    }
  }

  lemma TotalAdd(leaves: Leaves, k: Bytes, v: Bytes)
    requires k !in leaves
    ensures Total(leaves[k := v]) == FromLittleEndian(v) + Total(leaves)
  {
    TotalWithout(leaves[k := v], k);
    assert leaves[k := v] - {k} == leaves;
  }

  // ---------------------------------------------------------------- the record

  /** A census: its tree and the weight record, absent at first. */
  datatype State = State(leaves: Leaves, record: Option<Bytes>)

  const EMPTY: State := State(map[], None)

  /** GetCensusWeight. */
  function Weight(s: State): nat {
    if s.record.None? then 0 else FromLittleEndian(s.record.value)
  }

  /** updateCensusWeight. */
  function Weighed(setup: Setup, s: State, weight: nat): State {
    s.(record := Some(LittleEndian(setup.hashLen, Weight(s) + weight)))
  }

  /** The record is the sum of the leaf values, up to the width of the record. */
  ghost predicate Balanced(setup: Setup, s: State) {
    Weight(s) == Total(s.leaves) % Pow256(setup.hashLen)
  }

  lemma WeighedWeight(setup: Setup, s: State, weight: nat)
    ensures Weight(Weighed(setup, s, weight)) == (Weight(s) + weight) % Pow256(setup.hashLen)
  {
    LittleEndianValue(setup.hashLen, Weight(s) + weight);
  }

  lemma ModAdd(a: nat, b: nat, m: nat)
    requires m > 0
    ensures (a % m + b) % m == (a + b) % m
  {
    var q, r := (a % m + b) / m, (a % m + b) % m;
    assert a + b == m * (a / m) + m * q + r;
    assert m * (a / m) + m * q == m * (a / m + q);
    Remainder(a + b, m, a / m + q, r);
  }

  lemma ModSame(w: nat, t: nat, m: nat)
    requires m > 0 && w < m
    ensures (w + t) % m == t % m <==> w == 0
  {
    ModAdd(t, w, m);
    var r := t % m;
    if r + w < m {
      Remainder(r + w, m, 0, r + w);
    } else {
      Remainder(r + w, m, 1, r + w - m);
    }
  }

  lemma ModShift(t: nat, w: nat, m: nat)
    requires m > 0
    ensures (t + w) % m == t % m <==> w % m == 0
  {
    ModAdd(w, t, m);
    ModSame(w % m, t, m);
  }

  // ---------------------------------------------------------------- the operations

  /** Add; a leaf without a value, as opposed to an empty one, does not touch the record. */
  function Added(setup: Setup, s: State, key: Bytes, value: Option<Bytes>): Option<State> {
    var leaf := Leaf(key, if value.Some? then value.value else []);
    var leaves := AddLeaf(setup, s.leaves, leaf);
    if leaves.None? then None
    else if value.None? then Some(s.(leaves := leaves.value))
    else Some(Weighed(setup, s.(leaves := leaves.value), FromLittleEndian(value.value)))
  }

  /** The tree after adding what it accepts of a list, the weight of that, and the places of the rest. */
  function Batch(setup: Setup, leaves: Leaves, list: seq<Leaf>): (r: (Leaves, nat, seq<nat>)) {
    if list == [] then (leaves, 0, [])
    else
      var (before, weight, invalids) := Batch(setup, leaves, list[..|list| - 1]);
      var last := list[|list| - 1];
      var after := AddLeaf(setup, before, last);
      if after.None? then (before, weight, invalids + [|list| - 1])
      else (after.value, weight + FromLittleEndian(last.value), invalids)
  }

  /** AddBatch, for keys and values of one length. */
  function BatchAdded(setup: Setup, s: State, list: seq<Leaf>): (State, seq<nat>) {
    var (leaves, weight, invalids) := Batch(setup, s.leaves, list);
    (Weighed(setup, s.(leaves := leaves), weight % Pow256(setup.hashLen)), invalids)
  }

  /** ImportDump: the tree takes all the leaves of the dump or none; then the weight of the whole tree is
      added to the record. */
  ghost function Imported(setup: Setup, s: State, b: Bytes): Option<State> {
    var list := Parsed(b);
    if list.None? then None
    else
      var (leaves, _, invalids) := Batch(setup, s.leaves, list.value);
      if invalids != [] then None
      else Some(Weighed(setup, s.(leaves := leaves), Total(leaves) % Pow256(setup.hashLen)))
  }

  /** The places reported by a batch are exactly those of the leaves that the tree, as it was by then,
      rejects; rejected leaves change nothing. */
  lemma {:induction false} BatchRejects(setup: Setup, leaves: Leaves, list: seq<Leaf>, i: nat)
    requires i < |list|
    ensures i in Batch(setup, leaves, list).2 <==> AddLeaf(setup, Batch(setup, leaves, list[..i]).0, list[i]).None?
    ensures i in Batch(setup, leaves, list).2 ==> Batch(setup, leaves, list[..i + 1]).0 == Batch(setup, leaves, list[..i]).0
    decreases |list|
  {
    var init := list[..|list| - 1];
    PlacesBelow(setup, leaves, init);
    if i < |list| - 1 {
      BatchRejects(setup, leaves, init, i);
      assert init[..i] == list[..i] && init[..i + 1] == list[..i + 1];
    } else {
      assert list[..i] == init && list[..i + 1] == list;
    }
  }

  lemma {:induction false} PlacesBelow(setup: Setup, leaves: Leaves, list: seq<Leaf>)
    ensures forall i :: i in Batch(setup, leaves, list).2 ==> i < |list|
    decreases |list|
  {
    if list != [] {
      PlacesBelow(setup, leaves, list[..|list| - 1]);
    }
  }

  /** The weight a batch counts is what it adds to the total. */
  lemma {:induction false} BatchConserves(setup: Setup, leaves: Leaves, list: seq<Leaf>)
    ensures Total(Batch(setup, leaves, list).0) == Total(leaves) + Batch(setup, leaves, list).1
    decreases |list|
  {
    if list != [] {
      var init, last := list[..|list| - 1], list[|list| - 1];
      BatchConserves(setup, leaves, init);
      var before := Batch(setup, leaves, init).0;
      if AddLeaf(setup, before, last).Some? {
        TotalAdd(before, last.key, last.value);
      }
    }
  }

  // ---------------------------------------------------------------- the balance

  lemma AddKeepsBalance(setup: Setup, s: State, key: Bytes, value: Option<Bytes>)
    requires Balanced(setup, s) && Added(setup, s, key, value).Some?
    ensures Balanced(setup, Added(setup, s, key, value).value)
  {
    var v := if value.Some? then value.value else [];
    TotalAdd(s.leaves, key, v);
    if value.Some? {
      WeighedWeight(setup, s.(leaves := s.leaves[key := v]), FromLittleEndian(v));
      ModAdd(Total(s.leaves), FromLittleEndian(v), Pow256(setup.hashLen));
    }
  }

  lemma BatchKeepsBalance(setup: Setup, s: State, list: seq<Leaf>)
    requires Balanced(setup, s)
    ensures Balanced(setup, BatchAdded(setup, s, list).0)
  {
    var (leaves, weight, _) := Batch(setup, s.leaves, list);
    var m := Pow256(setup.hashLen);
    BatchConserves(setup, s.leaves, list);
    WeighedWeight(setup, s.(leaves := leaves), weight % m);
    ModAdd(Total(s.leaves), weight % m, m);
    ModAdd(weight, Total(s.leaves), m);
  }

  /** An import leaves the census balanced exactly when the record was at zero before: what was in the
      tree already is counted again. */
  lemma ImportBalancesExactly(setup: Setup, s: State, b: Bytes)
    requires Balanced(setup, s) && Imported(setup, s, b).Some?
    ensures Balanced(setup, Imported(setup, s, b).value) <==> Weight(s) == 0
  {
    var leaves := Batch(setup, s.leaves, Parsed(b).value).0;
    var m := Pow256(setup.hashLen);
    var t := Total(leaves);
    WeighedWeight(setup, s.(leaves := leaves), t % m);
    ModAdd(t, Weight(s), m);
    ModSame(Weight(s), t, m);
  }

  // ---------------------------------------------------------------- runs

  datatype Operation =
    | AddOp(key: Bytes, value: Option<Bytes>)
    | BatchOp(list: seq<Leaf>)
    | ImportOp(dump: Bytes)

  /** An operation that fails leaves the census as it was. */
  ghost function Perform(setup: Setup, s: State, op: Operation): State {
    match op
    case AddOp(key, value) => Added(setup, s, key, value).GetOr(s)
    case BatchOp(list) => BatchAdded(setup, s, list).0
    case ImportOp(dump) => Imported(setup, s, dump).GetOr(s)
  }

  ghost function Run(setup: Setup, ops: seq<Operation>): State {
    if ops == [] then EMPTY else Perform(setup, Run(setup, ops[..|ops| - 1]), ops[|ops| - 1])
  }

  /** Every import of a run meets a census of weight zero, or fails. */
  ghost predicate ImportsFirst(setup: Setup, ops: seq<Operation>) {
    forall i :: 0 <= i < |ops| && ops[i].ImportOp? ==>
      Weight(Run(setup, ops[..i])) == 0 || Imported(setup, Run(setup, ops[..i]), ops[i].dump).None?
  }

  /** Over every run, the weight is the sum of the leaf values up to the width of the record, with any mix
      of rejected leaves, as long as imports meet a weightless census; the first one that does not breaks
      the balance. */
  lemma {:induction false} RunIsBalanced(setup: Setup, ops: seq<Operation>)
    ensures ImportsFirst(setup, ops) ==> Balanced(setup, Run(setup, ops))
    ensures ops != [] && ImportsFirst(setup, ops[..|ops| - 1]) && !ImportsFirst(setup, ops) ==> !Balanced(setup, Run(setup, ops))
    decreases |ops|
  {
    if ops == [] {
      EmptyIsBalanced(setup);
    } else {
      var init, last := ops[..|ops| - 1], ops[|ops| - 1];
      RunIsBalanced(setup, init);
      EarlierImports(setup, ops);
      var s := Run(setup, init);
      if ImportsFirst(setup, init) {
        match last
        case AddOp(key, value) =>
          if Added(setup, s, key, value).Some? { AddKeepsBalance(setup, s, key, value); }
        case BatchOp(list) =>
          BatchKeepsBalance(setup, s, list);
        case ImportOp(dump) =>
          if Imported(setup, s, dump).Some? { ImportBalancesExactly(setup, s, dump); }
      }
    }
  }

  lemma EarlierImports(setup: Setup, ops: seq<Operation>)
    requires ops != []
    ensures var init, last := ops[..|ops| - 1], ops[|ops| - 1];
            ImportsFirst(setup, ops) <==>
            ImportsFirst(setup, init) &&
            (last.ImportOp? ==> Weight(Run(setup, init)) == 0 || Imported(setup, Run(setup, init), last.dump).None?)
  {
    var init := ops[..|ops| - 1];
    assert forall i :: 0 <= i < |init| ==> init[..i] == ops[..i] && init[i] == ops[i];
  }

  lemma RunOne(setup: Setup, a: Operation)
    ensures Run(setup, [a]) == Perform(setup, EMPTY, a)
  {
    assert [a][..0] == [];
  }

  lemma RunTwo(setup: Setup, a: Operation, b: Operation)
    ensures Run(setup, [a, b]) == Perform(setup, Perform(setup, EMPTY, a), b)
  {
    assert [a, b][..1] == [a];
    RunOne(setup, a);
  }

  /** A census with one leaf. */
  lemma OneLeaf(setup: Setup, key: Bytes, value: Bytes)
    requires AddLeaf(setup, map[], Leaf(key, value)).Some?
    ensures var s := Run(setup, [AddOp(key, Some(value))]);
            && s.leaves == map[key := value] && Total(s.leaves) == FromLittleEndian(value)
            && Weight(s) == FromLittleEndian(value) % Pow256(setup.hashLen)
  {
    RunOne(setup, AddOp(key, Some(value)));
    TotalAdd(map[], key, value);
    assert map[][key := value] == map[key := value];
    WeighedWeight(setup, EMPTY.(leaves := map[key := value]), FromLittleEndian(value));
  }

  /** Double counting, in a run of two operations for every setup that accepts the leaf: add a leaf whose
      weight fits in half the record, and import an empty dump. The weight is then twice that of the one
      leaf there is. */
  lemma ImportCountsTwice(setup: Setup, key: Bytes, value: Bytes)
    requires AddLeaf(setup, map[], Leaf(key, value)).Some?
    requires 0 < FromLittleEndian(value) && 2 * FromLittleEndian(value) < Pow256(setup.hashLen)
    ensures var s := Run(setup, [AddOp(key, Some(value)), ImportOp([])]);
            && s.leaves == map[key := value] && Total(s.leaves) == FromLittleEndian(value)
            && Weight(s) == 2 * FromLittleEndian(value) && !Balanced(setup, s)
  {
    var w, m := FromLittleEndian(value), Pow256(setup.hashLen);
    var s := Run(setup, [AddOp(key, Some(value))]);
    OneLeaf(setup, key, value);
    RunOne(setup, AddOp(key, Some(value)));
    RunTwo(setup, AddOp(key, Some(value)), ImportOp([]));
    assert Batch(setup, s.leaves, []) == (s.leaves, 0, []);
    Remainder(w, m, 0, w);
    Remainder(2 * w, m, 0, 2 * w);
    WeighedWeight(setup, s, w);
  }

  /** A process that stops between the two database transactions of an import leaves the new leaves
      without their weight: the census is balanced exactly when what the dump added weighs nothing, up to
      the width of the record. */
  lemma InterruptedImportExactly(setup: Setup, s: State, b: Bytes)
    requires Balanced(setup, s) && Imported(setup, s, b).Some?
    ensures var (leaves, weight, _) := Batch(setup, s.leaves, Parsed(b).value);
            Balanced(setup, s.(leaves := leaves)) <==> weight % Pow256(setup.hashLen) == 0
  {
    UnrecordedBatch(setup, s, Parsed(b).value);
  }

  lemma UnrecordedBatch(setup: Setup, s: State, list: seq<Leaf>)
    requires Balanced(setup, s)
    ensures Balanced(setup, s.(leaves := Batch(setup, s.leaves, list).0)) <==> Batch(setup, s.leaves, list).1 % Pow256(setup.hashLen) == 0
  {
    BatchConserves(setup, s.leaves, list);
    ModShift(Total(s.leaves), Batch(setup, s.leaves, list).1, Pow256(setup.hashLen));
  }

  // ---------------------------------------------------------------- dump and import

  /** A list of leaves that makes up a tree: every leaf once. */
  ghost predicate Lists(list: seq<Leaf>, leaves: Leaves) {
    && (forall i :: 0 <= i < |list| ==> list[i].key in leaves && list[i].value == leaves[list[i].key])
    && (forall i, j :: 0 <= i < j < |list| ==> list[i].key != list[j].key)
    && (forall k :: k in leaves ==> exists i :: 0 <= i < |list| && list[i].key == k)
  }

  /** Leaves that the tree accepts in any order. */
  ghost predicate Compatible(setup: Setup, leaves: Leaves) {
    forall part: Leaves, leaf: Leaf {:trigger AddLeaf(setup, part, leaf)} ::
      part.Keys <= leaves.Keys && leaf.key in leaves && leaf.key !in part && leaf.value == leaves[leaf.key]
      ==> AddLeaf(setup, part, leaf).Some?
  }

  /** What the first `n` leaves of a list make. */
  ghost predicate MadeOf(part: Leaves, list: seq<Leaf>, leaves: Leaves, n: nat)
    requires n <= |list|
  {
    && part.Keys <= leaves.Keys
    && (forall k :: k in part ==> k in leaves && part[k] == leaves[k])
    && (forall i :: 0 <= i < |list| ==> (list[i].key in part <==> i < n))
  }

  lemma MadeOfNext(part: Leaves, list: seq<Leaf>, leaves: Leaves, n: nat)
    requires Lists(list, leaves) && n < |list| && MadeOf(part, list, leaves, n)
    ensures list[n].key !in part && MadeOf(part[list[n].key := list[n].value], list, leaves, n + 1)
  {
  }

  lemma {:induction false} RebuiltPart(setup: Setup, list: seq<Leaf>, leaves: Leaves, n: nat)
    requires Lists(list, leaves) && Compatible(setup, leaves) && n <= |list|
    ensures var r := Batch(setup, map[], list[..n]);
            r.2 == [] && MadeOf(r.0, list, leaves, n)
    decreases n
  {
    if n > 0 {
      RebuiltPart(setup, list, leaves, n - 1);
      assert list[..n][..n - 1] == list[..n - 1];
      var before := Batch(setup, map[], list[..n - 1]).0;
      MadeOfNext(before, list, leaves, n - 1);
      assert AddLeaf(setup, before, list[n - 1]).Some?;
    }
  }

  /** A census dumped and imported into an empty one is the same tree, whatever the order of the dump, and
      has the weight of its leaves. */
  lemma DumpIsRestored(setup: Setup, list: seq<Leaf>, leaves: Leaves)
    requires Lists(list, leaves) && Compatible(setup, leaves) && AllSized(list)
    ensures var r := Imported(setup, EMPTY, Encode(list));
            r.Some? && r.value.leaves == leaves && Weight(r.value) == Total(leaves) % Pow256(setup.hashLen)
  {
    ParseUndoesEncode(list);
    Rebuilt(setup, list, leaves);
    EmptyIsBalanced(setup);
    ImportBalancesExactly(setup, EMPTY, Encode(list));
  }

  lemma Rebuilt(setup: Setup, list: seq<Leaf>, leaves: Leaves)
    requires Lists(list, leaves) && Compatible(setup, leaves)
    ensures Batch(setup, map[], list).0 == leaves && Batch(setup, map[], list).2 == []
  {
    RebuiltPart(setup, list, leaves, |list|);
    assert list[..|list|] == list;
    var r := Batch(setup, map[], list).0;
    forall k | k in leaves ensures k in r {
      var i :| 0 <= i < |list| && list[i].key == k;
    }
  }

  lemma EmptyIsBalanced(setup: Setup)
    ensures Balanced(setup, EMPTY)
  {
    Remainder(0, Pow256(setup.hashLen), 0, 0);
  }

  // ---------------------------------------------------------------- the object

  class Tree {
    var state: State
    const setup: Setup

    constructor (setup: Setup)
      ensures state == EMPTY && this.setup == setup && Balanced(setup, state)
    {
      this.setup := setup;
      state := EMPTY;
      new;
      EmptyIsBalanced(setup);
    }

    method UpdateCensusWeight(w: Bytes)
      modifies this
      ensures state == Weighed(setup, old(state), FromLittleEndian(w))
    {
      var have := BytesLEToBigInt(if state.record.None? then [] else state.record.value);
      var more := BytesLEToBigInt(w);
      var record := BigIntToBytesLE(setup.hashLen, have + more);
      state := state.(record := Some(record));
    }

    method Add(key: Bytes, value: Option<Bytes>) returns (ok: bool)
      modifies this
      ensures ok <==> Added(setup, old(state), key, value).Some?
      ensures ok ==> state.leaves == old(state.leaves)[key := if value.Some? then value.value else []]
      ensures ok && value.Some? ==> Weight(state) == (old(Weight(state)) + FromLittleEndian(value.value)) % Pow256(setup.hashLen)
      ensures ok && value.None? ==> Weight(state) == old(Weight(state))
      ensures !ok ==> state == old(state)
      ensures state == Perform(setup, old(state), AddOp(key, value))
      ensures old(Balanced(setup, state)) ==> Balanced(setup, state)
    {
      if Balanced(setup, state) && Added(setup, state, key, value).Some? {
        AddKeepsBalance(setup, state, key, value);
      }
      var leaves := AddLeaf(setup, state.leaves, Leaf(key, if value.Some? then value.value else []));
      if leaves.None? {
        return false;
      }
      state := state.(leaves := leaves.value);
      if value.Some? {
        WeighedWeight(setup, state, FromLittleEndian(value.value));
        UpdateCensusWeight(value.value);
      }
      return true;
    }

    /** Returns the places of the rejected keys; fails when the lists differ in length. */
    method AddBatch(keys: seq<Bytes>, values: seq<Bytes>) returns (r: Option<seq<nat>>)
      modifies this
      ensures r.None? <==> |keys| != |values|
      ensures r.None? ==> state == old(state)
      ensures r.Some? ==> (state, r.value) == BatchAdded(setup, old(state), Zip(keys, values))
      ensures old(Balanced(setup, state)) ==> Balanced(setup, state)
    {
      if |keys| != |values| {
        return None;
      }
      ghost var list := Zip(keys, values);
      var leaves, weight, invalids := state.leaves, 0, [];
      for i := 0 to |keys|
        invariant (leaves, weight, invalids) == Batch(setup, state.leaves, list[..i])
        invariant state == old(state)
      {
        assert list[..i + 1][..i] == list[..i];
        var after := AddLeaf(setup, leaves, Leaf(keys[i], values[i]));
        if after.None? {
          invalids := invalids + [i];
          continue;
        }
        leaves := after.value;
        var added := BytesLEToBigInt(values[i]);
        weight := weight + added;
      }
      assert list[..|list|] == list;
      if Balanced(setup, state) {
        BatchKeepsBalance(setup, state, list);
      }
      state := state.(leaves := leaves);
      var w := BigIntToBytesLE(setup.hashLen, weight);
      UpdateCensusWeight(w);
      return Some(invalids);
    }

    /** The loop over the leaves, in any order. */
    method WeighLeaves() returns (weight: nat)
      ensures weight == Total(state.leaves)
    {
      weight := 0;
      var rest := state.leaves;
      while rest.Keys != {}
        invariant weight + Total(rest) == Total(state.leaves)
        decreases |rest|
      {
        var k :| k in rest.Keys;
        TotalWithout(rest, k);
        var added := BytesLEToBigInt(rest[k]);
        weight := weight + added;
        rest := rest - {k};
      }
    }

    method ImportDump(b: Bytes) returns (ok: bool)
      modifies this
      ensures ok <==> Imported(setup, old(state), b).Some?
      ensures state == Perform(setup, old(state), ImportOp(b))
      ensures ok && old(Balanced(setup, state)) ==> (Balanced(setup, state) <==> old(Weight(state)) == 0)
    {
      if Balanced(setup, state) && Imported(setup, state, b).Some? {
        ImportBalancesExactly(setup, state, b);
      }
      var list := Parse(b);
      if list.None? {
        return false;
      }
      var (leaves, _, invalids) := Batch(setup, state.leaves, list.value);
      if invalids != [] {
        return false;
      }
      state := state.(leaves := leaves);
      var weight := WeighLeaves();
      var w := BigIntToBytesLE(setup.hashLen, weight);
      UpdateCensusWeight(w);
      return true;
    }

    method GetCensusWeight() returns (weight: nat)
      ensures weight == Weight(state)
    {
      if state.record.None? {
        return 0;
      }
      weight := BytesLEToBigInt(state.record.value);
    }
  }

  function Zip(keys: seq<Bytes>, values: seq<Bytes>): (list: seq<Leaf>)
    requires |keys| == |values|
    ensures |list| == |keys| && forall i :: 0 <= i < |list| ==> list[i] == Leaf(keys[i], values[i])
  {
    seq(|keys|, i requires 0 <= i < |keys| => Leaf(keys[i], values[i]))
  }
}
