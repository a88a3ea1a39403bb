/** Types shared by every module of the model. */
module Base {

  newtype byte = x: int | 0 <= x < 256

  type Bytes = seq<byte>

  newtype uint32 = x: int | 0 <= x < 0x1_0000_0000

  datatype Option<+T> = None | Some(value: T) {
    function GetOr(other: T): T {
      if Some? then value else other
    }
  }

  datatype Result<+T, +E> = Ok(value: T) | Err(error: E)

  /** Lexicographic order of byte strings. */
  predicate LexLess(a: Bytes, b: Bytes)
    decreases |a|
  {
    if b == [] then false
    else if a == [] then true
    else a[0] < b[0] || (a[0] == b[0] && LexLess(a[1..], b[1..]))
  }

  /** The strings agree before `i`, and there the first one ends or has the smaller byte. */
  ghost predicate SmallerAt(a: Bytes, b: Bytes, i: nat) {
    i <= |a| && i < |b| && a[..i] == b[..i] && (i == |a| || a[i] < b[i])
  }

  lemma SmallerAtNext(a: Bytes, b: Bytes, i: nat)
    requires a != [] && b != []
    ensures SmallerAt(a, b, i + 1) <==> a[0] == b[0] && SmallerAt(a[1..], b[1..], i)
  {
    if i < |a| && i < |b| {
      var x, y := a[1..][..i], b[1..][..i];
      assert a[..i + 1] == [a[0]] + x && b[..i + 1] == [b[0]] + y;
      assert ([a[0]] + x)[1..] == x && ([b[0]] + y)[1..] == y;
      assert ([a[0]] + x)[0] == a[0] && ([b[0]] + y)[0] == b[0];
      assert i + 1 < |a| ==> a[1..][i] == a[i + 1];
      assert i + 1 < |b| ==> b[1..][i] == b[i + 1];
    }
  }

  /** The order is decided at the first difference. */
  lemma {:induction false} LexLessExactly(a: Bytes, b: Bytes)
    ensures LexLess(a, b) <==> exists i: nat :: SmallerAt(a, b, i)
    decreases |a|
  {
    if a == [] || b == [] {
      assert SmallerAt(a, b, 0) <==> LexLess(a, b);
    } else {
      var x, y := a[1..], b[1..];
      LexLessExactly(x, y);
      assert SmallerAt(a, b, 0) <==> a[0] < b[0];
      if a[0] == b[0] && LexLess(x, y) {
        var i: nat :| SmallerAt(x, y, i);
        SmallerAtNext(a, b, i);
      }
      if i: nat :| i > 0 && SmallerAt(a, b, i) {
        SmallerAtNext(a, b, i - 1);
        assert SmallerAt(x, y, i - 1);
      }
    }
  }

  /** Looks a key up in a map, as the databases of the system do. */
  function Lookup<K, V>(m: map<K, V>, k: K): (r: Option<V>)
    ensures r.Some? <==> k in m
  {
    if k in m then Some(m[k]) else None
  }

  /** Byte strings one after the other. */
  function Flat(parts: seq<Bytes>): Bytes {
    if parts == [] then [] else Flat(parts[..|parts| - 1]) + parts[|parts| - 1]
  }

  lemma FlatAppend(parts: seq<Bytes>, last: Bytes)
    ensures Flat(parts + [last]) == Flat(parts) + last
  {
    assert (parts + [last])[..|parts|] == parts;
  }

  lemma SubsetSize(a: set<nat>, b: set<nat>)
    requires a <= b
    ensures |a| <= |b|
  {
    assert b == a + (b - a);
  }

  ghost predicate Increasing(places: seq<nat>) {
    forall j, k :: 0 <= j < k < |places| ==> places[j] < places[k]
  }

  /** The places are those that are kept, in increasing order and each once. */
  ghost predicate Picks(places: seq<nat>, keep: seq<bool>) {
    && Increasing(places)
    && (forall i: nat :: i in places <==> i < |keep| && keep[i])
  }

  lemma IncreasingAppend(places: seq<nat>, last: nat)
    requires Increasing(places) && forall i :: i in places ==> i < last
    ensures Increasing(places + [last])
  {
    assert forall j :: 0 <= j < |places| ==> places[j] in places;
  }

  lemma PicksAppend(places: seq<nat>, keep: seq<bool>, last: bool)
    requires Picks(places, keep)
    ensures Picks(if last then places + [|keep|] else places, keep + [last])
  {
    var all := keep + [last];
    assert forall i: nat :: i < |all| && all[i] <==> (i < |keep| && keep[i]) || (i == |keep| && last);
    if last {
      IncreasingAppend(places, |keep|);
    }
  }
}
