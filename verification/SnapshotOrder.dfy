/** The order of the trees in a snapshot. Listing the state iterates over maps, so the list comes in any
    order; sorting it by name, parent and key has to make one list of it. */
module SnapshotOrder {
  import opened Base

  /** A tree of the state, and the writes that dump it. */
  datatype TreeDescription = TreeDescription(name: Bytes, parent: Bytes, key: Bytes, root: Bytes, writes: seq<Bytes>)

  predicate Before(a: TreeDescription, b: TreeDescription) {
    if a.name != b.name then LexLess(a.name, b.name)
    else if a.parent != b.parent then LexLess(a.parent, b.parent)
    else LexLess(a.key, b.key)
  }

  predicate SameTriple(a: TreeDescription, b: TreeDescription) {
    a.name == b.name && a.parent == b.parent && a.key == b.key
  }

  ghost predicate Sorted(list: seq<TreeDescription>) {
    forall i, j :: 0 <= i < j < |list| ==> !Before(list[j], list[i])
  }

  ghost predicate Distinct(list: seq<TreeDescription>) {
    forall i, j :: 0 <= i < j < |list| ==> !SameTriple(list[i], list[j])
  }

  /** The order in so many words: names ascending, parents ascending under one name, keys ascending under one
      name and parent. */
  ghost predicate Ascends(list: seq<TreeDescription>) {
    forall i, j :: 0 <= i < j < |list| ==> GoesBefore(list[i], list[j])
  }

  ghost predicate GoesBefore(a: TreeDescription, b: TreeDescription) {
    && !LexLess(b.name, a.name)
    && (a.name == b.name ==> !LexLess(b.parent, a.parent))
    && (a.name == b.name && a.parent == b.parent ==> !LexLess(b.key, a.key))
  }

  lemma SortedExactly(list: seq<TreeDescription>)
    ensures Sorted(list) <==> Ascends(list)
  {
    forall a: TreeDescription, b: TreeDescription ensures !Before(b, a) <==> GoesBefore(a, b) {
      LexTotal(a.name, b.name);
      LexTotal(a.parent, b.parent);
      LexTotal(a.key, b.key);
    }
  }

  // ---------------------------------------------------------------- a total order

  lemma {:induction false} LexTotal(a: Bytes, b: Bytes)
    ensures LexLess(a, b) ==> !LexLess(b, a) && a != b
    ensures a == b || LexLess(a, b) || LexLess(b, a)
    decreases |a|
  {
    if a != [] && b != [] {
      LexTotal(a[1..], b[1..]);
      assert a == [a[0]] + a[1..] && b == [b[0]] + b[1..];
    }
  }

  lemma {:induction false} LexTransitive(a: Bytes, b: Bytes, c: Bytes)
    requires LexLess(a, b) && LexLess(b, c)
    ensures LexLess(a, c)
    decreases |a|
  {
    if a != [] && a[0] == b[0] == c[0] {
      LexTransitive(a[1..], b[1..], c[1..]);
    }
  }

  lemma BeforeTotal(a: TreeDescription, b: TreeDescription)
    ensures Before(a, b) ==> !Before(b, a)
    ensures SameTriple(a, b) <==> !Before(a, b) && !Before(b, a)
  {
    LexTotal(a.name, b.name);
    LexTotal(a.parent, b.parent);
    LexTotal(a.key, b.key);
  }

  lemma BeforeTransitive(a: TreeDescription, b: TreeDescription, c: TreeDescription)
    requires Before(a, b) && !Before(c, b)
    ensures Before(a, c)
  {
    BeforeTotal(b, c);
    if Before(b, c) {
      if a.name != b.name && b.name != c.name {
        LexTransitive(a.name, b.name, c.name);
        LexTotal(a.name, c.name);
      } else if a.name == b.name == c.name {
        if a.parent != b.parent && b.parent != c.parent {
          LexTransitive(a.parent, b.parent, c.parent);
          LexTotal(a.parent, c.parent);
        } else if a.parent == b.parent == c.parent {
          LexTransitive(a.key, b.key, c.key);
        }
      }
    }
  }

  // ---------------------------------------------------------------- the sort

  lemma InsertKeepsOrder(list: seq<TreeDescription>, t: TreeDescription, at: nat)
    requires Sorted(list) && at <= |list|
    requires forall j :: 0 <= j < at ==> !Before(t, list[j])
    requires at < |list| ==> Before(t, list[at])
    ensures Sorted(list[..at] + [t] + list[at..])
  {
    forall j | at <= j < |list| ensures !Before(list[j], t) {
      BeforeTotal(t, list[at]);
      if j > at {
        BeforeTransitive(t, list[at], list[j]);
        BeforeTotal(t, list[j]);
      }
    }
  }

  lemma InsertAdds(list: seq<TreeDescription>, t: TreeDescription, at: nat)
    requires at <= |list|
    ensures multiset(list[..at] + [t] + list[at..]) == multiset(list) + multiset{t}
  {
    assert list == list[..at] + list[at..];
  }

  method SortTrees(list: seq<TreeDescription>) returns (sorted: seq<TreeDescription>)
    ensures multiset(sorted) == multiset(list) && Sorted(sorted) && Ascends(sorted)
  {
    sorted := [];
    for i := 0 to |list|
      invariant multiset(sorted) == multiset(list[..i]) && Sorted(sorted)
    {
      var at := 0;
      while at < |sorted| && !Before(list[i], sorted[at])
        invariant 0 <= at <= |sorted|
        invariant forall j :: 0 <= j < at ==> !Before(list[i], sorted[j])
      {
        at := at + 1;
      }
      assert list[..i + 1] == list[..i] + [list[i]];
      InsertKeepsOrder(sorted, list[i], at);
      InsertAdds(sorted, list[i], at);
      sorted := sorted[..at] + [list[i]] + sorted[at..];
    }
    assert list[..|list|] == list;
    SortedExactly(sorted);
  }

  // ---------------------------------------------------------------- one list

  lemma SameFirst(a: seq<TreeDescription>, b: seq<TreeDescription>)
    requires Sorted(a) && Sorted(b) && Distinct(a) && multiset(a) == multiset(b) && a != []
    ensures b != [] && a[0] == b[0]
  {
    assert a[0] in multiset(b);
    var j :| 0 <= j < |b| && b[j] == a[0];
    assert b[0] in multiset(a);
    var i :| 0 <= i < |a| && a[i] == b[0];
    BeforeTotal(a[0], a[i]);
  }

  lemma RestOfBag(a: seq<TreeDescription>)
    requires a != []
    ensures a == [a[0]] + a[1..] && multiset(a[1..]) == multiset(a) - multiset{a[0]}
  {
    assert a == [a[0]] + a[1..];
  }

  /** Sorted arrangements of trees with different triples are one and the same. */
  lemma {:induction false} SortedIsUnique(a: seq<TreeDescription>, b: seq<TreeDescription>)
    requires Sorted(a) && Sorted(b) && Distinct(a) && multiset(a) == multiset(b)
    ensures a == b
    decreases |a|
  {
    assert |a| == |multiset(a)| == |multiset(b)| == |b|;
    if a != [] {
      SameFirst(a, b);
      RestOfBag(a);
      RestOfBag(b);
      SortedIsUnique(a[1..], b[1..]);
    }
  }

  /** Two trees with one triple can stand in either order: the result is then not determined. */
  lemma TiesAreOpen(a: TreeDescription, b: TreeDescription)
    requires SameTriple(a, b)
    ensures Sorted([a, b]) && Sorted([b, a]) && multiset([a, b]) == multiset([b, a])
  {
    BeforeTotal(a, b);
  }

  // ---------------------------------------------------------------- what is listed

  const MAIN: Bytes := [77, 97, 105, 110]
  const PROCESSES: Bytes := [80, 114, 111, 99, 101, 115, 115, 101, 115]

  /** The descriptions that DeepListStateTrees makes: the main tree, its sub-trees by name, and the child
      trees by name and process. */
  ghost predicate Listed(list: seq<TreeDescription>, mainTrees: set<Bytes>) {
    && MAIN !in mainTrees
    && (forall i :: 0 <= i < |list| ==>
          if list[i].parent == [] then list[i].key == [] && (list[i].name == MAIN || list[i].name in mainTrees)
          else list[i].parent == PROCESSES)
    // the ranges over a map's keys and over the process ids visit each of them once
    && (forall i, j :: 0 <= i < j < |list| && list[i].parent == [] && list[j].parent == [] ==> list[i].name != list[j].name)
    && (forall i, j :: 0 <= i < j < |list| && list[i].parent != [] && list[j].parent != [] ==>
          list[i].name != list[j].name || list[i].key != list[j].key)
  }

  /** So the sorted list of a state's trees does not depend on the order in which they were listed. */
  lemma ListingOrderIsIrrelevant(list: seq<TreeDescription>, mainTrees: set<Bytes>, a: seq<TreeDescription>, b: seq<TreeDescription>)
    requires Listed(list, mainTrees)
    requires Sorted(a) && multiset(a) == multiset(list) && Sorted(b) && multiset(b) == multiset(list)
    ensures a == b
  {
    assert Distinct(list);
    DistinctCarriesOver(list, a);
    SortedIsUnique(a, b);
  }

  lemma {:induction false} DistinctCarriesOver(a: seq<TreeDescription>, b: seq<TreeDescription>)
    requires Distinct(a) && multiset(a) == multiset(b)
    ensures Distinct(b)
  {
    forall i, j | 0 <= i < j < |b| ensures !SameTriple(b[i], b[j]) {
      assert b[i] in multiset(a) && b[j] in multiset(a);
      var k :| 0 <= k < |a| && a[k] == b[i];
      var l :| 0 <= l < |a| && a[l] == b[j];
      if k == l {
        OnceOnly(a, k);
        TwiceCounted(b, i, j);
      }
    }
  }

  lemma OnceOnly(a: seq<TreeDescription>, k: nat)
    requires Distinct(a) && k < |a|
    ensures multiset(a)[a[k]] == 1
  {
    assert a == a[..k] + [a[k]] + a[k + 1..];
    assert a[k] !in a[..k] && a[k] !in a[k + 1..];
  }

  lemma TwiceCounted(b: seq<TreeDescription>, i: nat, j: nat)
    requires i < j < |b| && b[i] == b[j]
    ensures multiset(b)[b[i]] >= 2
  {
    assert b == b[..j] + [b[j]] + b[j + 1..];
    assert b[i] == b[..j][i];
    assert b[i] in multiset(b[..j]);
  }
}
