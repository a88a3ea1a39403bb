/** Where the trees of the hierarchy live in the one key space of the database. */
module KeySpace {
  import opened Base
  import opened TreeLinks

  const SLASH: byte := 47
  const DOT: byte := 46

  /** The parts of a tree's storage beside its sub-trees. */
  datatype Area = TreeArea | NoStateArea | MetaArea

  function AreaKey(a: Area): byte {
    match a
    case TreeArea => 116
    case NoStateArea => 110
    case MetaArea => 109
  }

  const SUB_TREES: byte := 115

  // ---------------------------------------------------------------- path.Join

  /** The components of a slash-separated path. */
  function Components(s: Bytes): (cs: seq<Bytes>)
    ensures |cs| > 0
    decreases |s|
  {
    if s == [] then [[]]
    else
      var rest := Components(s[1..]);
      if s[0] == SLASH then [[]] + rest else [[s[0]] + rest[0]] + rest[1..]
  }

  /** A component that names something: not empty, not "." and not "..". */
  predicate Proper(c: Bytes) {
    c != [] && c != [DOT] && c != [DOT, DOT]
  }

  /** The lexical simplification of path.Clean for relative paths, on components. */
  function Simplify(done: seq<Bytes>, todo: seq<Bytes>): seq<Bytes>
    decreases |todo|
  {
    if todo == [] then done
    else if todo[0] == [] || todo[0] == [DOT] then Simplify(done, todo[1..])
    else if todo[0] == [DOT, DOT] && done != [] && done[|done| - 1] != [DOT, DOT] then Simplify(done[..|done| - 1], todo[1..])
    else Simplify(done + [todo[0]], todo[1..])
  }

  function Joined(cs: seq<Bytes>): Bytes
    decreases |cs|
  {
    if cs == [] then [] else if |cs| == 1 then cs[0] else cs[0] + [SLASH] + Joined(cs[1..])
  }

  /** path.Join(subKeySubTree, name). */
  function JoinSub(name: Bytes): Bytes {
    var cs := Simplify([], Components([SUB_TREES, SLASH] + name));
    if cs == [] then [DOT] else Joined(cs)
  }

  // ---------------------------------------------------------------- storage keys

  /** The prefix under which a tree and everything below it is stored. */
  function StoragePrefix(p: Path): Bytes {
    if p.Main? then [] else StoragePrefix(p.parent) + JoinSub(p.name) + [SLASH]
  }

  /** The database key of a tree's own key in one of its areas. */
  function StorageKey(p: Path, a: Area, key: Bytes): Bytes {
    StoragePrefix(p) + [AreaKey(a), SLASH] + key
  }

  /** Every name on the way is one proper path component. */
  ghost predicate SafeNames(p: Path) {
    p.Sub? ==> SLASH !in p.name && Proper(p.name) && SafeNames(p.parent)
  }

  lemma {:induction false} OneComponent(s: Bytes)
    requires SLASH !in s
    ensures Components(s) == [s]
    decreases |s|
  {
    if s != [] {
      OneComponent(s[1..]);
      assert [s[0]] + s[1..] == s;
    }
  }

  lemma {:induction false} ComponentsAppend(a: Bytes, b: Bytes)
    ensures Components(a + [SLASH] + b) == Components(a) + Components(b)
    decreases |a|
  {
    if a == [] {
      assert a + [SLASH] + b == [SLASH] + b && ([SLASH] + b)[1..] == b;
    } else {
      assert (a + [SLASH] + b)[0] == a[0];
      assert (a + [SLASH] + b)[1..] == a[1..] + [SLASH] + b;
      ComponentsAppend(a[1..], b);
    }
  }

  // ---------------------------------------------------------------- storage by components

  /** The components that remain of a sub-tree's name. */
  function CleanSub(name: Bytes): (cs: seq<Bytes>)
    ensures cs != []
  {
    var cs := Simplify([], Components([SUB_TREES, SLASH] + name));
    if cs == [] then [[DOT]] else cs
  }

  /** The components that remain along a path. */
  ghost function CleanComponents(p: Path): seq<Bytes> {
    if p.Main? then [] else CleanComponents(p.parent) + CleanSub(p.name)
  }

  /** Components, each with the slash that ends it. */
  ghost function Terminated(cs: seq<Bytes>): Bytes
    decreases |cs|
  {
    if cs == [] then [] else cs[0] + [SLASH] + Terminated(cs[1..])
  }

  ghost predicate SlashFree(cs: seq<Bytes>) {
    forall c :: c in cs ==> SLASH !in c
  }

  lemma {:induction false} TerminatedAppend(a: seq<Bytes>, b: seq<Bytes>)
    ensures Terminated(a + b) == Terminated(a) + Terminated(b)
    decreases |a|
  {
    if a == [] {
      assert a + b == b;
    } else {
      assert (a + b)[1..] == a[1..] + b;
      TerminatedAppend(a[1..], b);
      assert a[0] + [SLASH] + (Terminated(a[1..]) + Terminated(b)) == (a[0] + [SLASH] + Terminated(a[1..])) + Terminated(b);
    }
  }

  lemma {:induction false} JoinedTerminated(cs: seq<Bytes>)
    requires cs != []
    ensures Joined(cs) + [SLASH] == Terminated(cs)
    decreases |cs|
  {
    if |cs| == 1 {
      assert cs[1..] == [];
    } else {
      JoinedTerminated(cs[1..]);
      assert (cs[0] + [SLASH] + Joined(cs[1..])) + [SLASH] == cs[0] + [SLASH] + (Joined(cs[1..]) + [SLASH]);
    }
  }

  lemma {:induction false} ComponentsSlashFree(s: Bytes)
    ensures SlashFree(Components(s))
    decreases |s|
  {
    if s != [] {
      ComponentsSlashFree(s[1..]);
      var rest := Components(s[1..]);
      assert rest[0] in rest;
    }
  }

  lemma {:induction false} SimplifySlashFree(done: seq<Bytes>, todo: seq<Bytes>)
    requires SlashFree(done) && SlashFree(todo)
    ensures SlashFree(Simplify(done, todo))
    decreases |todo|
  {
    if todo != [] {
      var rest := todo[1..];
      assert SlashFree(rest) && todo[0] in todo;
      if todo[0] == [] || todo[0] == [DOT] {
        SimplifySlashFree(done, rest);
      } else if todo[0] == [DOT, DOT] && done != [] && done[|done| - 1] != [DOT, DOT] {
        SimplifySlashFree(done[..|done| - 1], rest);
      } else {
        SimplifySlashFree(done + [todo[0]], rest);
      }
    }
  }

  lemma CleanSubSlashFree(name: Bytes)
    ensures SlashFree(CleanSub(name))
  {
    ComponentsSlashFree([SUB_TREES, SLASH] + name);
    SimplifySlashFree([], Components([SUB_TREES, SLASH] + name));
  }

  lemma JoinSubIs(name: Bytes)
    ensures JoinSub(name) + [SLASH] == Terminated(CleanSub(name))
  {
    JoinedTerminated(CleanSub(name));
    assert Joined([[DOT]]) == [DOT];
  }

  /** A storage prefix is the remaining components of its path. */
  lemma {:induction false} StoragePrefixIs(p: Path)
    ensures StoragePrefix(p) == Terminated(CleanComponents(p)) && SlashFree(CleanComponents(p))
    decreases p
  {
    if p.Sub? {
      StoragePrefixIs(p.parent);
      JoinSubIs(p.name);
      CleanSubSlashFree(p.name);
      TerminatedAppend(CleanComponents(p.parent), CleanSub(p.name));
      assert StoragePrefix(p) == StoragePrefix(p.parent) + (JoinSub(p.name) + [SLASH]);
    }
  }

  // ---------------------------------------------------------------- isolation, exactly

  lemma FirstSlash(a: Bytes, x: Bytes, b: Bytes, y: Bytes)
    requires SLASH !in a && SLASH !in b && a + [SLASH] + x == b + [SLASH] + y
    ensures a == b && x == y
  {
    var s := a + [SLASH] + x;
    assert s[|a|] == SLASH && s[|b|] == SLASH;
    assert forall i :: 0 <= i < |a| ==> s[i] == a[i] && a[i] in a;
    assert forall i :: 0 <= i < |b| ==> s[i] == b[i] && b[i] in b;
    assert s[..|a|] == a && s[|a| + 1..] == x;
    assert s[..|b|] == b && s[|b| + 1..] == y;
  }

  /** Strings that begin with two lists of components: one list begins the other. */
  lemma {:induction false} OneBeginsOther(a: seq<Bytes>, x: Bytes, b: seq<Bytes>, y: Bytes)
    requires SlashFree(a) && SlashFree(b) && Terminated(a) + x == Terminated(b) + y
    ensures a <= b || b <= a
    decreases |a|
  {
    if a != [] && b != [] {
      var u, v := Terminated(a[1..]) + x, Terminated(b[1..]) + y;
      assert Terminated(a) + x == a[0] + [SLASH] + u && Terminated(b) + y == b[0] + [SLASH] + v;
      assert a[0] in a && b[0] in b;
      FirstSlash(a[0], u, b[0], v);
      OneBeginsOther(a[1..], x, b[1..], y);
      assert a == [a[0]] + a[1..] && b == [b[0]] + b[1..];
    }
  }

  lemma {:induction false} TerminatedLength(cs: seq<Bytes>)
    ensures |Terminated(cs)| >= |cs|
    decreases |cs|
  {
    if cs != [] {
      TerminatedLength(cs[1..]);
    }
  }

  lemma TerminatedBegins(a: seq<Bytes>, b: seq<Bytes>)
    requires a <= b
    ensures Terminated(b) == Terminated(a) + Terminated(b[|a|..])
  {
    assert b == a + b[|a|..];
    TerminatedAppend(a, b[|a|..]);
  }

  /** Two places, at whatever depths, have the same storage prefix if and only if the same components
      remain of their names. */
  lemma SamePrefixExactly(p: Path, q: Path)
    ensures StoragePrefix(p) == StoragePrefix(q) <==> CleanComponents(p) == CleanComponents(q)
  {
    var a, b := CleanComponents(p), CleanComponents(q);
    StoragePrefixIs(p);
    StoragePrefixIs(q);
    if StoragePrefix(p) == StoragePrefix(q) {
      assert Terminated(a) + [] == Terminated(b) + [];
      OneBeginsOther(a, [], b, []);
      if a <= b {
        TerminatedBegins(a, b);
        TerminatedLength(b[|a|..]);
      } else {
        TerminatedBegins(b, a);
        TerminatedLength(a[|b|..]);
      }
    }
  }

  /** The components under which one area of a place is stored. */
  ghost function AreaComponents(p: Path, a: Area): seq<Bytes> {
    CleanComponents(p) + [[AreaKey(a)]]
  }

  lemma StorageKeyIs(p: Path, a: Area, key: Bytes)
    ensures StorageKey(p, a, key) == Terminated(AreaComponents(p, a)) + key && SlashFree(AreaComponents(p, a))
  {
    StoragePrefixIs(p);
    TerminatedAppend(CleanComponents(p), [[AreaKey(a)]]);
    assert [[AreaKey(a)]][1..] == [];
    assert Terminated([[AreaKey(a)]]) == [AreaKey(a), SLASH];
  }

  /** Two areas, of any two places, share a database key. */
  ghost predicate Overlap(p: Path, a: Area, q: Path, b: Area) {
    exists k: Bytes, l: Bytes :: StorageKey(p, a, k) == StorageKey(q, b, l)
  }

  lemma OverlapIfBegins(p: Path, a: Area, q: Path, b: Area)
    requires AreaComponents(p, a) <= AreaComponents(q, b)
    ensures Overlap(p, a, q, b) && Overlap(q, b, p, a)
  {
    var x, y := AreaComponents(p, a), AreaComponents(q, b);
    var rest := Terminated(y[|x|..]);
    StorageKeyIs(p, a, rest);
    StorageKeyIs(q, b, []);
    TerminatedBegins(x, y);
    assert Terminated(y) + [] == Terminated(y);
    assert StorageKey(p, a, rest) == StorageKey(q, b, []);
  }

  /** Storage isolation, exactly, for all names: two areas share a database key if and only if the
      components of one begin those of the other. */
  lemma OverlapExactly(p: Path, a: Area, q: Path, b: Area)
    ensures Overlap(p, a, q, b) <==> AreaComponents(p, a) <= AreaComponents(q, b) || AreaComponents(q, b) <= AreaComponents(p, a)
  {
    if Overlap(p, a, q, b) {
      var k: Bytes, l: Bytes :| StorageKey(p, a, k) == StorageKey(q, b, l);
      StorageKeyIs(p, a, k);
      StorageKeyIs(q, b, l);
      OneBeginsOther(AreaComponents(p, a), k, AreaComponents(q, b), l);
    }
    if AreaComponents(p, a) <= AreaComponents(q, b) {
      OverlapIfBegins(p, a, q, b);
    } else if AreaComponents(q, b) <= AreaComponents(p, a) {
      OverlapIfBegins(q, b, p, a);
    }
  }

  // ---------------------------------------------------------------- names of one component

  lemma CleanSubOfSafeName(name: Bytes)
    requires SLASH !in name && Proper(name)
    ensures CleanSub(name) == [[SUB_TREES], name]
  {
    assert [SUB_TREES, SLASH] + name == [SUB_TREES] + [SLASH] + name;
    TwoComponents([SUB_TREES], name);
    ProperStays([], [[SUB_TREES], name]);
  }

  /** A proper component stays. */
  lemma SimplifyProper(done: seq<Bytes>, c: Bytes, rest: seq<Bytes>)
    requires Proper(c)
    ensures Simplify(done, [c] + rest) == Simplify(done + [c], rest)
  {
    assert ([c] + rest)[1..] == rest;
  }

  lemma {:induction false} SafeComponents(p: Path)
    requires p.Sub? && SafeNames(p)
    ensures CleanComponents(p) == CleanComponents(p.parent) + [[SUB_TREES], p.name]
  {
    CleanSubOfSafeName(p.name);
  }

  /** With safe names, components come in pairs, the first of each being the sub-tree mark. */
  lemma {:induction false} SafePairs(p: Path, i: nat)
    requires SafeNames(p) && i < |CleanComponents(p)|
    ensures |CleanComponents(p)| % 2 == 0 && (i % 2 == 0 ==> CleanComponents(p)[i] == [SUB_TREES])
    decreases p
  {
    if p.Sub? {
      SafeComponents(p);
      if i < |CleanComponents(p.parent)| {
        SafePairs(p.parent, i);
      } else if |CleanComponents(p.parent)| > 0 {
        SafePairs(p.parent, 0);
      }
    }
  }

  lemma {:induction false} SafeComponentsTellPlace(p: Path, q: Path)
    requires SafeNames(p) && SafeNames(q) && CleanComponents(p) == CleanComponents(q)
    ensures p == q
    decreases p
  {
    if p.Sub? {
      SafeComponents(p);
    }
    if q.Sub? {
      SafeComponents(q);
    }
    if p.Sub? && q.Sub? {
      var a, b, n := CleanComponents(p.parent), CleanComponents(q.parent), |CleanComponents(p)|;
      assert CleanComponents(p)[..n - 2] == a && CleanComponents(q)[..n - 2] == b;
      assert CleanComponents(p)[n - 1] == p.name && CleanComponents(q)[n - 1] == q.name;
      SafeComponentsTellPlace(p.parent, q.parent);
    }
  }

  lemma SafeAreasApart(p: Path, a: Area, q: Path, b: Area)
    requires SafeNames(p) && SafeNames(q) && AreaComponents(p, a) <= AreaComponents(q, b)
    ensures p == q && a == b
  {
    var x, y := CleanComponents(p), CleanComponents(q);
    var i := |x|;
    assert AreaComponents(q, b)[i] == AreaComponents(p, a)[i] == [AreaKey(a)];
    assert i % 2 == 0 by {
      if i > 0 {
        SafePairs(p, 0);
      }
    }
    assert [AreaKey(a)][0] != [SUB_TREES][0];
    if i < |y| {
      SafePairs(q, i);
    }
    assert i == |y|;
    assert x == AreaComponents(p, a)[..i] == AreaComponents(q, b)[..i] == y;
    assert [AreaKey(a)][0] == [AreaKey(b)][0];
    SafeComponentsTellPlace(p, q);
  }

  /** Storage isolation: with names that are single path components, no two trees at any depth, and
      no two areas of a tree, share a database key; the key tells the tree, the area and the tree's
      own key. */
  lemma StorageIsIsolated(p: Path, a: Area, k: Bytes, q: Path, b: Area, l: Bytes)
    requires SafeNames(p) && SafeNames(q)
    requires StorageKey(p, a, k) == StorageKey(q, b, l)
    ensures p == q && a == b && k == l
  {
    assert Overlap(p, a, q, b);
    OverlapExactly(p, a, q, b);
    if AreaComponents(p, a) <= AreaComponents(q, b) {
      SafeAreasApart(p, a, q, b);
    } else {
      SafeAreasApart(q, b, p, a);
    }
    var head := StoragePrefix(p) + [AreaKey(a), SLASH];
    assert (head + k)[|head|..] == k && (head + l)[|head|..] == l;
  }

  // ---------------------------------------------------------------- where isolation ends

  lemma {:induction false} SimplifyDrops(done: seq<Bytes>, todo: seq<Bytes>, rest: seq<Bytes>)
    ensures Simplify(done, todo + [[]] + rest) == Simplify(done, todo + rest)
    decreases |todo|
  {
    if todo == [] {
      assert todo + [[]] + rest == [[]] + rest && ([[]] + rest)[1..] == rest;
      assert todo + rest == rest;
    } else {
      assert (todo + [[]] + rest)[1..] == todo[1..] + [[]] + rest && (todo + rest)[1..] == todo[1..] + rest;
      assert (todo + [[]] + rest)[0] == todo[0] && (todo + rest)[0] == todo[0];
      if todo[0] == [] || todo[0] == [DOT] {
        SimplifyDrops(done, todo[1..], rest);
      } else if todo[0] == [DOT, DOT] && done != [] && done[|done| - 1] != [DOT, DOT] {
        SimplifyDrops(done[..|done| - 1], todo[1..], rest);
      } else {
        SimplifyDrops(done + [todo[0]], todo[1..], rest);
      }
    }
  }

  /** Isolation fails for names with slashes: a doubled slash is stored where a single one is, and two
      keys of the same length, one with the extra slash at the front and one at the end, give two
      sub-trees of a kind one storage. */
  lemma SlashesCollide(kind: Bytes, id: Bytes)
    ensures JoinSub(kind + [SLASH, SLASH] + id) == JoinSub(kind + [SLASH] + id)
    ensures JoinSub(kind + [SLASH] + id + [SLASH]) == JoinSub(kind + [SLASH] + id)
    ensures |kind + [SLASH, SLASH] + id| == |kind + [SLASH] + id + [SLASH]|
    ensures id != [] && SLASH !in id ==> kind + [SLASH, SLASH] + id != kind + [SLASH] + id + [SLASH]
  {
    var head := [SUB_TREES, SLASH] + kind;
    var one := [SUB_TREES, SLASH] + (kind + [SLASH] + id);
    assert one == head + [SLASH] + id;
    ComponentsAppend(head, id);

    assert [SUB_TREES, SLASH] + (kind + [SLASH, SLASH] + id) == head + [SLASH] + ([] + [SLASH] + id);
    ComponentsAppend(head, [] + [SLASH] + id);
    ComponentsAppend([], id);
    assert Components(head) + (Components([]) + Components(id)) == Components(head) + [[]] + Components(id);
    SimplifyDrops([], Components(head), Components(id));

    assert [SUB_TREES, SLASH] + (kind + [SLASH] + id + [SLASH]) == one + [SLASH] + [];
    ComponentsAppend(one, []);
    assert Components(one) + [[]] + [] == Components(one) + [[]] && Components(one) + [] == Components(one);
    SimplifyDrops([], Components(one), []);

    if id != [] && SLASH !in id {
      var two := kind + [SLASH, SLASH] + id;
      assert two[|two| - 1] == id[|id| - 1];
    }
  }

  lemma {:induction false} ProperStays(done: seq<Bytes>, todo: seq<Bytes>)
    requires forall c :: c in todo ==> Proper(c)
    ensures Simplify(done, todo) == done + todo
    decreases |todo|
  {
    if todo == [] {
      assert done + todo == done;
    } else {
      assert todo[0] in todo;
      ProperStays(done + [todo[0]], todo[1..]);
      assert done + [todo[0]] + todo[1..] == done + todo;
    }
  }

  lemma TwoComponents(a: Bytes, b: Bytes)
    requires SLASH !in a && SLASH !in b
    ensures Components(a + [SLASH] + b) == [a, b]
  {
    ComponentsAppend(a, b);
    OneComponent(a);
    OneComponent(b);
  }

  lemma NestedComponents(a: Bytes, b: Bytes)
    requires SLASH !in a && SLASH !in b
    ensures Components([SUB_TREES, SLASH] + (a + [SLASH, SUB_TREES, SLASH] + b)) == [[SUB_TREES], a, [SUB_TREES], b]
  {
    var s: Bytes := [SUB_TREES];
    var outer, inner := s + [SLASH] + a, s + [SLASH] + b;
    TwoComponents(s, a);
    TwoComponents(s, b);
    ComponentsAppend(outer, inner);
    assert [SUB_TREES, SLASH] + (a + [SLASH, SUB_TREES, SLASH] + b) == outer + [SLASH] + inner;
  }

  /** Trees at different depths can share their storage: the sub-tree "a/s/b" of a place is stored where
      the sub-tree "b" of its sub-tree "a" is. */
  lemma DepthsCollide(p: Path, a: Bytes, b: Bytes)
    requires SLASH !in a && Proper(a) && SLASH !in b && Proper(b)
    ensures StoragePrefix(Sub(p, a + [SLASH, SUB_TREES, SLASH] + b)) == StoragePrefix(Sub(Sub(p, a), b))
  {
    var name := a + [SLASH, SUB_TREES, SLASH] + b;
    NestedComponents(a, b);
    ProperStays([], Components([SUB_TREES, SLASH] + name));
    CleanSubOfSafeName(a);
    CleanSubOfSafeName(b);
    assert CleanSub(name) == CleanSub(a) + CleanSub(b);
    assert CleanComponents(Sub(p, name)) == CleanComponents(Sub(Sub(p, a), b));
    SamePrefixExactly(Sub(p, name), Sub(Sub(p, a), b));
  }

  /** The name "../x" leaves the component "x" alone. */
  lemma ClimbingName(x: Bytes)
    requires SLASH !in x && Proper(x)
    ensures CleanSub([DOT, DOT] + [SLASH] + x) == [x]
  {
    var s: Bytes, up: Bytes := [SUB_TREES], [DOT, DOT];
    assert [SUB_TREES, SLASH] + (up + [SLASH] + x) == s + [SLASH] + (up + [SLASH] + x);
    ComponentsAppend(s, up + [SLASH] + x);
    OneComponent(s);
    TwoComponents(up, x);
    SimplifyProper([], s, [up, x]);
    assert [up, x][1..] == [x] && ([] + [s])[..0] == [];
    ProperStays([], [x]);
  }

  /** A name that climbs out lands in its parent's own tree: every key of the sub-tree "../t" is a key of
      the tree it hangs from. */
  lemma NamesCanClimb(p: Path, a: Area, key: Bytes)
    ensures StorageKey(Sub(p, [DOT, DOT] + [SLASH] + [AreaKey(TreeArea)]), a, key) == StorageKey(p, TreeArea, [AreaKey(a), SLASH] + key)
  {
    var t: Bytes := [AreaKey(TreeArea)];
    ClimbingName(t);
    JoinSubIs([DOT, DOT] + [SLASH] + t);
    assert [t][1..] == [];
    assert Terminated([t]) == t + [SLASH];
  }

  /** The prefix of a non-singleton sub-tree. */
  function WithKey(kindID: Bytes, key: Bytes): Bytes {
    kindID + key
  }

  lemma SharedStart(c: Bytes, k: Bytes, d: Bytes, l: Bytes)
    requires WithKey(c, k) == WithKey(d, l)
    ensures c <= d || d <= c
  {
    var s := WithKey(c, k);
    assert s[..|c|] == c && s[..|d|] == d;
    if |c| <= |d| {
      assert d[..|c|] == s[..|c|];
    } else {
      assert c[..|d|] == s[..|d|];
    }
  }

  /** Two kinds of sub-tree under one parent never get the same prefix exactly when neither kind
      identifier begins the other; being different, as the documentation asks, is not enough. */
  lemma KindsApart(c: Bytes, d: Bytes)
    ensures (forall k: Bytes, l: Bytes {:trigger WithKey(c, k), WithKey(d, l)} :: WithKey(c, k) != WithKey(d, l)) <==> !(c <= d) && !(d <= c)
  {
    if c <= d {
      assert WithKey(c, d[|c|..]) == WithKey(d, []);
    } else if d <= c {
      assert WithKey(c, []) == WithKey(d, c[|d|..]);
    } else {
      forall k: Bytes, l: Bytes ensures WithKey(c, k) != WithKey(d, l) {
        if WithKey(c, k) == WithKey(d, l) {
          SharedStart(c, k, d, l);
        }
      }
    }
  }
}
