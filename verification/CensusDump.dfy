/** The dump of a tree: its leaves one after the other, each behind the lengths of its key and value. */
module CensusDump {
  import opened Base
  import opened Numbers

  datatype Leaf = Leaf(key: Bytes, value: Bytes)

  /** The lengths that the tree accepts and the dump can write. */
  predicate Sized(leaf: Leaf) {
    |leaf.key| <= 255 && |leaf.value| <= 65535
  }

  function Entry(leaf: Leaf): Bytes
    requires Sized(leaf)
  {
    [|leaf.key| as byte] + LittleEndian(2, |leaf.value|) + leaf.key + leaf.value
  }

  predicate AllSized(list: seq<Leaf>) {
    forall i :: 0 <= i < |list| ==> Sized(list[i])
  }

  function Encode(list: seq<Leaf>): Bytes
    requires AllSized(list)
  {
    if list == [] then [] else Entry(list[0]) + Encode(list[1..])
  }

  /** The first entry of a dump and what comes after it; nothing when the dump stops short. */
  function FirstEntry(b: Bytes): (r: Option<(Leaf, Bytes)>)
    ensures r.Some? ==> |r.value.1| < |b|
  {
    if |b| < 3 then None
    else
      var k, v := b[0] as nat, b[1] as nat + 256 * b[2] as nat;
      if |b| < 3 + k + v then None
      else Some((Leaf(b[3..3 + k], b[3 + k..3 + k + v]), b[3 + k + v..]))
  }

  function Parsed(b: Bytes): Option<seq<Leaf>>
    decreases |b|
  {
    if b == [] then Some([])
    else if FirstEntry(b).None? then None
    else
      var (leaf, rest) := FirstEntry(b).value;
      var more := Parsed(rest);
      if more.None? then None else Some([leaf] + more.value)
  }

  function Behind(list: seq<Leaf>, more: Option<seq<Leaf>>): Option<seq<Leaf>> {
    if more.None? then None else Some(list + more.value)
  }

  lemma ParsedStep(list: seq<Leaf>, b: Bytes)
    requires b != []
    ensures FirstEntry(b).None? ==> Behind(list, Parsed(b)) == None
    ensures FirstEntry(b).Some? ==>
              Behind(list, Parsed(b)) == Behind(list + [FirstEntry(b).value.0], Parsed(FirstEntry(b).value.1))
  {
    if FirstEntry(b).Some? {
      var (leaf, rest) := FirstEntry(b).value;
      var more := Parsed(rest);
      assert more.Some? ==> list + ([leaf] + more.value) == (list + [leaf]) + more.value;
    }
  }

  /** The reading loop of an import: it ends well only at the end of the input. */
  method Parse(b: Bytes) returns (r: Option<seq<Leaf>>)
    ensures r == Parsed(b)
  {
    var list, rest := [], b;
    assert Parsed(b).Some? ==> [] + Parsed(b).value == Parsed(b).value;
    while rest != []
      invariant Parsed(b) == Behind(list, Parsed(rest))
      decreases |rest|
    {
      var first := FirstEntry(rest);
      ParsedStep(list, rest);
      if first.None? {
        return None;
      }
      list, rest := list + [first.value.0], first.value.1;
    }
    assert list + [] == list;
    return Some(list);
  }

  lemma LengthField(n: nat)
    requires n <= 65535
    ensures LittleEndian(2, n) == [(n % 256) as byte, (n / 256) as byte]
  {
    assert LittleEndian(1, n / 256) == [(n / 256 % 256) as byte] + LittleEndian(0, n / 256 / 256);
  }

  lemma FirstOfEntry(leaf: Leaf, rest: Bytes)
    requires Sized(leaf)
    ensures FirstEntry(Entry(leaf) + rest) == Some((leaf, rest))
  {
    LengthField(|leaf.value|);
    var b := Entry(leaf) + rest;
    var k, v := |leaf.key|, |leaf.value|;
    assert b[0] as nat == k && b[1] as nat + 256 * b[2] as nat == v;
    assert b[3..3 + k] == leaf.key && b[3 + k..3 + k + v] == leaf.value && b[3 + k + v..] == rest;
  }

  lemma EntryOfFirst(b: Bytes)
    requires FirstEntry(b).Some?
    ensures var (leaf, rest) := FirstEntry(b).value; Sized(leaf) && Entry(leaf) + rest == b
  {
    var k, v := b[0] as nat, b[1] as nat + 256 * b[2] as nat;
    LengthField(v);
    assert b == b[..3] + b[3..3 + k] + b[3 + k..3 + k + v] + b[3 + k + v..];
    assert b[..3] == [b[0], b[1], b[2]];
  }

  /** The layout of an entry: one byte with the length of the key, two with that of the value, low byte first,
      the key, the value. */
  lemma EntryLayout(leaf: Leaf)
    requires Sized(leaf)
    ensures var b, k, v := Entry(leaf), |leaf.key|, |leaf.value|;
            && |b| == 3 + k + v
            && b[0] as nat == k && b[1] as nat == v % 256 && b[2] as nat == v / 256
            && b[3..3 + k] == leaf.key && b[3 + k..] == leaf.value
  {
    LengthField(|leaf.value|);
  }

  /** What was dumped is read back, leaf by leaf. */
  lemma {:induction false} ParseUndoesEncode(list: seq<Leaf>)
    requires AllSized(list)
    ensures Parsed(Encode(list)) == Some(list)
    decreases |list|
  {
    if list != [] {
      FirstOfEntry(list[0], Encode(list[1..]));
      ParseUndoesEncode(list[1..]);
      assert list == [list[0]] + list[1..];
    }
  }

  /** Whatever parses is the dump of what it parses to: a dump has one reading, a list has one dump. */
  lemma {:induction false} EncodeUndoesParse(b: Bytes)
    requires Parsed(b).Some?
    ensures AllSized(Parsed(b).value) && Encode(Parsed(b).value) == b
    decreases |b|
  {
    if b != [] {
      var (leaf, rest) := FirstEntry(b).value;
      EncodeUndoesParse(rest);
      EntryOfFirst(b);
      assert ([leaf] + Parsed(rest).value)[1..] == Parsed(rest).value;
    }
  }
}
