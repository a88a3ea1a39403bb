/** Transfer of a snapshot file in chunks: the sender slices, the receiver keeps the chunks as files
    named by index and joins them when their number is the one announced. */
module Chunks {
  import opened Base

  type Directory = map<nat, Bytes>

  function Below(n: nat): (s: set<nat>)
    ensures forall i: nat :: i in s <==> i < n
  {
    if n == 0 then {} else Below(n - 1) + {n - 1}
  }

  /** The number of chunks offered: the size divided by the chunk size, rounded up. */
  function ChunkCount(size: nat, chunkSize: nat): nat
    requires chunkSize > 0
  {
    (size + chunkSize - 1) / chunkSize
  }

  /** SliceChunk; a chunk that begins past the end of the file has no size. */
  function SliceChunk(file: Bytes, chunkSize: nat, i: nat): Option<Bytes> {
    if i * chunkSize > |file| then None
    else
      var part := if chunkSize < |file| - i * chunkSize then chunkSize else |file| - i * chunkSize;
      Some(file[i * chunkSize..i * chunkSize + part])
  }

  // ---------------------------------------------------------------- the slices make up the file

  lemma MulMono(a: nat, b: nat, c: nat)
    requires a <= b
    ensures a * c <= b * c
  {
    assert b * c == a * c + (b - a) * c;
  }

  lemma MulNext(a: nat, c: nat)
    ensures (a + 1) * c == a * c + c
  {
  }

  /** The chunks cover the file, and the last one is not empty. */
  lemma CountCovers(size: nat, c: nat)
    requires c > 0
    ensures var n := ChunkCount(size, c); size <= n * c && (n > 0 ==> (n - 1) * c < size) && (n == 0 <==> size == 0)
  {
    var x := size + c - 1;
    var n := x / c;
    assert x == n * c + x % c;
    if n > 0 {
      MulNext(n - 1, c);
    }
  }

  lemma SliceBounds(size: nat, c: nat, i: nat)
    requires c > 0 && i < ChunkCount(size, c)
    ensures i * c < size && (i + 1) * c == i * c + c
    ensures i + 1 < ChunkCount(size, c) ==> (i + 1) * c < size
    ensures i + 1 == ChunkCount(size, c) ==> size <= (i + 1) * c
  {
    var n := ChunkCount(size, c);
    CountCovers(size, c);
    MulNext(i, c);
    MulMono(i, n - 1, c);
    if i + 1 < n {
      MulMono(i + 1, n - 1, c);
    }
  }

  /** The chunk served for an index that was announced. */
  function Slice(file: Bytes, c: nat, i: nat): (part: Bytes)
    requires c > 0 && i < ChunkCount(|file|, c)
    ensures SliceChunk(file, c, i) == Some(part)
  {
    SliceBounds(|file|, c, i);
    SliceChunk(file, c, i).value
  }

  function SlicesUpTo(file: Bytes, c: nat, n: nat): (parts: seq<Bytes>)
    requires c > 0 && n <= ChunkCount(|file|, c)
    ensures |parts| == n
    ensures forall i :: 0 <= i < n ==> parts[i] == Slice(file, c, i)
  {
    if n == 0 then [] else SlicesUpTo(file, c, n - 1) + [Slice(file, c, n - 1)]
  }

  /** The chunks of a file, in order. */
  function Slices(file: Bytes, c: nat): (parts: seq<Bytes>)
    requires c > 0
    ensures |parts| == ChunkCount(|file|, c)
    ensures forall i :: 0 <= i < |parts| ==> SliceChunk(file, c, i) == Some(parts[i])
  {
    SlicesUpTo(file, c, ChunkCount(|file|, c))
  }

  /** A chunk is the part of the file between its offset and the next one, or the end. */
  lemma SliceIs(file: Bytes, c: nat, i: nat, from: nat)
    requires c > 0 && i < ChunkCount(|file|, c) && from == i * c
    ensures from < |file|
    ensures if i + 1 < ChunkCount(|file|, c) then from + c < |file| else |file| <= from + c
    ensures Slice(file, c, i) == file[from..if i + 1 < ChunkCount(|file|, c) then from + c else |file|]
  {
    SliceBounds(|file|, c, i);
  }

  predicate CutAt(file: Bytes, part: Bytes, cuts: seq<nat>, i: nat)
    requires i + 1 < |cuts|
  {
    cuts[i] < cuts[i + 1] <= |file| && part == file[cuts[i]..cuts[i + 1]]
  }

  /** Parts cut one after the other out of a file make up what lies between the outermost cuts. */
  lemma {:induction false} PartsMakePrefix(file: Bytes, parts: seq<Bytes>, cuts: seq<nat>, k: nat)
    requires |cuts| == |parts| + 1 && k <= |parts| && cuts[0] == 0
    requires forall i :: 0 <= i < |parts| ==> CutAt(file, parts[i], cuts, i)
    ensures cuts[k] <= |file| && Flat(parts[..k]) == file[..cuts[k]]
    decreases k
  {
    if k > 0 {
      PartsMakePrefix(file, parts, cuts, k - 1);
      assert CutAt(file, parts[k - 1], cuts, k - 1);
      assert parts[..k][..k - 1] == parts[..k - 1];
      assert file[..cuts[k]] == file[..cuts[k - 1]] + file[cuts[k - 1]..cuts[k]];
    }
  }

  /** Where the file is cut: at the multiples of the chunk size, and at the end. */
  function Cuts(size: nat, c: nat): (cuts: seq<nat>)
    requires c > 0
    ensures |cuts| == ChunkCount(size, c) + 1
  {
    seq(ChunkCount(size, c) + 1, i requires 0 <= i => if i < ChunkCount(size, c) then i * c else size)
  }

  lemma OuterCuts(size: nat, c: nat)
    requires c > 0
    ensures Cuts(size, c)[0] == 0 && Cuts(size, c)[ChunkCount(size, c)] == size
  {
    CountCovers(size, c);
  }

  /** Two neighbouring cuts. */
  lemma CutsFrom(size: nat, c: nat, i: nat, from: nat)
    requires c > 0 && i < ChunkCount(size, c) && from == i * c
    ensures Cuts(size, c)[i] == from
    ensures Cuts(size, c)[i + 1] == if i + 1 < ChunkCount(size, c) then from + c else size
  {
    MulNext(i, c);
  }

  lemma SliceIsCut(file: Bytes, c: nat, i: nat, from: nat)
    requires c > 0 && i < ChunkCount(|file|, c) && from == i * c
    ensures CutAt(file, Slices(file, c)[i], Cuts(|file|, c), i) && 0 < |Slices(file, c)[i]| <= c
  {
    SliceIs(file, c, i, from);
    CutsFrom(|file|, c, i, from);
    assert Slices(file, c)[i] == Slice(file, c, i);
  }

  /** The slices are the file, for every size and chunk size. */
  lemma SlicesMakeFile(file: Bytes, c: nat)
    requires c > 0
    ensures Flat(Slices(file, c)) == file
    ensures forall i :: 0 <= i < |Slices(file, c)| ==> 0 < |Slices(file, c)[i]| <= c
  {
    forall i | 0 <= i < |Slices(file, c)|
      ensures CutAt(file, Slices(file, c)[i], Cuts(|file|, c), i) && 0 < |Slices(file, c)[i]| <= c
    {
      SliceIsCut(file, c, i, i * c);
    }
    OuterCuts(|file|, c);
    CutPartsMakeFile(file, Slices(file, c), Cuts(|file|, c));
  }

  lemma CutPartsMakeFile(file: Bytes, parts: seq<Bytes>, cuts: seq<nat>)
    requires |cuts| == |parts| + 1 && cuts[0] == 0 && cuts[|parts|] == |file|
    requires forall i :: 0 <= i < |parts| ==> CutAt(file, parts[i], cuts, i)
    ensures Flat(parts) == file
  {
    PartsMakePrefix(file, parts, cuts, |parts|);
    assert parts[..|parts|] == parts && file[..|file|] == file;
  }

  /** The concatenation of the first `k` chunks of a directory. */
  function Concatenated(dir: Directory, k: nat): Bytes
    requires forall i :: 0 <= i < k ==> i in dir
  {
    if k == 0 then [] else Concatenated(dir, k - 1) + dir[k - 1]
  }

  /** Every file of the directory is the right part for an index that exists. */
  ghost predicate Matching(dir: Directory, parts: seq<Bytes>) {
    forall i :: i in dir ==> i < |parts| && dir[i] == parts[i]
  }

  lemma {:induction false} ConcatenatedIsFlat(dir: Directory, parts: seq<Bytes>, k: nat)
    requires Matching(dir, parts) && k <= |parts| && forall i :: 0 <= i < k ==> i in dir
    ensures Concatenated(dir, k) == Flat(parts[..k])
    decreases k
  {
    if k > 0 {
      ConcatenatedIsFlat(dir, parts, k - 1);
      assert parts[..k][..k - 1] == parts[..k - 1];
    }
  }

  // ---------------------------------------------------------------- the receiver

  datatype Outcome =
    | Waiting
    | Joined(file: Bytes)
    | Broken

  class SnapshotManager {
    var chunks: Directory
    var expected: nat

    constructor ()
      ensures chunks == map[] && expected == 0
    {
      chunks, expected := map[], 0;
    }

    /** OfferSnapshot, once accepted, announces how many chunks will come. It leaves the directory alone. */
    method Offer(n: nat)
      modifies this`expected
      ensures expected == n
    {
      expected := n;
    }

    /** JoinChunks reads the chunks in order of index and removes each one; it fails at the first that is
        missing. */
    method JoinChunks() returns (r: Option<Bytes>)
      modifies this`chunks
      ensures r.Some? <==> forall i :: 0 <= i < expected ==> i in old(chunks)
      ensures r.Some? ==> r.value == Concatenated(old(chunks), expected) && chunks == old(chunks) - Below(expected)
      ensures r.None? ==> exists k :: 0 <= k < expected && FirstMissing(old(chunks), k) && chunks == old(chunks) - Below(k)
    {
      var file := [];
      for i := 0 to expected
        invariant forall j :: 0 <= j < i ==> j in old(chunks)
        invariant file == Concatenated(old(chunks), i)
        invariant chunks == old(chunks) - Below(i)
      {
        if i !in chunks {
          assert FirstMissing(old(chunks), i);
          return None;
        }
        file := file + chunks[i];
        chunks := chunks - {i};
      }
      return Some(file);
    }

    /** ApplySnapshotChunk. */
    method ApplyChunk(index: nat, chunk: Bytes) returns (r: Outcome)
      modifies this`chunks
      ensures r == Outcomes(old(chunks), expected, index, chunk)
      ensures !r.Broken? ==> chunks == After(old(chunks), expected, index, chunk)
      ensures r.Broken? ==>
              exists k :: 0 <= k < expected && FirstMissing(old(chunks)[index := chunk], k) &&
                          chunks == old(chunks)[index := chunk] - Below(k)
    {
      chunks := chunks[index := chunk];
      if |chunks| != expected {
        return Waiting;
      }
      var file := JoinChunks();
      return if file.Some? then Joined(file.value) else Broken;
    }
  }

  predicate FirstMissing(dir: Directory, k: nat) {
    k !in dir && forall i :: 0 <= i < k ==> i in dir
  }

  /** What becomes of a delivery to a directory that waits for `n` chunks. */
  ghost function Outcomes(dir: Directory, n: nat, index: nat, chunk: Bytes): Outcome {
    OutcomeWith(dir[index := chunk], n)
  }

  ghost function OutcomeWith(now: Directory, n: nat): Outcome {
    if |now| != n then Waiting
    else if forall i :: 0 <= i < n ==> i in now then Joined(Concatenated(now, n))
    else Broken
  }

  ghost function After(dir: Directory, n: nat, index: nat, chunk: Bytes): Directory {
    var now := dir[index := chunk];
    if |now| != n then now else now - Below(n)
  }

  // ---------------------------------------------------------------- any order

  lemma {:induction false} SizeBelow(s: set<nat>, n: nat)
    requires forall i :: i in s ==> i < n
    ensures |s| <= n
    ensures |s| == n <==> forall i: nat :: i < n ==> i in s
    decreases n
  {
    if n > 0 {
      var rest := s - {n - 1};
      SizeBelow(rest, n - 1);
      if n - 1 in s {
        assert s == rest + {n - 1};
      } else {
        assert s == rest;
        assert n - 1 !in s;
      }
    }
  }

  predicate HasAll(dir: Directory, n: nat) {
    forall i :: 0 <= i < n ==> i in dir
  }

  /** A delivery completes the transfer exactly when it makes every index present; then the file is
      rebuilt and the directory is empty. */
  lemma DeliveryIsRight(dir: Directory, parts: seq<Bytes>, index: nat)
    requires index < |parts| && Matching(dir, parts)
    ensures var now := dir[index := parts[index]];
            && Outcomes(dir, |parts|, index, parts[index]) == (if HasAll(now, |parts|) then Joined(Flat(parts)) else Waiting)
            && After(dir, |parts|, index, parts[index]) == (if HasAll(now, |parts|) then map[] else now)
            && Matching(now, parts)
  {
    var n := |parts|;
    var now := dir[index := parts[index]];
    assert Matching(now, parts);
    SizeBelow(now.Keys, n);
    assert |now| == |now.Keys|;
    if HasAll(now, n) {
      ConcatenatedIsFlat(now, parts, n);
      assert parts[..n] == parts;
      assert now - Below(n) == map[];
    }
  }

  predicate InRange(indexes: seq<nat>, n: nat) {
    forall j :: 0 <= j < |indexes| ==> indexes[j] < n
  }

  /** The directory after these deliveries, none of which completed it. */
  function Collected(dir: Directory, parts: seq<Bytes>, indexes: seq<nat>): (now: Directory)
    requires InRange(indexes, |parts|)
    ensures Matching(dir, parts) ==> Matching(now, parts)
  {
    if indexes == [] then dir
    else
      var last := indexes[|indexes| - 1];
      Collected(dir, parts, indexes[..|indexes| - 1])[last := parts[last]]
  }

  /** What a sequence of deliveries does: the directory it leaves and the outcome of the last one. */
  ghost function Deliver(dir: Directory, parts: seq<Bytes>, indexes: seq<nat>): (Directory, Outcome)
    requires InRange(indexes, |parts|)
  {
    if indexes == [] then (dir, Waiting)
    else
      var before := Deliver(dir, parts, indexes[..|indexes| - 1]).0;
      var last := indexes[|indexes| - 1];
      (After(before, |parts|, last, parts[last]), Outcomes(before, |parts|, last, parts[last]))
  }

  /** All the chunks are there. */
  ghost predicate Complete(dir: Directory, n: nat, indexes: seq<nat>) {
    forall i: nat :: i < n ==> i in dir || i in indexes
  }

  lemma {:induction false} CollectedKeys(dir: Directory, parts: seq<Bytes>, indexes: seq<nat>)
    requires InRange(indexes, |parts|)
    ensures forall i :: i in Collected(dir, parts, indexes) <==> i in dir || i in indexes
    ensures HasAll(Collected(dir, parts, indexes), |parts|) <==> Complete(dir, |parts|, indexes)
    decreases |indexes|
  {
    if indexes != [] {
      var init := indexes[..|indexes| - 1];
      assert indexes == init + [indexes[|indexes| - 1]];
      CollectedKeys(dir, parts, init);
    }
  }

  lemma EarlierIncomplete(dir: Directory, n: nat, indexes: seq<nat>)
    requires indexes != [] && !Complete(dir, n, indexes)
    ensures !Complete(dir, n, indexes[..|indexes| - 1])
  {
    var i: nat :| i < n && i !in dir && i !in indexes;
    assert i !in indexes[..|indexes| - 1];
  }

  /** Any-order delivery. Deliver parts in any order, with any repeats, to a directory that is empty or
      holds only right parts already. As long as an index is missing the receiver waits; the delivery that
      makes the last one present rebuilds the whole and leaves the directory empty. */
  lemma {:induction false} AnyOrderDelivery(dir: Directory, parts: seq<Bytes>, indexes: seq<nat>)
    requires InRange(indexes, |parts|) && Matching(dir, parts)
    requires indexes != [] && !Complete(dir, |parts|, indexes[..|indexes| - 1])
    ensures Deliver(dir, parts, indexes) ==
            if Complete(dir, |parts|, indexes) then (map[], Joined(Flat(parts)))
            else (Collected(dir, parts, indexes), Waiting)
    decreases |indexes|
  {
    var init, last := indexes[..|indexes| - 1], indexes[|indexes| - 1];
    if init != [] {
      EarlierIncomplete(dir, |parts|, init);
      AnyOrderDelivery(dir, parts, init);
    }
    DeliveryIsRight(Collected(dir, parts, init), parts, last);
    CollectedKeys(dir, parts, indexes);
  }

  /** The transfer of a file, for every content and chunk size: from an empty directory the receiver joins
      exactly when every index has arrived, and the result is the file byte for byte. */
  lemma AnyOrderTransfer(file: Bytes, c: nat, indexes: seq<nat>)
    requires c > 0 && InRange(indexes, ChunkCount(|file|, c))
    requires indexes != [] && !Complete(map[], ChunkCount(|file|, c), indexes[..|indexes| - 1])
    ensures Deliver(map[], Slices(file, c), indexes) ==
            if Complete(map[], ChunkCount(|file|, c), indexes) then (map[], Joined(file))
            else (Collected(map[], Slices(file, c), indexes), Waiting)
  {
    AnyOrderDelivery(map[], Slices(file, c), indexes);
    SlicesMakeFile(file, c);
  }

  /** The directory has to be clean: the join breaks exactly when the number of files reaches the announced
      one with a file left over from a longer transfer among them. */
  lemma JoinBreaksExactly(dir: Directory, n: nat, index: nat, chunk: Bytes)
    requires index < n
    ensures Outcomes(dir, n, index, chunk) == Broken <==>
            |dir[index := chunk]| == n && exists stale :: stale in dir && stale >= n
  {
    var now := dir[index := chunk];
    assert |now| == |now.Keys|;
    if stale :| stale in dir && stale >= n {
      assert stale in now;
      if HasAll(now, n) {
        var below := now.Keys - {stale};
        assert Below(n) <= below;
        SizeBelow(Below(n), n);
        SubsetSize(Below(n), below);
      }
    } else {
      SizeBelow(now.Keys, n);
    }
  }
}
