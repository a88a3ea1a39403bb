/** Transfers into a chunk directory that was not emptied: files of an abandoned transfer are still there
    when the next snapshot is offered. */
module ChunkLeftovers {
  import opened Base
  import opened Chunks

  /** No leftover has an index that the transfer does not have. */
  ghost predicate NoneBeyond(dir: Directory, n: nat) {
    forall i :: i in dir ==> i < n
  }

  /** Every leftover that is not the right chunk is replaced by a delivery. */
  ghost predicate WrongReplaced(dir: Directory, parts: seq<Bytes>, indexes: seq<nat>) {
    forall i :: i in dir && i < |parts| && dir[i] != parts[i] ==> i in indexes
  }

  /** The directory after the first `k` deliveries, if none of them ended the transfer. */
  ghost function After(dir: Directory, parts: seq<Bytes>, indexes: seq<nat>, k: nat): Directory
    requires InRange(indexes, |parts|) && k <= |indexes|
  {
    Collected(dir, parts, indexes[..k])
  }

  /** None of the first `m` deliveries brings the number of files to the announced one. */
  ghost predicate Quiet(dir: Directory, parts: seq<Bytes>, indexes: seq<nat>, m: nat)
    requires InRange(indexes, |parts|) && m <= |indexes|
  {
    forall k :: 0 < k <= m ==> |After(dir, parts, indexes, k)| != |parts|
  }

  /** What the join reads: the delivered chunks, and leftovers where nothing was delivered. */
  ghost function Overlaid(dir: Directory, parts: seq<Bytes>, indexes: seq<nat>): (r: seq<Bytes>)
    requires Complete(dir, |parts|, indexes)
    ensures |r| == |parts| && forall i :: 0 <= i < |r| ==> r[i] == if i in indexes then parts[i] else dir[i]
  {
    seq(|parts|, i requires 0 <= i < |parts| => if i in indexes then parts[i] else dir[i])
  }

  lemma {:induction false} CollectedContents(dir: Directory, parts: seq<Bytes>, indexes: seq<nat>)
    requires InRange(indexes, |parts|)
    ensures forall i :: i in Collected(dir, parts, indexes) ==>
              && (i in indexes ==> i < |parts| && Collected(dir, parts, indexes)[i] == parts[i])
              && (i !in indexes ==> i in dir && Collected(dir, parts, indexes)[i] == dir[i])
    decreases |indexes|
  {
    if indexes != [] {
      var init := indexes[..|indexes| - 1];
      assert indexes == init + [indexes[|indexes| - 1]];
      CollectedContents(dir, parts, init);
    }
  }

  lemma AfterNext(dir: Directory, parts: seq<Bytes>, indexes: seq<nat>, k: nat)
    requires InRange(indexes, |parts|) && k < |indexes|
    ensures After(dir, parts, indexes, k + 1) == After(dir, parts, indexes, k)[indexes[k] := parts[indexes[k]]]
    ensures var before := Deliver(dir, parts, indexes[..k]).0;
            Deliver(dir, parts, indexes[..k + 1]) ==
            (Chunks.After(before, |parts|, indexes[k], parts[indexes[k]]), Outcomes(before, |parts|, indexes[k], parts[indexes[k]]))
  {
    assert indexes[..k + 1][..k] == indexes[..k];
  }

  lemma {:induction false} QuietWaits(dir: Directory, parts: seq<Bytes>, indexes: seq<nat>, m: nat)
    requires InRange(indexes, |parts|) && m <= |indexes| && Quiet(dir, parts, indexes, m)
    ensures Deliver(dir, parts, indexes[..m]) == (After(dir, parts, indexes, m), Waiting)
    decreases m
  {
    if m > 0 {
      QuietWaits(dir, parts, indexes, m - 1);
      AfterNext(dir, parts, indexes, m - 1);
    }
  }

  /** The delivery after quiet ones ends as the directory it makes says. */
  lemma NextOutcome(dir: Directory, parts: seq<Bytes>, indexes: seq<nat>, m: nat)
    requires InRange(indexes, |parts|) && m < |indexes| && Quiet(dir, parts, indexes, m)
    ensures Deliver(dir, parts, indexes[..m + 1]).1 == OutcomeWith(After(dir, parts, indexes, m + 1), |parts|)
  {
    QuietWaits(dir, parts, indexes, m);
    AfterNext(dir, parts, indexes, m);
  }

  // ---------------------------------------------------------------- which files are rebuilt

  lemma {:induction false} FlatTellsParts(a: seq<Bytes>, b: seq<Bytes>)
    requires |a| == |b| && (forall i :: 0 <= i < |a| ==> |a[i]| == |b[i]|) && Flat(a) == Flat(b)
    ensures a == b
    decreases |a|
  {
    if a != [] {
      var m := |a| - 1;
      var x, y := Flat(a[..m]), Flat(b[..m]);
      assert Flat(a) == x + a[m] && Flat(b) == y + b[m];
      var p := |Flat(a)| - |a[m]|;
      assert Flat(a)[..p] == x && Flat(b)[..p] == y;
      assert Flat(a)[p..] == a[m] && Flat(b)[p..] == b[m];
      FlatTellsParts(a[..m], b[..m]);
      assert a == a[..m] + [a[m]] && b == b[..m] + [b[m]];
    }
  }

  /** A wrong leftover has another length than the chunk it stands for, and is not replaced. */
  ghost predicate OtherCuts(dir: Directory, parts: seq<Bytes>, indexes: seq<nat>) {
    exists i :: i in dir && i < |parts| && i !in indexes && |dir[i]| != |parts[i]|
  }

  lemma RightBytesExactly(dir: Directory, parts: seq<Bytes>, indexes: seq<nat>)
    requires Complete(dir, |parts|, indexes)
    ensures Overlaid(dir, parts, indexes) == parts <==> WrongReplaced(dir, parts, indexes)
    ensures !OtherCuts(dir, parts, indexes) ==>
              (Flat(Overlaid(dir, parts, indexes)) == Flat(parts) <==> WrongReplaced(dir, parts, indexes))
  {
    var read := Overlaid(dir, parts, indexes);
    if read == parts {
      forall i | i in dir && i < |parts| && dir[i] != parts[i] ensures i in indexes {
        assert read[i] == parts[i];
      }
    }
    if !OtherCuts(dir, parts, indexes) && Flat(read) == Flat(parts) {
      forall i | 0 <= i < |parts| ensures |read[i]| == |parts[i]| {
        assert i in dir || i in indexes;
      }
      FlatTellsParts(read, parts);
    }
  }

  lemma CollectedBelow(dir: Directory, parts: seq<Bytes>, indexes: seq<nat>)
    requires InRange(indexes, |parts|)
    ensures NoneBeyond(Collected(dir, parts, indexes), |parts|) <==> NoneBeyond(dir, |parts|)
  {
    CollectedKeys(dir, parts, indexes);
    forall i | i in indexes ensures i < |parts| {
      var j :| 0 <= j < |indexes| && indexes[j] == i;
    }
  }

  /** With no file beyond the transfer, the count is right exactly when every index is present. */
  lemma CountIsRight(now: Directory, n: nat)
    requires NoneBeyond(now, n)
    ensures |now| == n <==> HasAll(now, n)
  {
    SizeBelow(now.Keys, n);
    assert |now| == |now.Keys|;
  }

  /** With one, it is reached before every index is present. */
  lemma CountIsWrong(now: Directory, n: nat)
    requires !NoneBeyond(now, n) && |now| == n
    ensures !HasAll(now, n)
  {
    var stale :| stale in now && stale >= n;
    if HasAll(now, n) {
      var below := now.Keys - {stale};
      assert Below(n) <= below;
      SizeBelow(Below(n), n);
      SubsetSize(Below(n), below);
    }
  }

  lemma JoinReadsOverlay(dir: Directory, parts: seq<Bytes>, indexes: seq<nat>)
    requires InRange(indexes, |parts|) && NoneBeyond(dir, |parts|) && Complete(dir, |parts|, indexes)
    requires HasAll(Collected(dir, parts, indexes), |parts|)
    ensures Concatenated(Collected(dir, parts, indexes), |parts|) == Flat(Overlaid(dir, parts, indexes))
  {
    var now, read := Collected(dir, parts, indexes), Overlaid(dir, parts, indexes);
    CollectedBelow(dir, parts, indexes);
    CollectedContents(dir, parts, indexes);
    ConcatenatedIsFlat(now, read, |parts|);
    assert read[..|parts|] == read;
  }

  lemma LastOutcome(dir: Directory, parts: seq<Bytes>, indexes: seq<nat>)
    requires InRange(indexes, |parts|) && indexes != [] && Quiet(dir, parts, indexes, |indexes| - 1)
    ensures Deliver(dir, parts, indexes).1 == OutcomeWith(Collected(dir, parts, indexes), |parts|)
  {
    NextOutcome(dir, parts, indexes, |indexes| - 1);
    assert indexes[..|indexes|] == indexes;
  }

  /** The first delivery that can end a transfer into any directory. It joins if and only if no leftover
      lies beyond the transfer and every index is present, and then reads leftovers where nothing was
      delivered; it breaks if and only if a leftover lies beyond and the number of files is reached. */
  lemma FirstJoin(dir: Directory, parts: seq<Bytes>, indexes: seq<nat>)
    requires InRange(indexes, |parts|) && indexes != [] && Quiet(dir, parts, indexes, |indexes| - 1)
    ensures var r := Deliver(dir, parts, indexes).1;
            && (r.Joined? <==> NoneBeyond(dir, |parts|) && Complete(dir, |parts|, indexes))
            && (r.Joined? ==> r.file == Flat(Overlaid(dir, parts, indexes)))
            && (r.Broken? <==> !NoneBeyond(dir, |parts|) && |Collected(dir, parts, indexes)| == |parts|)
  {
    var now, n := Collected(dir, parts, indexes), |parts|;
    LastOutcome(dir, parts, indexes);
    CollectedKeys(dir, parts, indexes);
    CollectedBelow(dir, parts, indexes);
    if NoneBeyond(now, n) {
      CountIsRight(now, n);
      if HasAll(now, n) {
        JoinReadsOverlay(dir, parts, indexes);
      }
    } else if |now| == n {
      CountIsWrong(now, n);
    }
  }

  /** Exactly when a transfer into a directory with leftovers rebuilds its file, for every directory, every
      file and every order of deliveries: no leftover lies beyond the transfer, and every wrong one is
      replaced no later than the delivery that makes the last index present. The one exception is bytes
      that fall together although they are cut differently, which needs an unreplaced leftover of another
      length than its chunk. */
  lemma TransferIsRightExactly(dir: Directory, parts: seq<Bytes>, indexes: seq<nat>)
    requires InRange(indexes, |parts|) && indexes != [] && Quiet(dir, parts, indexes, |indexes| - 1)
    ensures Deliver(dir, parts, indexes).1 == Joined(Flat(parts)) <==>
            && NoneBeyond(dir, |parts|) && Complete(dir, |parts|, indexes)
            && (|| WrongReplaced(dir, parts, indexes)
                || (OtherCuts(dir, parts, indexes) && Flat(Overlaid(dir, parts, indexes)) == Flat(parts)))
  {
    FirstJoin(dir, parts, indexes);
    if Complete(dir, |parts|, indexes) {
      RightBytesExactly(dir, parts, indexes);
    }
  }

  /** The condition for a file: with leftovers cut as the file is, its transfer ends right if and only if no
      leftover lies beyond it and every wrong one is replaced in time. */
  lemma FileIsRightExactly(dir: Directory, file: Bytes, c: nat, indexes: seq<nat>)
    requires c > 0 && InRange(indexes, ChunkCount(|file|, c)) && indexes != []
    requires Quiet(dir, Slices(file, c), indexes, |indexes| - 1) && !OtherCuts(dir, Slices(file, c), indexes)
    ensures Deliver(dir, Slices(file, c), indexes).1 == Joined(file) <==>
            NoneBeyond(dir, ChunkCount(|file|, c)) && Complete(dir, ChunkCount(|file|, c), indexes) && WrongReplaced(dir, Slices(file, c), indexes)
  {
    TransferIsRightExactly(dir, Slices(file, c), indexes);
    SlicesMakeFile(file, c);
  }

  lemma OneDelivery(dir: Directory, parts: seq<Bytes>, indexes: seq<nat>)
    requires |indexes| == 1 && indexes[0] < |parts|
    ensures Deliver(dir, parts, indexes).1 == OutcomeWith(dir[indexes[0] := parts[indexes[0]]], |parts|)
  {
    assert indexes[..0] == [];
  }

  lemma ThreeFiles(now: Directory, n: nat)
    requires n == 3 && now.Keys == {0, 1, 2}
    ensures OutcomeWith(now, n) == Joined(now[0] + now[1] + now[2])
  {
    assert |now| == |now.Keys| == n;
    assert Concatenated(now, n) == Concatenated(now, n - 1) + now[2];
    assert Concatenated(now, n - 1) == Concatenated(now, n - 2) + now[1];
    assert Concatenated(now, n - 2) == Concatenated(now, n - 3) + now[0];
  }

  /** The middle chunk arrives between two leftovers. */
  lemma BetweenLeftovers(dir: Directory, parts: seq<Bytes>, indexes: seq<nat>)
    requires |parts| == 3 && dir.Keys == {0, 2} && |indexes| == 1 && indexes[0] == 1
    ensures Deliver(dir, parts, indexes).1 == Joined(dir[0] + parts[1] + dir[2])
  {
    OneDelivery(dir, parts, indexes);
    ThreeFiles(dir[1 := parts[1]], |parts|);
  }

  /** The exception is real: a short leftover and a long one can make up for each other, and the file is
      right although neither leftover is. */
  lemma CutsFallTogether(one: Bytes, two: Bytes, dir: Directory, parts: seq<Bytes>, indexes: seq<nat>)
    requires one != two && one + two + two == two + two + one
    requires parts == [two, two, one] && dir == map[0 := one, 2 := two] && indexes == [1]
    ensures !WrongReplaced(dir, parts, indexes) && Deliver(dir, parts, indexes).1 == Joined(Flat(parts))
  {
    assert 0 in dir && dir[0] != parts[0] && 0 !in indexes;
    BetweenLeftovers(dir, parts, indexes);
    ThreeFlat(two, two, one);
  }

  /** It happens for every byte, repeated. */
  lemma CutsCanFallTogether(x: byte)
    ensures var one: Bytes, two: Bytes := [x], [x, x];
            !WrongReplaced(map[0 := one, 2 := two], [two, two, one], [1]) &&
            Deliver(map[0 := one, 2 := two], [two, two, one], [1]).1 == Joined(Flat([two, two, one]))
  {
    var one: Bytes, two: Bytes := [x], [x, x];
    assert one + two + two == two + two + one && |one| != |two|;
    CutsFallTogether(one, two, map[0 := one, 2 := two], [two, two, one], [1]);
  }

  lemma ThreeFlat(a: Bytes, b: Bytes, c: Bytes)
    ensures Flat([a, b, c]) == a + b + c
  {
    FlatAppend([], a);
    FlatAppend([a], b);
    FlatAppend([a, b], c);
    assert [] + [a] == [a] && [a] + [b] == [a, b] && [a, b] + [c] == [a, b, c];
  }

  // ---------------------------------------------------------------- the receiver

  method ApplyNext(sm: SnapshotManager, index: nat, chunk: Bytes) returns (r: Outcome)
    modifies sm`chunks
    ensures r == OutcomeWith(old(sm.chunks)[index := chunk], sm.expected)
    ensures r.Waiting? <==> |old(sm.chunks)[index := chunk]| != sm.expected
    ensures r.Waiting? ==> sm.chunks == old(sm.chunks)[index := chunk]
  {
    r := sm.ApplyChunk(index, chunk);
  }

  /** The calls of a transfer up to the one that ends it: the outcome is that of the deliveries, from
      whatever the directory held. */
  method Receive(sm: SnapshotManager, parts: seq<Bytes>, indexes: seq<nat>) returns (r: Outcome, used: nat)
    requires InRange(indexes, |parts|) && sm.expected == |parts|
    modifies sm`chunks
    ensures used <= |indexes| && (r.Waiting? ==> used == |indexes|) && (!r.Waiting? ==> used > 0)
    ensures r == Deliver(old(sm.chunks), parts, indexes[..used]).1
    ensures Quiet(old(sm.chunks), parts, indexes, if r.Waiting? then used else used - 1)
  {
    ghost var dir := sm.chunks;
    for i := 0 to |indexes|
      invariant sm.chunks == After(dir, parts, indexes, i)
      invariant Quiet(dir, parts, indexes, i)
    {
      NextOutcome(dir, parts, indexes, i);
      AfterNext(dir, parts, indexes, i);
      r := ApplyNext(sm, indexes[i], parts[indexes[i]]);
      if !r.Waiting? {
        return r, i + 1;
      }
    }
    QuietWaits(dir, parts, indexes, |indexes|);
    return Waiting, |indexes|;
  }

  // ---------------------------------------------------------------- the two failures

  /** A transfer of three chunks is abandoned after its last chunk; the next one, of two, is rejected with
      its first chunk. */
  method AbandonedTransferBreaksTheNext(left: Bytes, first: Bytes) returns (r: Outcome)
    ensures r == Broken
  {
    var sm := new SnapshotManager();
    sm.Offer(3);
    var waiting := sm.ApplyChunk(2, left);
    assert waiting == Waiting && sm.chunks == map[2 := left];
    sm.Offer(2);
    r := sm.ApplyChunk(0, first);
    assert 1 !in map[2 := left][0 := first];
  }

  lemma TwoFiles(now: Directory, n: nat)
    requires n == 2 && now.Keys == {0, 1}
    ensures OutcomeWith(now, n) == Joined(now[0] + now[1])
  {
    assert |now| == |now.Keys| == n;
    assert Concatenated(now, n) == Concatenated(now, n - 1) + now[1];
    assert Concatenated(now, n - 1) == Concatenated(now, n - 2) + now[0];
  }

  /** A transfer of two chunks is abandoned after its first chunk; the next one, of two as well, ends with
      its second chunk and a file that begins with the chunk of the other. Nothing compares the file with
      the announced hash. */
  method AbandonedTransferForgesTheNext(left: Bytes, second: Bytes) returns (r: Outcome)
    ensures r == Joined(left + second)
  {
    var sm := new SnapshotManager();
    sm.Offer(2);
    var waiting := sm.ApplyChunk(0, left);
    assert waiting == Waiting && sm.chunks == map[0 := left];
    sm.Offer(2);
    r := sm.ApplyChunk(1, second);
    TwoFiles(map[0 := left][1 := second], 2);
  }
}
