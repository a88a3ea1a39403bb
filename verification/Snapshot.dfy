/** The snapshot file: a field with the length of the header, the header, and the blobs one after the
    other. The header records the size of each blob, which is all the reader has to tell them apart. */
module Snapshot {
  import opened Base
  import opened Numbers
  import opened SnapshotOrder

  const VERSION: int := 3
  const LENGTH_FIELD: nat := 32

  /** Sizes are 32-bit. */
  const WORD: nat := 0x1_0000_0000

  datatype BlobHeader = BlobHeader(kind: nat, name: Bytes, size: nat, parent: Bytes, key: Bytes, root: Bytes)

  datatype Header = Header(version: int, root: Bytes, chainID: Bytes, height: uint32, blobs: seq<BlobHeader>, hash: Bytes)

  /** The encoding of headers, and the digest of what is written. */
  datatype Codec = Codec(encode: Header -> Bytes, decode: Bytes -> Option<Header>, digest: Bytes -> Bytes)

  ghost predicate Lawful(codec: Codec) {
    forall h: Header :: codec.decode(codec.encode(h)) == Some(h)
  }

  // ---------------------------------------------------------------- writing

  /** A snapshot being written: its header and the temporary file with the blobs. */
  datatype Draft = Draft(header: Header, file: Bytes)

  /** A blob as it is dumped: its header, and the writes of the exporter. */
  datatype Blob = Blob(info: BlobHeader, writes: seq<Bytes>)

  function Started(root: Bytes, height: uint32, chainID: Bytes): Draft {
    Draft(Header(VERSION, root, chainID, height, [], []), [])
  }

  /** Write adds to the size of the last blob and digests all that was written. */
  function Wrote(codec: Codec, d: Draft, b: Bytes): Draft
    requires d.header.blobs != []
  {
    var last := |d.header.blobs| - 1;
    var grown := d.header.blobs[last].(size := (d.header.blobs[last].size + |b|) % WORD);
    Draft(d.header.(blobs := d.header.blobs[last := grown], hash := codec.digest(d.file + b)), d.file + b)
  }

  /** A draft with one more blob: it matters what was written and not in which pieces, but for the digest,
      which a blob without a write leaves alone. */
  function Dumped(codec: Codec, d: Draft, blob: Blob): Draft {
    var content := Flat(blob.writes);
    Draft(
      d.header.(blobs := d.header.blobs + [blob.info.(size := |content| % WORD)],
                hash := if blob.writes == [] then d.header.hash else codec.digest(d.file + content)),
      d.file + content)
  }

  lemma DumpedStep(codec: Codec, d: Draft, info: BlobHeader, writes: seq<Bytes>, b: Bytes)
    ensures Wrote(codec, Dumped(codec, d, Blob(info, writes)), b) == Dumped(codec, d, Blob(info, writes + [b]))
  {
    FlatAppend(writes, b);
    var content := Flat(writes);
    assert d.file + content + b == d.file + (content + b);
    SizeGrows(|content|, |b|);
    var at, grown := |d.header.blobs|, info.(size := |content + b| % WORD);
    assert (d.header.blobs + [info.(size := |content| % WORD)])[at := grown] == d.header.blobs + [grown];
  }

  lemma SizeGrows(a: nat, b: nat)
    ensures (a % WORD + b) % WORD == (a + b) % WORD
  {
  }

  class Writer {
    const codec: Codec
    var draft: Draft

    /** New, and the setters that a snapshot starts with. */
    constructor (codec: Codec, root: Bytes, height: uint32, chainID: Bytes)
      ensures this.codec == codec && draft == Started(root, height, chainID)
    {
      this.codec := codec;
      draft := Started(root, height, chainID);
    }

    method Write(b: Bytes)
      requires draft.header.blobs != []
      modifies this
      ensures draft == Wrote(codec, old(draft), b)
      ensures draft.file == old(draft.file) + b && draft.header.hash == codec.digest(draft.file)
      ensures |draft.header.blobs| == |old(draft.header.blobs)|
      ensures var last := |draft.header.blobs| - 1; draft.header.blobs[last].size == (old(draft.header.blobs)[last].size + |b|) % WORD
    {
      var header := draft.header.(hash := codec.digest(draft.file + b));
      var last := |header.blobs| - 1;
      var size := (header.blobs[last].size + |b|) % WORD;
      draft := Draft(header.(blobs := header.blobs[last := header.blobs[last].(size := size)]), draft.file + b);
    }

    /** DumpTree, DumpNoStateDB and DumpIndexer: a new blob of size zero, and the writes of its exporter. */
    method DumpBlob(blob: Blob)
      modifies this
      ensures draft == Dumped(codec, old(draft), blob)
    {
      draft := draft.(header := draft.header.(blobs := draft.header.blobs + [blob.info.(size := 0)]));
      for i := 0 to |blob.writes|
        invariant draft == Dumped(codec, old(draft), Blob(blob.info, blob.writes[..i]))
      {
        DumpedStep(codec, old(draft), blob.info, blob.writes[..i], blob.writes[i]);
        assert blob.writes[..i + 1] == blob.writes[..i] + [blob.writes[i]];
        Write(blob.writes[i]);
      }
      assert blob.writes[..|blob.writes|] == blob.writes;
    }

    /** Finish: the file that is left on disk. */
    method Finish() returns (file: Bytes)
      ensures file == FileOf(codec, draft)
    {
      var encoded := codec.encode(draft.header);
      var lengthField := Fit(LENGTH_FIELD, LittleEndian(4, |encoded|));
      file := lengthField + encoded + draft.file;
    }
  }

  function LengthField(n: nat): (field: Bytes)
    ensures |field| == LENGTH_FIELD
  {
    Fit(LENGTH_FIELD, LittleEndian(4, n))
  }

  function FileOf(codec: Codec, d: Draft): Bytes {
    LengthField(|codec.encode(d.header)|) + codec.encode(d.header) + d.file
  }

  /** A draft with blobs dumped one after the other. */
  function AllDumped(codec: Codec, d: Draft, blobs: seq<Blob>): Draft {
    if blobs == [] then d else Dumped(codec, AllDumped(codec, d, blobs[..|blobs| - 1]), blobs[|blobs| - 1])
  }

  function Contents(blobs: seq<Blob>): (r: seq<Bytes>)
    ensures |r| == |blobs| && forall i :: 0 <= i < |r| ==> r[i] == Flat(blobs[i].writes)
  {
    seq(|blobs|, i requires 0 <= i < |blobs| => Flat(blobs[i].writes))
  }

  /** The recorded sizes are those of the blobs, in 32 bits. */
  ghost predicate Records(headers: seq<BlobHeader>, contents: seq<Bytes>) {
    |headers| == |contents| && forall i :: 0 <= i < |contents| ==> headers[i].size == |contents[i]| % WORD
  }

  /** What a draft that follows these blobs looks like. */
  ghost predicate Holds(codec: Codec, d: Draft, contents: seq<Bytes>) {
    && d.file == Flat(contents)
    && Records(d.header.blobs, contents)
    && (d.file != [] ==> d.header.hash == codec.digest(d.file))
  }

  lemma DumpedHolds(codec: Codec, d: Draft, contents: seq<Bytes>, blob: Blob)
    requires Holds(codec, d, contents)
    ensures Holds(codec, Dumped(codec, d, blob), contents + [Flat(blob.writes)])
  {
    FlatAppend(contents, Flat(blob.writes));
    assert blob.writes == [] ==> d.file + Flat(blob.writes) == d.file;
  }

  /** What a finished draft holds: the blobs back to back, a size for each, and the digest of everything
      once something was written. */
  lemma {:induction false} DraftHoldsBlobs(codec: Codec, root: Bytes, height: uint32, chainID: Bytes, blobs: seq<Blob>)
    ensures var d := AllDumped(codec, Started(root, height, chainID), blobs);
            Holds(codec, d, Contents(blobs)) && d.header.version == VERSION
    decreases |blobs|
  {
    if blobs != [] {
      var init, last := blobs[..|blobs| - 1], blobs[|blobs| - 1];
      DraftHoldsBlobs(codec, root, height, chainID, init);
      assert Contents(blobs) == Contents(init) + [Flat(last.writes)];
      DumpedHolds(codec, AllDumped(codec, Started(root, height, chainID), init), Contents(init), last);
    }
  }

  /** The header carries what the snapshot started with and, for each blob, what it was dumped with. */
  lemma {:induction false} DraftDescribesBlobs(codec: Codec, root: Bytes, height: uint32, chainID: Bytes, blobs: seq<Blob>)
    ensures var h := AllDumped(codec, Started(root, height, chainID), blobs).header;
            && h.root == root && h.height == height && h.chainID == chainID
            && |h.blobs| == |blobs|
            && forall i :: 0 <= i < |blobs| ==> h.blobs[i].(size := 0) == blobs[i].info.(size := 0)
    decreases |blobs|
  {
    if blobs != [] {
      DraftDescribesBlobs(codec, root, height, chainID, blobs[..|blobs| - 1]);
    }
  }

  // ---------------------------------------------------------------- reading

  datatype OpenError = TooShort | CannotDecode | Unsupported(version: int)

  function HeaderLength(file: Bytes): nat
    requires |file| >= LENGTH_FIELD
  {
    FromLittleEndian(file[..4])
  }

  function Min(a: nat, b: nat): nat {
    if a < b then a else b
  }

  /** Where the blobs begin. */
  function BlobStart(file: Bytes): (start: nat)
    requires |file| >= LENGTH_FIELD
    ensures LENGTH_FIELD <= start <= |file|
  {
    Min(LENGTH_FIELD + HeaderLength(file), |file|)
  }

  /** Open reads the length, decodes that much and checks the version. */
  function OpenHeader(codec: Codec, file: Bytes): Result<Header, OpenError> {
    if |file| < LENGTH_FIELD then Err(TooShort)
    else
      var header := codec.decode(file[LENGTH_FIELD..BlobStart(file)]);
      if header.None? then Err(CannotDecode)
      else if header.value.version != VERSION then Err(Unsupported(header.value.version))
      else Ok(header.value)
  }

  function Sizes(headers: seq<BlobHeader>): (sizes: seq<nat>)
    ensures |sizes| == |headers| && forall i :: 0 <= i < |sizes| ==> sizes[i] == headers[i].size
  {
    seq(|headers|, i requires 0 <= i < |headers| => headers[i].size)
  }

  /** Reading blobs of these sizes one after the other; the data may end early. */
  function Pieces(data: Bytes, sizes: seq<nat>): (r: seq<Bytes>)
    ensures |r| == |sizes|
    decreases |sizes|
  {
    if sizes == [] then []
    else
      var n := Min(sizes[0], |data|);
      [data[..n]] + Pieces(data[n..], sizes[1..])
  }

  lemma PiecesStep(data: Bytes, sizes: seq<nat>, before: seq<Bytes>)
    requires sizes != []
    ensures var n := Min(sizes[0], |data|);
            before + Pieces(data, sizes) == (before + [data[..n]]) + Pieces(data[n..], sizes[1..])
  {
  }

  function PiecesFrom(file: Bytes, pos: nat, sizes: seq<nat>, i: nat): (r: seq<Bytes>)
    requires pos <= |file| && i <= |sizes|
    ensures |r| == |sizes| - i
  {
    Pieces(file[pos..], sizes[i..])
  }

  /** The pieces from a position are one piece and those behind it. */
  lemma PiecesNext(file: Bytes, pos: nat, sizes: seq<nat>, i: nat, before: seq<Bytes>)
    requires pos <= |file| && i < |sizes|
    ensures var next := pos + Min(sizes[i], |file| - pos);
            before + PiecesFrom(file, pos, sizes, i) == (before + [file[pos..next]]) + PiecesFrom(file, next, sizes, i + 1)
  {
    var n := Min(sizes[i], |file| - pos);
    assert file[pos..][..n] == file[pos..pos + n];
    assert file[pos..][n..] == file[pos + n..];
    assert sizes[i..][1..] == sizes[i + 1..];
    PiecesStep(file[pos..], sizes[i..], before);
  }

  class Reader {
    const file: Bytes
    const header: Header
    var pos: nat
    var current: int
    var limit: nat

    ghost predicate Valid()
      reads this
    {
      pos <= |file| && -1 <= current <= |header.blobs|
    }

    constructor (file: Bytes, header: Header, pos: nat)
      requires pos <= |file|
      ensures Valid() && this.file == file && this.header == header && this.pos == pos && current == -1
    {
      this.file, this.header, this.pos := file, header, pos;
      current, limit := -1, 0;
    }

    /** SeekToNextBlob sets a limit for what is read next. It does not move in the file: whoever skips a
        blob has to read it. */
    method SeekToNextBlob() returns (more: bool)
      requires Valid() && current < |header.blobs|
      modifies this`current, this`limit
      ensures Valid() && current == old(current) + 1
      ensures more <==> current < |header.blobs|
      ensures more ==> limit == header.blobs[current].size
    {
      current := current + 1;
      if current >= |header.blobs| {
        return false;
      }
      limit := header.blobs[current].size;
      return true;
    }

    /** Reads what is left of the current blob. */
    method ReadAll() returns (data: Bytes)
      requires Valid()
      modifies this`pos, this`limit
      ensures Valid() && pos == old(pos) + Min(old(limit), |file| - old(pos))
      ensures data == file[old(pos)..pos]
    {
      var n := Min(limit, |file| - pos);
      data := file[pos..pos + n];
      pos, limit := pos + n, limit - n;
    }

    /** The loop of Restore. */
    method ReadBlobs() returns (blobs: seq<Bytes>)
      requires Valid() && current == -1
      modifies this
      ensures blobs == Pieces(file[old(pos)..], Sizes(header.blobs))
    {
      blobs := [];
      ghost var from, sizes := pos, Sizes(header.blobs);
      var more := SeekToNextBlob();
      while more
        invariant Valid() && 0 <= current && (more <==> current < |sizes|)
        invariant more ==> limit == sizes[current]
        invariant blobs + PiecesFrom(file, pos, sizes, current) == PiecesFrom(file, from, sizes, 0)
        decreases |sizes| - current
      {
        PiecesNext(file, pos, sizes, current, blobs);
        var blob := ReadAll();
        blobs := blobs + [blob];
        more := SeekToNextBlob();
      }
      assert blobs + [] == blobs;
      assert sizes[0..] == sizes;
    }
  }

  method Open(codec: Codec, file: Bytes) returns (r: Result<Reader, OpenError>)
    ensures r.Ok? <==> OpenHeader(codec, file).Ok?
    ensures r.Err? ==> OpenHeader(codec, file) == Err(r.error)
    ensures r.Ok? ==> fresh(r.value) && r.value.Valid() && r.value.current == -1 && r.value.file == file &&
                      OpenHeader(codec, file) == Ok(r.value.header) && r.value.pos == BlobStart(file)
  {
    if |file| < LENGTH_FIELD {
      return Err(TooShort);
    }
    var length := BytesLEToBigInt(file[..4]);
    var end := Min(LENGTH_FIELD + length, |file|);
    var header := codec.decode(file[LENGTH_FIELD..end]);
    if header.None? {
      return Err(CannotDecode);
    }
    if header.value.version != VERSION {
      return Err(Unsupported(header.value.version));
    }
    var reader := new Reader(file, header.value, end);
    return Ok(reader);
  }

  // ---------------------------------------------------------------- the round trip

  lemma LengthIsRead(n: nat, rest: Bytes)
    requires n < WORD
    ensures HeaderLength(LengthField(n) + rest) == n
  {
    var bs := LittleEndian(4, n);
    assert (LengthField(n) + rest)[..4] == bs;
    LittleEndianValue(4, n);
    assert Pow256(4) == 256 * (256 * (256 * (256 * Pow256(0))));
  }

  /** The layout of a file: the length of the header in four bytes, low byte first, zeros up to byte 32, the
      header, the blobs. */
  lemma FileLayout(codec: Codec, d: Draft, encoded: Bytes)
    requires encoded == codec.encode(d.header)
    ensures var file := FileOf(codec, d);
            && |file| == 32 + |encoded| + |d.file|
            && file[..4] == LittleEndian(4, |encoded|) && (forall i :: 4 <= i < 32 ==> file[i] == 0)
            && file[32..32 + |encoded|] == encoded && file[32 + |encoded|..] == d.file
  {
  }

  /** The header comes back, and the blobs begin behind it. */
  lemma HeaderIsRead(codec: Codec, d: Draft)
    requires Lawful(codec) && d.header.version == VERSION && |codec.encode(d.header)| < WORD
    ensures var file := FileOf(codec, d);
            && OpenHeader(codec, file) == Ok(d.header)
            && BlobStart(file) == LENGTH_FIELD + |codec.encode(d.header)|
            && file[BlobStart(file)..] == d.file
  {
    var encoded := codec.encode(d.header);
    var file := FileOf(codec, d);
    LengthIsRead(|encoded|, encoded + d.file);
    assert file == LengthField(|encoded|) + (encoded + d.file);
    assert file[LENGTH_FIELD..LENGTH_FIELD + |encoded|] == encoded;
    assert codec.decode(encoded) == Some(d.header);
  }

  lemma {:induction false} FlatFirst(blobs: seq<Bytes>)
    requires blobs != []
    ensures Flat(blobs) == blobs[0] + Flat(blobs[1..])
    decreases |blobs|
  {
    if |blobs| > 1 {
      var init, last := blobs[..|blobs| - 1], blobs[|blobs| - 1];
      FlatFirst(init);
      assert blobs[1..] == init[1..] + [last];
      FlatAppend(init[1..], last);
    }
  }

  /** Pieces of the right sizes are the blobs; a size that is off shows in the piece. */
  lemma {:induction false} PiecesAreBlobs(blobs: seq<Bytes>, sizes: seq<nat>)
    requires |sizes| == |blobs|
    requires forall i :: 0 <= i < |blobs| ==> sizes[i] == |blobs[i]|
    ensures Pieces(Flat(blobs), sizes) == blobs
    decreases |blobs|
  {
    if blobs != [] {
      FlatFirst(blobs);
      PiecesAreBlobs(blobs[1..], sizes[1..]);
      var n := sizes[0];
      assert Flat(blobs)[..n] == blobs[0] && Flat(blobs)[n..] == Flat(blobs[1..]);
    }
  }

  lemma {:induction false} PieceSizes(data: Bytes, sizes: seq<nat>, i: nat)
    requires i < |sizes|
    ensures |Pieces(data, sizes)[i]| <= sizes[i]
    decreases |sizes|
  {
    if i > 0 {
      PieceSizes(data[Min(sizes[0], |data|)..], sizes[1..], i - 1);
    }
  }

  ghost predicate Small(blobs: seq<Bytes>) {
    forall i :: 0 <= i < |blobs| ==> |blobs[i]| < WORD
  }

  /** Pieces read by recorded sizes are the contents if and only if none of them reaches 2^32 bytes. */
  lemma PiecesExactly(headers: seq<BlobHeader>, contents: seq<Bytes>)
    requires Records(headers, contents)
    ensures Pieces(Flat(contents), Sizes(headers)) == contents <==> Small(contents)
  {
    var sizes := Sizes(headers);
    if Small(contents) {
      PiecesAreBlobs(contents, sizes);
    } else {
      var i :| 0 <= i < |contents| && |contents[i]| >= WORD;
      PieceSizes(Flat(contents), sizes, i);
    }
  }

  /** For any blobs, dumped in any pieces: the finished file opens to the header that was written, and
      reading blob by blob gives back exactly the contents, in order, if and only if each of them is smaller
      than 2^32 bytes, since the recorded sizes wrap around. */
  lemma RoundTripExactly(codec: Codec, root: Bytes, height: uint32, chainID: Bytes, blobs: seq<Blob>)
    requires Lawful(codec)
    requires |codec.encode(AllDumped(codec, Started(root, height, chainID), blobs).header)| < WORD
    ensures var d := AllDumped(codec, Started(root, height, chainID), blobs);
            var file := FileOf(codec, d);
            && OpenHeader(codec, file) == Ok(d.header)
            && (Pieces(file[BlobStart(file)..], Sizes(d.header.blobs)) == Contents(blobs) <==> Small(Contents(blobs)))
  {
    var d := AllDumped(codec, Started(root, height, chainID), blobs);
    DraftHoldsBlobs(codec, root, height, chainID, blobs);
    HeaderIsRead(codec, d);
    PiecesExactly(d.header.blobs, Contents(blobs));
  }

  function Sum(sizes: seq<nat>): nat {
    if sizes == [] then 0 else sizes[0] + Sum(sizes[1..])
  }

  lemma {:induction false} SizesOfFlat(contents: seq<Bytes>, sizes: seq<nat>)
    requires |sizes| == |contents|
    requires forall i :: 0 <= i < |contents| ==> sizes[i] == |contents[i]| % WORD
    ensures Sum(sizes) <= |Flat(contents)|
    ensures Sum(sizes) == |Flat(contents)| <==> Small(contents)
    decreases |contents|
  {
    if contents != [] {
      FlatFirst(contents);
      SizesOfFlat(contents[1..], sizes[1..]);
      assert Small(contents) <==> |contents[0]| < WORD && Small(contents[1..]) by {
        assert forall i :: 0 <= i < |contents[1..]| ==> contents[1..][i] == contents[i + 1];
        assert forall i :: 1 <= i < |contents| ==> contents[i] == contents[1..][i - 1];
      }
    }
  }

  /** The recorded sizes account for the whole file under the same condition. */
  lemma SizesAccountForFile(codec: Codec, root: Bytes, height: uint32, chainID: Bytes, blobs: seq<Blob>)
    ensures var d := AllDumped(codec, Started(root, height, chainID), blobs);
            |FileOf(codec, d)| == LENGTH_FIELD + |codec.encode(d.header)| + Sum(Sizes(d.header.blobs))
            <==> Small(Contents(blobs))
  {
    DraftHoldsBlobs(codec, root, height, chainID, blobs);
    SizesOfFlat(Contents(blobs), Sizes(AllDumped(codec, Started(root, height, chainID), blobs).header.blobs));
  }

  // ---------------------------------------------------------------- a whole snapshot

  function TreeBlob(t: TreeDescription): Blob {
    Blob(BlobHeader(0, t.name, 0, t.parent, t.key, t.root), t.writes)
  }

  function TreeBlobs(list: seq<TreeDescription>): (r: seq<Blob>)
    ensures |r| == |list| && forall i :: 0 <= i < |r| ==> r[i] == TreeBlob(list[i])
  {
    seq(|list|, i requires 0 <= i < |list| => TreeBlob(list[i]))
  }

  /** A database without name, parent or root. */
  function DatabaseBlob(kind: nat, writes: seq<Bytes>): Blob {
    Blob(BlobHeader(kind, [], 0, [], [], []), writes)
  }

  /** The blobs of a snapshot: the no-state database, the trees in their order, the indexer if there is one. */
  function SnapshotBlobs(noState: seq<Bytes>, trees: seq<TreeDescription>, indexer: Option<seq<Bytes>>): seq<Blob> {
    [DatabaseBlob(1, noState)] + TreeBlobs(trees) + (if indexer.Some? then [DatabaseBlob(2, indexer.value)] else [])
  }

  function SnapshotFile(codec: Codec, root: Bytes, height: uint32, chainID: Bytes, noState: seq<Bytes>, trees: seq<TreeDescription>, indexer: Option<seq<Bytes>>): Bytes {
    FileOf(codec, AllDumped(codec, Started(root, height, chainID), SnapshotBlobs(noState, trees, indexer)))
  }

  lemma {:induction false} AllDumpedAppend(codec: Codec, d: Draft, a: seq<Blob>, b: seq<Blob>)
    ensures AllDumped(codec, d, a + b) == AllDumped(codec, AllDumped(codec, d, a), b)
    decreases |b|
  {
    if b == [] {
      assert a + b == a;
    } else {
      assert (a + b)[..|a + b| - 1] == a + b[..|b| - 1];
      AllDumpedAppend(codec, d, a, b[..|b| - 1]);
    }
  }

  /** The loop over the sorted trees. */
  method DumpTrees(snap: Writer, trees: seq<TreeDescription>)
    modifies snap
    ensures snap.draft == AllDumped(snap.codec, old(snap.draft), TreeBlobs(trees))
  {
    var blobs := TreeBlobs(trees);
    for i := 0 to |trees|
      invariant snap.draft == AllDumped(snap.codec, old(snap.draft), blobs[..i])
    {
      assert blobs[..i + 1][..i] == blobs[..i];
      snap.DumpBlob(blobs[i]);
    }
    assert blobs[..|trees|] == blobs;
  }

  /** Do: the snapshot of a state whose trees are listed in some order. */
  method Do(codec: Codec, root: Bytes, height: uint32, chainID: Bytes, noState: seq<Bytes>, list: seq<TreeDescription>, indexer: Option<seq<Bytes>>)
    returns (file: Bytes, sorted: seq<TreeDescription>)
    ensures Sorted(sorted) && multiset(sorted) == multiset(list)
    ensures file == SnapshotFile(codec, root, height, chainID, noState, sorted, indexer)
  {
    var snap := new Writer(codec, root, height, chainID);
    snap.DumpBlob(DatabaseBlob(1, noState));
    sorted := SortTrees(list);
    DumpTrees(snap, sorted);
    if indexer.Some? {
      snap.DumpBlob(DatabaseBlob(2, indexer.value));
    }
    DumpedInTurn(codec, Started(root, height, chainID), noState, sorted, indexer);
    file := snap.Finish();
  }

  lemma DumpedInTurn(codec: Codec, d: Draft, noState: seq<Bytes>, trees: seq<TreeDescription>, indexer: Option<seq<Bytes>>)
    ensures var withTrees := AllDumped(codec, Dumped(codec, d, DatabaseBlob(1, noState)), TreeBlobs(trees));
            AllDumped(codec, d, SnapshotBlobs(noState, trees, indexer)) ==
              if indexer.Some? then Dumped(codec, withTrees, DatabaseBlob(2, indexer.value)) else withTrees
  {
    var first, last := [DatabaseBlob(1, noState)], if indexer.Some? then [DatabaseBlob(2, indexer.value)] else [];
    AllDumpedAppend(codec, d, first, TreeBlobs(trees));
    AllDumpedAppend(codec, d, first + TreeBlobs(trees), last);
    OneDumped(codec, d, first[0]);
    if indexer.Some? {
      OneDumped(codec, AllDumped(codec, d, first + TreeBlobs(trees)), last[0]);
    }
  }

  lemma OneDumped(codec: Codec, d: Draft, b: Blob)
    ensures AllDumped(codec, d, [b]) == Dumped(codec, d, b)
  {
    assert [b][..0] == [];
  }

  /** The blob of a tree: its description, and what its exporter wrote. */
  ghost predicate TreeAt(h: BlobHeader, data: Bytes, t: TreeDescription) {
    && h.kind == 0 && h.name == t.name && h.parent == t.parent && h.key == t.key && h.root == t.root
    && data == Flat(t.writes)
  }

  /** First the no-state database, then the trees in order, and last the indexer if there is one. */
  ghost predicate HoldsState(headers: seq<BlobHeader>, data: seq<Bytes>, noState: seq<Bytes>, trees: seq<TreeDescription>, indexer: Option<seq<Bytes>>) {
    && |headers| == |data| == |trees| + 1 + (if indexer.Some? then 1 else 0)
    && headers[0].kind == 1 && data[0] == Flat(noState)
    && (forall i :: 0 <= i < |trees| ==> TreeAt(headers[i + 1], data[i + 1], trees[i]))
    && (indexer.Some? ==> headers[|trees| + 1].kind == 2 && data[|trees| + 1] == Flat(indexer.value))
  }

  lemma TreeBlobAt(noState: seq<Bytes>, trees: seq<TreeDescription>, indexer: Option<seq<Bytes>>, i: nat)
    requires i < |trees|
    ensures |SnapshotBlobs(noState, trees, indexer)| == |trees| + 1 + (if indexer.Some? then 1 else 0)
    ensures SnapshotBlobs(noState, trees, indexer)[i + 1] == TreeBlob(trees[i])
  {
    var first := [DatabaseBlob(1, noState)];
    assert (first + TreeBlobs(trees))[i + 1] == TreeBlobs(trees)[i];
  }

  lemma DatabaseBlobsAt(noState: seq<Bytes>, trees: seq<TreeDescription>, indexer: Option<seq<Bytes>>)
    ensures |SnapshotBlobs(noState, trees, indexer)| == |trees| + 1 + (if indexer.Some? then 1 else 0)
    ensures SnapshotBlobs(noState, trees, indexer)[0] == DatabaseBlob(1, noState)
    ensures indexer.Some? ==> SnapshotBlobs(noState, trees, indexer)[|trees| + 1] == DatabaseBlob(2, indexer.value)
  {
  }

  /** Headers that describe the blobs, and their contents, hold the state. */
  lemma BlobsHoldState(headers: seq<BlobHeader>, blobs: seq<Blob>, noState: seq<Bytes>, trees: seq<TreeDescription>, indexer: Option<seq<Bytes>>)
    requires blobs == SnapshotBlobs(noState, trees, indexer) && |headers| == |blobs|
    requires forall i :: 0 <= i < |blobs| ==> headers[i].(size := 0) == blobs[i].info.(size := 0)
    ensures HoldsState(headers, Contents(blobs), noState, trees, indexer)
  {
    DatabaseBlobsAt(noState, trees, indexer);
    assert headers[0].(size := 0).kind == 1;
    forall i | 0 <= i < |trees| ensures TreeAt(headers[i + 1], Contents(blobs)[i + 1], trees[i]) {
      TreeBlobAt(noState, trees, indexer, i);
      SameInfo(headers[i + 1], blobs[i + 1].info);
    }
    if indexer.Some? {
      SameInfo(headers[|trees| + 1], blobs[|trees| + 1].info);
    }
  }

  lemma SameInfo(a: BlobHeader, b: BlobHeader)
    requires a.(size := 0) == b.(size := 0)
    ensures a.kind == b.kind && a.name == b.name && a.parent == b.parent && a.key == b.key && a.root == b.root
  {
    assert a == a.(size := 0).(size := a.size) && b == b.(size := 0).(size := b.size);
  }

  /** What a snapshot gives when it is opened again and read: what it was started with, and the state. */
  lemma SnapshotReadsBack(codec: Codec, root: Bytes, height: uint32, chainID: Bytes, noState: seq<Bytes>, trees: seq<TreeDescription>, indexer: Option<seq<Bytes>>)
    requires Lawful(codec)
    requires |codec.encode(AllDumped(codec, Started(root, height, chainID), SnapshotBlobs(noState, trees, indexer)).header)| < WORD
    requires Small(Contents(SnapshotBlobs(noState, trees, indexer)))
    ensures var file := SnapshotFile(codec, root, height, chainID, noState, trees, indexer);
            && OpenHeader(codec, file).Ok?
            && var h := OpenHeader(codec, file).value;
            && h.version == 3 && h.root == root && h.height == height && h.chainID == chainID
            && HoldsState(h.blobs, Pieces(file[BlobStart(file)..], Sizes(h.blobs)), noState, trees, indexer)
  {
    var blobs := SnapshotBlobs(noState, trees, indexer);
    RoundTripExactly(codec, root, height, chainID, blobs);
    DraftDescribesBlobs(codec, root, height, chainID, blobs);
    DraftHoldsBlobs(codec, root, height, chainID, blobs);
    BlobsHoldState(AllDumped(codec, Started(root, height, chainID), blobs).header.blobs, blobs, noState, trees, indexer);
  }

  /** Snapshots of one state are equal byte for byte, in whatever orders its trees were listed. */
  lemma SnapshotIsDeterministic(codec: Codec, root: Bytes, height: uint32, chainID: Bytes, noState: seq<Bytes>, indexer: Option<seq<Bytes>>,
                                list: seq<TreeDescription>, mainTrees: set<Bytes>, a: seq<TreeDescription>, b: seq<TreeDescription>)
    requires Listed(list, mainTrees)
    requires Sorted(a) && Sorted(b) && multiset(a) == multiset(list) == multiset(b)
    ensures SnapshotFile(codec, root, height, chainID, noState, a, indexer) == SnapshotFile(codec, root, height, chainID, noState, b, indexer)
  {
    ListingOrderIsIrrelevant(list, mainTrees, a, b);
  }
}
