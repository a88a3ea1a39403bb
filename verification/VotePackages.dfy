/** Encrypted votes: a vote package is sealed for one election key after the other, and opened with the
    private keys in the opposite order. */
module VotePackages {
  import opened Base

  /** Anonymous boxes: keys are read from text, and sealing draws a fresh key pair each time. */
  datatype Boxes = Boxes(
    decodePublic: Bytes -> Option<Bytes>,
    decodePrivate: Bytes -> Option<Bytes>,
    public: Bytes -> Bytes,
    seal: (Bytes, Bytes, nat) -> Option<Bytes>,
    open: (Bytes, Bytes) -> Option<Bytes>)

  /** What is sealed for a public key opens with its private key, to what it was, and with no other. */
  ghost predicate Lawful(boxes: Boxes) {
    forall m: Bytes, pub: Bytes, coin: nat, priv: Bytes {:trigger boxes.seal(m, pub, coin), boxes.public(priv)} ::
      boxes.seal(m, pub, coin).Some? ==>
        boxes.open(boxes.seal(m, pub, coin).value, priv) == if boxes.public(priv) == pub then Some(m) else None
  }

  /** A key as the API lists it; keys not published yet are empty. */
  datatype ElectionKey = ElectionKey(index: int, key: Bytes)

  datatype Envelope = Envelope(votePackage: Bytes, keyIndexes: seq<uint32>)

  datatype Error = NoKeys | BadPublicKey(at: nat) | CannotSeal | InvalidIndex(index: uint32) | BadPrivateKey(index: uint32) | CannotOpen

  /** The randomness of a sealing: one draw for each key. */
  type Coins = nat -> nat

  // ---------------------------------------------------------------- sealing

  /** The published keys of a list. */
  function Published(keys: seq<ElectionKey>): (r: seq<ElectionKey>)
    ensures forall i :: 0 <= i < |r| ==> r[i].key != [] && r[i] in keys
    ensures forall k :: k in keys && k.key != [] ==> k in r
  {
    if keys == [] then []
    else
      var before, last := Published(keys[..|keys| - 1]), keys[|keys| - 1];
      if last.key == [] then before else before + [last]
  }

  function KeyTexts(keys: seq<ElectionKey>): (r: seq<Bytes>)
    ensures |r| == |keys| && forall i :: 0 <= i < |r| ==> r[i] == keys[i].key
  {
    seq(|keys|, i requires 0 <= i < |keys| => keys[i].key)
  }

  /** The index of a key is cut to 32 bits. */
  function KeyIndexes(keys: seq<ElectionKey>): (r: seq<uint32>)
    ensures |r| == |keys| && forall i :: 0 <= i < |r| ==> r[i] as int == keys[i].index % 0x1_0000_0000
  {
    seq(|keys|, i requires 0 <= i < |keys| => (keys[i].index % 0x1_0000_0000) as uint32)
  }

  /** These are the keys that are not empty, all of them, each once and in the order of the list. */
  ghost predicate PublishedAt(keys: seq<ElectionKey>, places: seq<nat>, published: seq<ElectionKey>) {
    && Picks(places, NotEmpty(keys)) && |published| == |places|
    && forall j :: 0 <= j < |places| ==> places[j] < |keys| && published[j] == keys[places[j]]
  }

  lemma PublishedAppend(keys: seq<ElectionKey>, places: seq<nat>, published: seq<ElectionKey>, k: ElectionKey)
    requires PublishedAt(keys, places, published)
    ensures k.key == [] ==> PublishedAt(keys + [k], places, published)
    ensures k.key != [] ==> PublishedAt(keys + [k], places + [|keys|], published + [k])
  {
    assert NotEmpty(keys + [k]) == NotEmpty(keys) + [k.key != []];
    PicksAppend(places, NotEmpty(keys), k.key != []);
  }

  lemma {:induction false} PublishedExactly(keys: seq<ElectionKey>) returns (places: seq<nat>)
    ensures PublishedAt(keys, places, Published(keys))
    decreases |keys|
  {
    if keys == [] {
      places := [];
    } else {
      var init, last := keys[..|keys| - 1], keys[|keys| - 1];
      assert keys == init + [last];
      places := PublishedExactly(init);
      PublishedAppend(init, places, Published(init), last);
      if last.key != [] {
        places := places + [|init|];
      }
    }
  }

  ghost function NotEmpty(keys: seq<ElectionKey>): (keep: seq<bool>)
    ensures |keep| == |keys| && forall i :: 0 <= i < |keys| ==> keep[i] == (keys[i].key != [])
  {
    seq(|keys|, i requires 0 <= i < |keys| => keys[i].key != [])
  }

  /** The package sealed for the keys, the first key innermost. */
  function Sealed(boxes: Boxes, package: Bytes, keys: seq<Bytes>, coins: Coins): (r: Result<Bytes, Error>)
    ensures keys == [] ==> r == Ok(package)
  {
    if keys == [] then Ok(package)
    else
      var before := Sealed(boxes, package, keys[..|keys| - 1], coins);
      var at := |keys| - 1;
      if before.Err? || keys[at] == [] then before
      else
        var pub := boxes.decodePublic(keys[at]);
        if pub.None? then Err(BadPublicKey(at))
        else
          var box := boxes.seal(before.value, pub.value, coins(at));
          if box.None? then Err(CannotSeal) else Ok(box.value)
  }

  /** prepareVotePackageBytes, once the package is written out. */
  method PrepareVotePackageBytes(boxes: Boxes, package: Bytes, keys: seq<Bytes>, coins: Coins)
    returns (r: Result<Bytes, Error>)
    ensures r == Sealed(boxes, package, keys, coins)
  {
    var vpb := package;
    for i := 0 to |keys|
      invariant Sealed(boxes, package, keys[..i], coins) == Ok(vpb)
    {
      SealedStep(boxes, package, keys, i, coins);
      if keys[i] == [] {
        continue;
      }
      var pub := boxes.decodePublic(keys[i]);
      if pub.None? {
        SealedStops(boxes, package, keys, i + 1, coins);
        return Err(BadPublicKey(i));
      }
      var box := boxes.seal(vpb, pub.value, coins(i));
      if box.None? {
        SealedStops(boxes, package, keys, i + 1, coins);
        return Err(CannotSeal);
      }
      vpb := box.value;
    }
    assert keys[..|keys|] == keys;
    return Ok(vpb);
  }

  lemma SealedStep(boxes: Boxes, package: Bytes, keys: seq<Bytes>, i: nat, coins: Coins)
    requires i < |keys| && Sealed(boxes, package, keys[..i], coins).Ok?
    ensures var vpb := Sealed(boxes, package, keys[..i], coins).value;
            Sealed(boxes, package, keys[..i + 1], coins) ==
              if keys[i] == [] then Ok(vpb)
              else if boxes.decodePublic(keys[i]).None? then Err(BadPublicKey(i))
              else
                var box := boxes.seal(vpb, boxes.decodePublic(keys[i]).value, coins(i));
                if box.None? then Err(CannotSeal) else Ok(box.value)
  {
    assert keys[..i + 1][..i] == keys[..i];
  }

  /** A failed layer fails the whole. */
  lemma {:induction false} SealedStops(boxes: Boxes, package: Bytes, keys: seq<Bytes>, i: nat, coins: Coins)
    requires i <= |keys| && Sealed(boxes, package, keys[..i], coins).Err?
    ensures Sealed(boxes, package, keys, coins) == Sealed(boxes, package, keys[..i], coins)
    decreases |keys|
  {
    if i == |keys| {
      assert keys[..i] == keys;
    } else {
      assert keys[..|keys| - 1][..i] == keys[..i];
      SealedStops(boxes, package, keys[..|keys| - 1], i, coins);
    }
  }

  /** voteEnvelopeWithKeys: an encrypted election without a published key is an error. */
  method VoteEnvelope(boxes: Boxes, encrypted: bool, package: Bytes, electionKeys: seq<ElectionKey>, coins: Coins)
    returns (r: Result<Envelope, Error>)
    ensures r == EnvelopeFor(boxes, encrypted, package, electionKeys, coins)
  {
    var keys: seq<Bytes>, keyIndexes: seq<uint32> := [], [];
    if encrypted {
      for i := 0 to |electionKeys|
        invariant keys == KeyTexts(Published(electionKeys[..i]))
        invariant keyIndexes == KeyIndexes(Published(electionKeys[..i]))
      {
        var k := electionKeys[i];
        assert electionKeys[..i + 1][..i] == electionKeys[..i];
        if |k.key| > 0 {
          keys := keys + [k.key];
          keyIndexes := keyIndexes + [(k.index % 0x1_0000_0000) as uint32];
        }
      }
      assert electionKeys[..|electionKeys|] == electionKeys;
      if |keys| == 0 {
        return Err(NoKeys);
      }
    }
    var vpb := PrepareVotePackageBytes(boxes, package, keys, coins);
    return if vpb.Err? then Err(vpb.error) else Ok(Envelope(vpb.value, keyIndexes));
  }

  function EnvelopeFor(boxes: Boxes, encrypted: bool, package: Bytes, electionKeys: seq<ElectionKey>, coins: Coins): Result<Envelope, Error> {
    var published := if encrypted then Published(electionKeys) else [];
    if encrypted && published == [] then Err(NoKeys)
    else
      var vpb := Sealed(boxes, package, KeyTexts(published), coins);
      if vpb.Err? then Err(vpb.error) else Ok(Envelope(vpb.value, KeyIndexes(published)))
  }

  // ---------------------------------------------------------------- opening

  function OpenOne(boxes: Boxes, vp: Bytes, privKeys: seq<Bytes>, index: uint32): Result<Bytes, Error> {
    if index as int >= |privKeys| % 0x1_0000_0000 then Err(InvalidIndex(index))
    else
      var priv := boxes.decodePrivate(privKeys[index as int]);
      if priv.None? then Err(BadPrivateKey(index))
      else
        var m := boxes.open(vp, priv.value);
        if m.None? then Err(CannotOpen) else Ok(m.value)
  }

  /** The layers taken off from the last index to the first. */
  function Opened(boxes: Boxes, vp: Bytes, privKeys: seq<Bytes>, indexes: seq<uint32>): Result<Bytes, Error>
    decreases |indexes|
  {
    if indexes == [] then Ok(vp)
    else
      var r := OpenOne(boxes, vp, privKeys, indexes[|indexes| - 1]);
      if r.Err? then r else Opened(boxes, r.value, privKeys, indexes[..|indexes| - 1])
  }

  /** decryptVotePackage. */
  method DecryptVotePackage(boxes: Boxes, package: Bytes, privKeys: seq<Bytes>, indexes: seq<uint32>)
    returns (r: Result<Bytes, Error>)
    ensures r == Opened(boxes, package, privKeys, indexes)
  {
    var vp := package;
    var i := |indexes|;
    assert indexes[..i] == indexes;
    while i > 0
      invariant 0 <= i <= |indexes|
      invariant Opened(boxes, package, privKeys, indexes) == Opened(boxes, vp, privKeys, indexes[..i])
    {
      i := i - 1;
      var index := indexes[i];
      assert indexes[..i + 1][..i] == indexes[..i];
      if index as int >= |privKeys| % 0x1_0000_0000 {
        return Err(InvalidIndex(index));
      }
      var priv := boxes.decodePrivate(privKeys[index as int]);
      if priv.None? {
        return Err(BadPrivateKey(index));
      }
      var m := boxes.open(vp, priv.value);
      if m.None? {
        return Err(CannotOpen);
      }
      vp := m.value;
    }
    return Ok(vp);
  }

  // ---------------------------------------------------------------- the round trip

  /** The table of private keys has, at this index, the private key of this public key. */
  ghost predicate Matches(boxes: Boxes, key: Bytes, privKeys: seq<Bytes>, index: uint32) {
    && index as int < |privKeys| % 0x1_0000_0000
    && var priv := boxes.decodePrivate(privKeys[index as int]);
    && priv.Some? && boxes.decodePublic(key) == Some(boxes.public(priv.value))
  }

  /** Sealed layers open exactly when the table matches at every layer, and then to the original package;
      otherwise the result is an error, never another package. */
  lemma {:induction false} LayersOpenExactly(boxes: Boxes, package: Bytes, keys: seq<Bytes>, coins: Coins, privKeys: seq<Bytes>, indexes: seq<uint32>)
    requires Lawful(boxes) && |indexes| == |keys| && (forall i :: 0 <= i < |keys| ==> keys[i] != [])
    requires Sealed(boxes, package, keys, coins).Ok?
    ensures var r := Opened(boxes, Sealed(boxes, package, keys, coins).value, privKeys, indexes);
            && (r.Ok? <==> forall i :: 0 <= i < |keys| ==> Matches(boxes, keys[i], privKeys, indexes[i]))
            && (r.Ok? ==> r.value == package)
    decreases |keys|
  {
    if keys != [] {
      var at := |keys| - 1;
      LayersOpenExactly(boxes, package, keys[..at], coins, privKeys, indexes[..at]);
      LayerOpens(boxes, package, keys, coins, privKeys, indexes);
      MatchesAll(boxes, keys, privKeys, indexes);
    }
  }

  lemma MatchesAll(boxes: Boxes, keys: seq<Bytes>, privKeys: seq<Bytes>, indexes: seq<uint32>)
    requires |indexes| == |keys| > 0
    ensures var at := |keys| - 1;
            (forall i :: 0 <= i < |keys| ==> Matches(boxes, keys[i], privKeys, indexes[i])) <==>
            Matches(boxes, keys[at], privKeys, indexes[at]) &&
            forall i :: 0 <= i < at ==> Matches(boxes, keys[..at][i], privKeys, indexes[..at][i])
  {
    var at := |keys| - 1;
    assert forall i :: 0 <= i < at ==> keys[..at][i] == keys[i] && indexes[..at][i] == indexes[i];
  }

  lemma LayerOpens(boxes: Boxes, package: Bytes, keys: seq<Bytes>, coins: Coins, privKeys: seq<Bytes>, indexes: seq<uint32>)
    requires Lawful(boxes) && |indexes| == |keys| > 0 && keys[|keys| - 1] != []
    requires Sealed(boxes, package, keys, coins).Ok?
    ensures var at := |keys| - 1;
            var inner := Sealed(boxes, package, keys[..at], coins);
            var r := OpenOne(boxes, Sealed(boxes, package, keys, coins).value, privKeys, indexes[at]);
            && inner.Ok?
            && (if Matches(boxes, keys[at], privKeys, indexes[at]) then r == inner else r.Err?)
  {
    var at := |keys| - 1;
    var index := indexes[at] as int;
    if index < |privKeys| && boxes.decodePrivate(privKeys[index]).Some? {
      var priv := boxes.decodePrivate(privKeys[index]).value;
      var pub := boxes.public(priv);
    }
  }

  /** The round trip of an envelope: whatever the published keys, decrypting with the table of private keys
      at the envelope's indexes returns the package exactly when the table matches those keys; a plain
      envelope returns it always. */
  lemma EnvelopeRoundTrip(boxes: Boxes, encrypted: bool, package: Bytes, electionKeys: seq<ElectionKey>, coins: Coins, privKeys: seq<Bytes>)
    requires Lawful(boxes) && EnvelopeFor(boxes, encrypted, package, electionKeys, coins).Ok?
    ensures var e := EnvelopeFor(boxes, encrypted, package, electionKeys, coins).value;
            var published := if encrypted then Published(electionKeys) else [];
            var r := Opened(boxes, e.votePackage, privKeys, e.keyIndexes);
            && (r == Ok(package) <==> r.Ok?)
            && (r.Ok? <==> forall i :: 0 <= i < |published| ==> Matches(boxes, published[i].key, privKeys, e.keyIndexes[i]))
  {
    var published := if encrypted then Published(electionKeys) else [];
    LayersOpenExactly(boxes, package, KeyTexts(published), coins, privKeys, KeyIndexes(published));
  }

  /** When sealing itself cannot fail, a package is refused exactly for a key that does not decode. */
  lemma {:induction false} SealedExactly(boxes: Boxes, package: Bytes, keys: seq<Bytes>, coins: Coins)
    requires forall m: Bytes, pub: Bytes, coin: nat :: boxes.seal(m, pub, coin).Some?
    ensures Sealed(boxes, package, keys, coins).Ok? <==> forall i :: 0 <= i < |keys| ==> keys[i] == [] || boxes.decodePublic(keys[i]).Some?
    decreases |keys|
  {
    if keys != [] {
      var at := |keys| - 1;
      SealedExactly(boxes, package, keys[..at], coins);
      assert forall i :: 0 <= i < at ==> keys[..at][i] == keys[i];
    }
  }
}
