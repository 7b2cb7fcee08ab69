/**
 Onion layers on RELAY payloads. One AEAD layer per hop, all under the same nonce:
 forward cells are sealed by the origin and opened hop by hop, backward cells are
 sealed hop by hop and opened by the origin.
 */
module Onion {
  import opened Wrappers
  import opened Octets
  import opened Crypto

  const DIR_FWD: byte := 0
  const DIR_BWD: byte := 1

  /** The message under one layer per key, the first key outermost. */
  function SealAll(cs: Suite, keys: seq<Bytes32>, nonce: Bytes12, msg: Bytes): (b: Bytes)
    ensures |b| == |msg| + AEAD_TAG * |keys|
  {
    if keys == [] then msg else Seal(cs, keys[0], nonce, SealAll(cs, keys[1..], nonce, msg))
  }

  function OpenAll(cs: Suite, keys: seq<Bytes32>, nonce: Bytes12, b: Bytes): Result<Bytes, CryptoError> {
    if keys == [] then Ok(b)
    else
      var r := Open(cs, keys[0], nonce, b);
      if r.Err? then r else OpenAll(cs, keys[1..], nonce, r.value)
  }

  function SealedFwd(cs: Suite, keys: seq<Bytes32>, tag: Bytes16, seqNo: u32, msg: Bytes): Bytes {
    SealAll(cs, keys, RelayNonce(cs, tag, DIR_FWD, seqNo), msg)
  }

  function SealedBwd(cs: Suite, keys: seq<Bytes32>, tag: Bytes16, seqNo: u32, msg: Bytes): Bytes {
    SealAll(cs, keys, RelayNonce(cs, tag, DIR_BWD, seqNo), msg)
  }

  /** `open_onion`: one forward layer. */
  function OpenFwd(cs: Suite, key: Bytes32, tag: Bytes16, seqNo: u32, onion: Bytes): Result<Bytes, CryptoError> {
    Open(cs, key, RelayNonce(cs, tag, DIR_FWD, seqNo), onion)
  }

  /** `seal_bwd`: one backward layer. */
  function SealBwd(cs: Suite, key: Bytes32, tag: Bytes16, seqNo: u32, msg: Bytes): Bytes {
    Seal(cs, key, RelayNonce(cs, tag, DIR_BWD, seqNo), msg)
  }

  /** `open_bwd` for every key in turn: what the origin makes of a backward payload. */
  function OpenedBwd(cs: Suite, keys: seq<Bytes32>, tag: Bytes16, seqNo: u32, onion: Bytes): Result<Bytes, CryptoError> {
    OpenAll(cs, keys, RelayNonce(cs, tag, DIR_BWD, seqNo), onion)
  }

  lemma {:induction false} OpenAllInverts(cs: Suite, keys: seq<Bytes32>, nonce: Bytes12, msg: Bytes)
    ensures OpenAll(cs, keys, nonce, SealAll(cs, keys, nonce, msg)) == Ok(msg)
  {
    if keys != [] {
      OpenAllInverts(cs, keys[1..], nonce, msg);
    }
  }

  /** What is left of `b` once a layer has been opened under each key in turn is `inner`. */
  ghost predicate Peels(cs: Suite, keys: seq<Bytes32>, nonce: Bytes12, b: Bytes, inner: Bytes) {
    if keys == [] then b == inner
    else exists rest :: cs.open(keys[0], nonce, b) == Some(rest) && Peels(cs, keys[1..], nonce, rest, inner)
  }

  /** Opening succeeds if and only if every layer opens under its key, and gives what is left. */
  lemma {:induction false} OpenAllExactly(cs: Suite, keys: seq<Bytes32>, nonce: Bytes12, b: Bytes, inner: Bytes)
    ensures OpenAll(cs, keys, nonce, b) == Ok(inner) <==> Peels(cs, keys, nonce, b, inner)
  {
    if keys != [] {
      var r := cs.open(keys[0], nonce, b);
      if r.Some? {
        OpenAllExactly(cs, keys[1..], nonce, r.value, inner);
      }
    }
  }

  /** Whatever opens under n keys was n tags longer than the message inside. */
  lemma {:induction false} OpenAllShrinks(cs: Suite, keys: seq<Bytes32>, nonce: Bytes12, b: Bytes)
    ensures var r := OpenAll(cs, keys, nonce, b);
            r.Ok? ==> |b| == |r.value| + AEAD_TAG * |keys|
  {
    if keys != [] {
      var r := Open(cs, keys[0], nonce, b);
      if r.Ok? {
        OpenAllShrinks(cs, keys[1..], nonce, r.value);
      }
    }
  }

  /** Forward: hop i opens the onion of hops i.. into the onion of hops i + 1... */
  lemma HopOpens(cs: Suite, keys: seq<Bytes32>, i: nat, tag: Bytes16, seqNo: u32, msg: Bytes)
    requires i < |keys|
    ensures OpenFwd(cs, keys[i], tag, seqNo, SealedFwd(cs, keys[i..], tag, seqNo, msg))
            == Ok(SealedFwd(cs, keys[i + 1..], tag, seqNo, msg))
  {
    assert keys[i..][1..] == keys[i + 1..];
  }

  /** Backward: hop i seals the onion of hops i + 1.. into the onion of hops i... */
  lemma HopSeals(cs: Suite, keys: seq<Bytes32>, i: nat, tag: Bytes16, seqNo: u32, msg: Bytes)
    requires i < |keys|
    ensures SealBwd(cs, keys[i], tag, seqNo, SealedBwd(cs, keys[i + 1..], tag, seqNo, msg))
            == SealedBwd(cs, keys[i..], tag, seqNo, msg)
  {
    assert keys[i..][1..] == keys[i + 1..];
  }

  /** A payload passed through the hops i - 1, ..., 0, each opening its own layer. */
  function ThroughForward(cs: Suite, keys: seq<Bytes32>, tag: Bytes16, seqNo: u32, b: Bytes): Result<Bytes, CryptoError> {
    if keys == [] then Ok(b)
    else
      var r := OpenFwd(cs, keys[0], tag, seqNo, b);
      if r.Err? then r else ThroughForward(cs, keys[1..], tag, seqNo, r.value)
  }

  /** A reply passed from the last hop to the first, each adding its own layer. */
  function ThroughBackward(cs: Suite, keys: seq<Bytes32>, tag: Bytes16, seqNo: u32, msg: Bytes): Bytes {
    if keys == [] then msg
    else
      var n := |keys| - 1;
      ThroughBackward(cs, keys[..n], tag, seqNo, SealBwd(cs, keys[n], tag, seqNo, msg))
  }

  /** The whole route undoes the origin's one-shot sealing. */
  lemma {:induction false} RouteOpens(cs: Suite, keys: seq<Bytes32>, tag: Bytes16, seqNo: u32, msg: Bytes)
    ensures ThroughForward(cs, keys, tag, seqNo, SealedFwd(cs, keys, tag, seqNo, msg)) == Ok(msg)
  {
    if keys != [] {
      RouteOpens(cs, keys[1..], tag, seqNo, msg);
    }
  }

  lemma {:induction false} SealAllAppend(cs: Suite, a: seq<Bytes32>, b: seq<Bytes32>, nonce: Bytes12, msg: Bytes)
    ensures SealAll(cs, a + b, nonce, msg) == SealAll(cs, a, nonce, SealAll(cs, b, nonce, msg))
  {
    if a == [] {
      assert a + b == b;
    } else {
      SealAllAppend(cs, a[1..], b, nonce, msg);
      assert (a + b)[1..] == a[1..] + b;
    }
  }

  /** Hop-by-hop sealing from the terminal back is the one-shot backward onion, and the origin opens it. */
  lemma {:induction false} RouteSeals(cs: Suite, keys: seq<Bytes32>, tag: Bytes16, seqNo: u32, msg: Bytes)
    ensures ThroughBackward(cs, keys, tag, seqNo, msg) == SealedBwd(cs, keys, tag, seqNo, msg)
    ensures OpenedBwd(cs, keys, tag, seqNo, ThroughBackward(cs, keys, tag, seqNo, msg)) == Ok(msg)
  {
    var nonce := RelayNonce(cs, tag, DIR_BWD, seqNo);
    if keys != [] {
      var n := |keys| - 1;
      RouteSeals(cs, keys[..n], tag, seqNo, SealBwd(cs, keys[n], tag, seqNo, msg));
      SealAllAppend(cs, keys[..n], [keys[n]], nonce, msg);
      assert keys[..n] + [keys[n]] == keys;
      assert SealAll(cs, [keys[n]], nonce, msg) == SealBwd(cs, keys[n], tag, seqNo, msg);
    }
    OpenAllInverts(cs, keys, nonce, msg);
  }

  // ---- the loops of cell.rs ----

  method SealOnion(cs: Suite, keys: seq<Bytes32>, tag: Bytes16, seqNo: u32, msg: Bytes) returns (payload: Bytes)
    ensures payload == SealedFwd(cs, keys, tag, seqNo, msg)
  {
    payload := msg;
    for i := |keys| downto 0
      invariant payload == SealedFwd(cs, keys[i..], tag, seqNo, msg)
    {
      assert keys[i..][1..] == keys[i + 1..];
      payload := Seal(cs, keys[i], RelayNonce(cs, tag, DIR_FWD, seqNo), payload);
    }
    assert keys[0..] == keys;
  }

  method SealOnionBwd(cs: Suite, keys: seq<Bytes32>, tag: Bytes16, seqNo: u32, msg: Bytes) returns (payload: Bytes)
    ensures payload == SealedBwd(cs, keys, tag, seqNo, msg)
  {
    payload := msg;
    for i := |keys| downto 0
      invariant payload == SealedBwd(cs, keys[i..], tag, seqNo, msg)
    {
      assert keys[i..][1..] == keys[i + 1..];
      payload := SealBwd(cs, keys[i], tag, seqNo, payload);
    }
    assert keys[0..] == keys;
  }

  method OpenOnionBwd(cs: Suite, keys: seq<Bytes32>, tag: Bytes16, seqNo: u32, onion: Bytes)
    returns (r: Result<Bytes, CryptoError>)
    ensures r == OpenedBwd(cs, keys, tag, seqNo, onion)
  {
    var payload := onion;
    for i := 0 to |keys|
      invariant OpenedBwd(cs, keys[i..], tag, seqNo, payload) == OpenedBwd(cs, keys, tag, seqNo, onion)
    {
      assert keys[i..][1..] == keys[i + 1..];
      var layer := Open(cs, keys[i], RelayNonce(cs, tag, DIR_BWD, seqNo), payload);
      if layer.Err? {
        return layer;
      }
      payload := layer.value;
    }
    return Ok(payload);
  }
}
