/**
 The one-pass Sphinx header as functions: what the origin writes, what a hop
 makes of arbitrary bytes, and the peel theorem that connects the two.

 Layout for n hops: [1][n][tag 16][n slots of 32][one blob of n * LAYER_LEN],
 where blob t seals info t followed by blob t + 1.
 */
module Sphinx {
  import opened Wrappers
  import opened Octets
  import opened Scalars
  import opened Crypto
  import opened Identity

  const HDR_FIXED := 18
  const LAYER_INFO_LEN := 64 + CT_LEN
  const LAYER_LEN := AEAD_TAG + LAYER_INFO_LEN // 1168
  const MAX_HOPS := 5
  const TERMINAL_ID: NodeId := Filled(20, 0xFF)

  datatype Outcome =
    | Terminal(tag: Bytes16, kFwd: Bytes32, kBwd: Bytes32)
    | Relay(tag: Bytes16, kFwd: Bytes32, kBwd: Bytes32, nextId: NodeId, nextAddr: SocketAddr, newHeader: Bytes)

  datatype BuiltHeader = BuiltHeader(
    header: Bytes, tag: Bytes16, fwdKeys: seq<Bytes32>, bwdKeys: seq<Bytes32>, firstAddr: SocketAddr)

  /** The length of n nested layers, n * LAYER_LEN. */
  function Layers(n: nat): nat {
    n * 1168
  }

  // ---- blinding ----

  function SharedPoint(cs: Suite, sphinxPub: Bytes32, alpha: Scalar): Bytes32 {
    cs.pointMul(sphinxPub, alpha)
  }

  /** b = H(shared point, effective scalar as it stands in the slot). */
  function BlindFactor(cs: Suite, ssX: Bytes32, slot: Bytes32): Scalar {
    cs.sha512Scalar(ssX + slot)
  }

  /** Everything the origin draws or is given before it lays out the header. */
  datatype Plan = Plan(route: seq<Descriptor>, tag: Bytes16, xs: seq<Scalar>, kems: seq<(KemCt, Bytes32)>)
  {
    ghost predicate Valid() {
      0 < |route| < 256 && |xs| == |route| && |kems| == |route|
    }
  }

  /** The product of the blinding factors of hops 0 .. t - 1. */
  function Acc(cs: Suite, p: Plan, t: nat): Scalar
    requires p.Valid() && t <= |p.route|
  {
    if t == 0 then 1
    else
      var eff := Mul(p.xs[t - 1], Acc(cs, p, t - 1));
      Mul(Acc(cs, p, t - 1), BlindFactor(cs, SharedPoint(cs, p.route[t - 1].sphinxPub, eff), ScalarBytes(eff)))
  }

  /** The effective scalar of hop t: x_t times the factors of all earlier hops. */
  function Eff(cs: Suite, p: Plan, t: nat): Scalar
    requires p.Valid() && t < |p.route|
  {
    Mul(p.xs[t], Acc(cs, p, t))
  }

  function Ss(cs: Suite, p: Plan, t: nat): Bytes32
    requires p.Valid() && t < |p.route|
  {
    SharedPoint(cs, p.route[t].sphinxPub, Eff(cs, p, t))
  }

  // ---- the origin's layout ----

  function Ip4(a: SocketAddr): Bytes4 {
    if a.V4? then a.ip else Zeros(4)
  }

  /** The plaintext a hop finds in its layer: where to go next, then its KEM ciphertext. */
  function Info(next: Option<Descriptor>, ct: KemCt): (b: Bytes)
    ensures |b| == LAYER_INFO_LEN
  {
    match next
    case Some(d) => d.nodeId + Ip4(d.cellAddr) + Le16(d.cellAddr.port) + d.linkPub + Zeros(6) + ct
    case None => TERMINAL_ID + Zeros(44) + ct
  }

  function Next(p: Plan, t: nat): Option<Descriptor> {
    if t + 1 < |p.route| then Some(p.route[t + 1]) else None
  }

  /** Layer t with all later layers nested inside. */
  function Blob(cs: Suite, p: Plan, t: nat): (b: Bytes)
    requires p.Valid() && t <= |p.route|
    ensures |b| == Layers(|p.route| - t)
    decreases |p.route| - t
  {
    if t == |p.route| then []
    else
      var inner := Info(Next(p, t), p.kems[t].0) + Blob(cs, p, t + 1);
      Seal(cs, DeriveHdrKey(cs, Ss(cs, p, t), p.tag), HdrNonce(cs, p.tag, |p.route| - t), inner)
  }

  /** The scalar slots, every one multiplied by `acc`. */
  function Slots(xs: seq<Scalar>, acc: Scalar): (b: Bytes)
    ensures |b| == 32 * |xs|
  {
    if xs == [] then [] else ScalarBytes(Mul(xs[0], acc)) + Slots(xs[1..], acc)
  }

  function Assemble(n: byte, tag: Bytes16, slots: Bytes, blob: Bytes): Bytes {
    [1, n] + tag + slots + blob
  }

  /** The header as hop t is meant to see it. */
  function HeaderAt(cs: Suite, p: Plan, t: nat): Bytes
    requires p.Valid() && t <= |p.route|
  {
    Assemble(|p.route| - t, p.tag, Slots(p.xs[t..], Acc(cs, p, t)), Blob(cs, p, t))
  }

  function KeysAt(cs: Suite, p: Plan, t: nat): (Bytes32, Bytes32)
    requires p.Valid() && t < |p.route|
  {
    DeriveTrafficKeys(cs, Ss(cs, p, t), p.kems[t].1, p.tag)
  }

  // ---- a hop on arbitrary bytes ----

  function BlindSlots(slots: Bytes, b: Scalar): (r: Bytes)
    requires |slots| % 32 == 0
    ensures |r| == |slots|
  {
    if slots == [] then []
    else ScalarBytes(Mul(FromBytesModOrder(slots[..32]), b)) + BlindSlots(slots[32..], b)
  }

  predicate WellSized(header: Bytes) {
    && |header| >= HDR_FIXED
    && header[0] == 1
    && header[1] != 0
    && |header| - HDR_FIXED == header[1] * 32 + Layers(header[1])
  }

  /** The specification of `process_header`, on any bytes at all. */
  function Process(cs: Suite, id: NodeIdentity, header: Bytes): Result<Outcome, CryptoError> {
    if !WellSized(header) then Err(BadSphinx)
    else
      var n := header[1];
      var tag: Bytes16 := header[2..18];
      var body := header[HDR_FIXED..];
      var ssX := SharedPoint(cs, id.sphinxPub, FromBytesModOrder(body[..32]));
      var layer := Open(cs, DeriveHdrKey(cs, ssX, tag), HdrNonce(cs, tag, n), body[n * 32..]);
      if layer.Err? then Err(BadSphinx)
      else Peeled(cs, id, n, tag, ssX, body[..n * 32], layer.value)
  }

  /** What the hop does once its layer is open. */
  function Peeled(cs: Suite, id: NodeIdentity, n: byte, tag: Bytes16, ssX: Bytes32, slots: Bytes, layer: Bytes):
    Result<Outcome, CryptoError>
    requires n > 0 && |slots| == n * 32 && |layer| >= LAYER_INFO_LEN
  {
    var ssKem := KemDecap(cs, id.kemSk, layer[64..64 + CT_LEN]);
    if ssKem.Err? then Err(ssKem.error)
    else
      var keys := DeriveTrafficKeys(cs, ssX, ssKem.value, tag);
      if layer[..20] == TERMINAL_ID then Ok(Terminal(tag, keys.0, keys.1))
      else
        var b := BlindFactor(cs, ssX, slots[..32]);
        Ok(Relay(tag, keys.0, keys.1, layer[..20], V4(layer[20..24], Get16(layer[24..26])),
                 Assemble(n - 1, tag, BlindSlots(slots[32..], b), layer[LAYER_INFO_LEN..])))
  }

  // ---- what a hop accepts, in terms of the bytes and the primitives ----

  /** The point a hop shares with whoever wrote the first slot. */
  function HopPoint(cs: Suite, id: NodeIdentity, header: Bytes): Bytes32
    requires WellSized(header)
  {
    cs.pointMul(id.sphinxPub, FromBytesModOrder(header[18..50]))
  }

  /** What opens of the blob under the header key of that point. */
  function HopLayer(cs: Suite, id: NodeIdentity, header: Bytes): Option<Bytes>
    requires WellSized(header)
  {
    var key := cs.hkdf(HopPoint(cs, id, header), header[2..18], INFO_HDR, 32);
    var nonce := cs.sha256(header[2..18] + HDR_LABEL + [header[1]])[..12];
    cs.open(key, nonce, header[18 + 32 * header[1] as int..])
  }

  /** The KEM secret behind the ciphertext in an open layer. */
  function HopSecret(cs: Suite, id: NodeIdentity, layer: Bytes): Option<Bytes32>
    requires |layer| >= LAYER_INFO_LEN
  {
    cs.decap(id.kemSk, layer[64..1152])
  }

  lemma LayerIsLong(cs: Suite, id: NodeIdentity, header: Bytes)
    requires WellSized(header) && HopLayer(cs, id, header).Some?
    ensures |HopLayer(cs, id, header).value| == LAYER_INFO_LEN + Layers(header[1] - 1)
  {
  }

  /** An outcome read off an open layer: keys, next hop, and the header made of the rest. */
  ghost predicate ReadOff(cs: Suite, header: Bytes, point: Bytes32, layer: Bytes, secret: Bytes32, o: Outcome)
    requires WellSized(header) && |layer| == LAYER_INFO_LEN + Layers(header[1] - 1)
  {
    var n: nat := header[1];
    && o.tag == header[2..18]
    && o.kFwd + o.kBwd == cs.hkdf(point + secret, o.tag, INFO_TRAFFIC, 64)
    && (o.Terminal? <==> layer[..20] == Filled(20, 0xFF))
    && (o.Relay? ==>
          && o.nextId == layer[..20]
          && o.nextAddr == V4(layer[20..24], Get16(layer[24..26]))
          && |o.newHeader| == 18 + 32 * (n - 1) + |layer| - 1152
          && o.newHeader[..18] == [1, header[1] - 1] + o.tag
          && o.newHeader[18 + 32 * (n - 1)..] == layer[1152..]
          && forall j: nat :: j + 1 < n ==> Reblinded(cs, header, point, o.newHeader, j))
  }

  /** Slot j of the new header is slot j + 1 of the old one times the hash of the point and the first slot. */
  ghost predicate Reblinded(cs: Suite, header: Bytes, point: Bytes32, newHeader: Bytes, j: nat)
    requires |header| >= 18 + 32 * (j + 2) && |newHeader| >= 18 + 32 * (j + 1)
  {
    newHeader[18 + 32 * j..18 + 32 * (j + 1)]
    == ScalarBytes(Mul(FromBytesModOrder(header[18 + 32 * (j + 1)..18 + 32 * (j + 2)]),
                       cs.sha512Scalar(point + header[18..50])))
  }

  lemma {:induction false} BlindSlotsAt(slots: Bytes, b: Scalar, j: nat)
    requires |slots| % 32 == 0 && 32 * (j + 1) <= |slots|
    ensures BlindSlots(slots, b)[32 * j..32 * (j + 1)]
            == ScalarBytes(Mul(FromBytesModOrder(slots[32 * j..32 * (j + 1)]), b))
  {
    hide ScalarBytes, Mul, FromBytesModOrder;
    var first: Bytes32, rest := ScalarBytes(Mul(FromBytesModOrder(slots[..32]), b)), BlindSlots(slots[32..], b);
    assert BlindSlots(slots, b) == first + rest && (first + rest)[32..] == rest;
    if j > 0 {
      BlindSlotsAt(slots[32..], b, j - 1);
      SliceTail(slots, 32, 32 * (j - 1), 32 * j);
      SliceTail(first + rest, 32, 32 * (j - 1), 32 * j);
    }
  }

  /**
   Which headers a hop accepts, on any bytes: those of the right version and length whose
   blob opens under the header key of the point it shares with the first slot, with a KEM
   ciphertext that it can decapsulate. The outcome is read off the open layer.
   */
  lemma ProcessedExactly(cs: Suite, id: NodeIdentity, header: Bytes)
    ensures WellSized(header) <==>
            |header| >= 18 && header[0] == 1 && header[1] >= 1 && |header| == 18 + 1200 * header[1] as int
    ensures Process(cs, id, header).Ok? <==>
            && WellSized(header) && HopLayer(cs, id, header).Some?
            && |HopLayer(cs, id, header).value| >= LAYER_INFO_LEN
            && HopSecret(cs, id, HopLayer(cs, id, header).value).Some?
    ensures Process(cs, id, header).Ok? ==>
              var layer := HopLayer(cs, id, header).value;
              && |layer| == LAYER_INFO_LEN + Layers(header[1] - 1)
              && ReadOff(cs, header, HopPoint(cs, id, header), layer, HopSecret(cs, id, layer).value,
                         Process(cs, id, header).value)
    ensures Process(cs, id, header).Err? ==>
              Process(cs, id, header).error
              == if WellSized(header) && HopLayer(cs, id, header).Some? then Kem else BadSphinx
  {
    hide BlindSlots, ScalarBytes, Mul, FromBytesModOrder;
    if WellSized(header) {
      var n, body := header[1], header[HDR_FIXED..];
      assert body[..32] == header[18..50] && body[n * 32..] == header[18 + 32 * n as int..];
      if HopLayer(cs, id, header).Some? {
        LayerIsLong(cs, id, header);
        OutcomeReadOff(cs, id, header);
      }
    }
  }

  lemma OutcomeReadOff(cs: Suite, id: NodeIdentity, header: Bytes)
    requires WellSized(header) && HopLayer(cs, id, header).Some?
    requires |HopLayer(cs, id, header).value| == LAYER_INFO_LEN + Layers(header[1] - 1)
    ensures var n, layer, point := header[1], HopLayer(cs, id, header).value, HopPoint(cs, id, header);
            var r := Peeled(cs, id, n, header[2..18], point, header[HDR_FIXED..][..n * 32], layer);
            if HopSecret(cs, id, layer).None? then r == Err(Kem)
            else r.Ok? && ReadOff(cs, header, point, layer, HopSecret(cs, id, layer).value, r.value)
  {
    hide BlindSlots, ScalarBytes, Mul, FromBytesModOrder, HopLayer, HopPoint;
    var n: nat, layer, point := header[1], HopLayer(cs, id, header).value, HopPoint(cs, id, header);
    var slots := header[HDR_FIXED..][..n * 32];
    assert slots[..32] == header[18..50];
    var r := Peeled(cs, id, n, header[2..18], point, slots, layer);
    if r.Ok? && r.value.Relay? {
      var b := BlindFactor(cs, point, slots[..32]);
      var blinded, h := BlindSlots(slots[32..], b), r.value.newHeader;
      AssembledSlots(n - 1, header[2..18], blinded, layer[LAYER_INFO_LEN..]);
      assert slots == header[18..18 + 32 * n];
      forall j: nat | j + 1 < n
        ensures Reblinded(cs, header, point, h, j)
      {
        SlotReblinded(cs, header, point, h, n, j);
      }
    }
  }

  lemma SlotReblinded(cs: Suite, header: Bytes, point: Bytes32, h: Bytes, n: nat, j: nat)
    requires j + 1 < n && |header| >= 18 + 32 * n && |h| >= 18 + 32 * (n - 1)
    requires h[18..18 + 32 * (n - 1)]
             == BlindSlots(header[18..18 + 32 * n][32..], cs.sha512Scalar(point + header[18..50]))
    ensures Reblinded(cs, header, point, h, j)
  {
    hide BlindSlots, ScalarBytes, Mul, FromBytesModOrder;
    var slots := header[18..18 + 32 * n];
    BlindSlotsAt(slots[32..], cs.sha512Scalar(point + header[18..50]), j);
    SliceTail(slots, 32, 32 * j, 32 * (j + 1));
    Slice(header, 18, 32 * n, 32 * (j + 1), 32 * (j + 2));
    Slice(h, 18, 32 * (n - 1), 32 * j, 32 * (j + 1));
  }

  lemma AssembledSlots(n: byte, tag: Bytes16, slots: Bytes, blob: Bytes)
    ensures var h := Assemble(n, tag, slots, blob);
            && |h| == 18 + |slots| + |blob| && h[..18] == [1, n] + tag
            && h[18..18 + |slots|] == slots && h[18 + |slots|..] == blob
  {
  }

  /** The identity a descriptor was made from, as far as the header is concerned. */
  ghost predicate Owns(cs: Suite, id: NodeIdentity, d: Descriptor) {
    id.sphinxPub == d.sphinxPub && cs.kemPublic(id.kemSk) == d.kemPk
  }

  /** A node owns the descriptor it signs, so headers built from it are headers for the node. */
  lemma SignedIsOwned(cs: Suite, id: NodeIdentity, cellAddr: SocketAddr, dhtPort: u16, now: u64)
    requires cellAddr.V4?
    ensures Sign(cs, id, cellAddr, dhtPort, now).Some? && Owns(cs, id, Sign(cs, id, cellAddr, dhtPort, now).value)
  {
    SignedExactly(cs, id, cellAddr, dhtPort, now);
  }

  /** The KEM results of a plan are encapsulations to the route's keys. */
  ghost predicate Encapsulated(cs: Suite, p: Plan, coins: seq<Bytes>)
    requires p.Valid()
  {
    |coins| == |p.route| && forall i :: 0 <= i < |p.route| ==> KemEncap(cs, p.route[i].kemPk, coins[i]) == Ok(p.kems[i])
  }

  /** What hop t should make of its header. */
  function Expected(cs: Suite, p: Plan, t: nat): Outcome
    requires p.Valid() && t < |p.route|
  {
    var keys := KeysAt(cs, p, t);
    if t + 1 == |p.route| || p.route[t + 1].nodeId == TERMINAL_ID then Terminal(p.tag, keys.0, keys.1)
    else
      var d := p.route[t + 1];
      Relay(p.tag, keys.0, keys.1, d.nodeId, V4(Ip4(d.cellAddr), d.cellAddr.port), HeaderAt(cs, p, t + 1))
  }

  // ---- lemmas ----

  lemma {:induction false} BlindSlotsOfSlots(xs: seq<Scalar>, acc: Scalar, b: Scalar)
    ensures BlindSlots(Slots(xs, acc), b) == Slots(xs, Mul(acc, b))
  {
    if xs != [] {
      var s := Slots(xs, acc);
      assert s[..32] == ScalarBytes(Mul(xs[0], acc));
      assert s[32..] == Slots(xs[1..], acc);
      MulAssoc(xs[0], acc, b);
      BlindSlotsOfSlots(xs[1..], acc, b);
    }
  }

  /** The parts of an assembled header are found where the hop looks for them. */
  lemma AssembledParts(n: byte, tag: Bytes16, slots: Bytes, blob: Bytes)
    requires n > 0 && |slots| == n * 32 && |blob| == Layers(n)
    ensures var h := Assemble(n, tag, slots, blob);
            && WellSized(h) && h[1] == n && h[2..18] == tag
            && h[HDR_FIXED..][..n * 32] == slots && h[HDR_FIXED..][n * 32..] == blob
            && h[HDR_FIXED..][..32] == slots[..32]
  {
    var h := Assemble(n, tag, slots, blob);
    assert h[HDR_FIXED..] == slots + blob;
  }

  lemma InfoParts(next: Option<Descriptor>, ct: KemCt, rest: Bytes)
    ensures var o := Info(next, ct) + rest;
            && o[LAYER_INFO_LEN..] == rest && o[64..64 + CT_LEN] == ct
            && (next.None? ==> o[..20] == TERMINAL_ID)
            && (next.Some? ==>
                  && o[..20] == next.value.nodeId
                  && o[20..24] == Ip4(next.value.cellAddr)
                  && o[24..26] == Le16(next.value.cellAddr.port))
  {
  }

  /** What a hop makes of a layer with known contents. */
  function Reading(cs: Suite, n: byte, tag: Bytes16, ssX: Bytes32, ssKem: Bytes32, slot: Bytes32, rest: Bytes,
                   next: Option<Descriptor>, blob: Bytes): Outcome
    requires n > 0 && |rest| == (n - 1) * 32
  {
    var keys := DeriveTrafficKeys(cs, ssX, ssKem, tag);
    if next.None? || next.value.nodeId == TERMINAL_ID then Terminal(tag, keys.0, keys.1)
    else
      var addr := next.value.cellAddr;
      Relay(tag, keys.0, keys.1, next.value.nodeId, V4(Ip4(addr), addr.port),
            Assemble(n - 1, tag, BlindSlots(rest, BlindFactor(cs, ssX, slot)), blob))
  }

  lemma PeeledReads(cs: Suite, id: NodeIdentity, n: byte, tag: Bytes16, ssX: Bytes32, ssKem: Bytes32,
                    slot: Bytes32, rest: Bytes, next: Option<Descriptor>, ct: KemCt, blob: Bytes)
    requires n > 0 && |rest| == (n - 1) * 32
    requires KemDecap(cs, id.kemSk, ct) == Ok(ssKem)
    ensures Peeled(cs, id, n, tag, ssX, slot + rest, Info(next, ct) + blob)
            == Ok(Reading(cs, n, tag, ssX, ssKem, slot, rest, next, blob))
  {
    InfoParts(next, ct, blob);
    assert (slot + rest)[..32] == slot && (slot + rest)[32..] == rest;
  }

  /**
   The peel theorem, one hop: hop t, holding the keys its descriptor advertises, makes of
   the header exactly what the origin intended, and hands on exactly the header meant for
   hop t + 1.
   */
  lemma PeelHop(cs: Suite, p: Plan, coins: seq<Bytes>, id: NodeIdentity, t: nat)
    requires p.Valid() && t < |p.route|
    requires Encapsulated(cs, p, coins) && Owns(cs, id, p.route[t])
    ensures Process(cs, id, HeaderAt(cs, p, t)) == Ok(Expected(cs, p, t))
  {
    hide Slots, BlindSlots, ScalarBytes, Info, DeriveTrafficKeys, DeriveHdrKey, HdrNonce;
    var n := |p.route| - t;
    var slot: Bytes32, rest: Bytes := ScalarBytes(Eff(cs, p, t)), Slots(p.xs[t + 1..], Acc(cs, p, t));
    FirstSlot(cs, p, t);
    AssembledParts(n, p.tag, slot + rest, Blob(cs, p, t));
    assert (slot + rest)[..32] == slot;
    KemAgrees(cs, id.kemSk, coins[t]);
    PeeledReads(cs, id, n, p.tag, Ss(cs, p, t), p.kems[t].1, slot, rest, Next(p, t), p.kems[t].0, Blob(cs, p, t + 1));
    BlindSlotsOfSlots(p.xs[t + 1..], Acc(cs, p, t), BlindFactor(cs, Ss(cs, p, t), slot));
  }

  lemma FirstSlot(cs: Suite, p: Plan, t: nat)
    requires p.Valid() && t < |p.route|
    ensures Slots(p.xs[t..], Acc(cs, p, t)) == ScalarBytes(Eff(cs, p, t)) + Slots(p.xs[t + 1..], Acc(cs, p, t))
  {
    assert p.xs[t..][1..] == p.xs[t + 1..];
  }

  /** Folding `process_header` along a list of hops, while they relay. */
  function Walk(cs: Suite, ids: seq<NodeIdentity>, header: Bytes): seq<Result<Outcome, CryptoError>> {
    if ids == [] then []
    else
      var r := Process(cs, ids[0], header);
      if r.Ok? && r.value.Relay? then [r] + Walk(cs, ids[1..], r.value.newHeader) else [r]
  }

  /** The outcomes of hops t, t + 1, ... in order. */
  function Itinerary(cs: Suite, p: Plan, t: nat): seq<Result<Outcome, CryptoError>>
    requires p.Valid() && t <= |p.route|
    decreases |p.route| - t
  {
    if t == |p.route| then [] else [Ok(Expected(cs, p, t))] + Itinerary(cs, p, t + 1)
  }

  /** No hop after hop t carries the terminal id. */
  predicate NoEarlyEnd(p: Plan, t: nat) {
    forall i :: t < i < |p.route| ==> p.route[i].nodeId != TERMINAL_ID
  }

  /**
   The peel theorem: for every route of up to 255 hops, the header visits every hop and
   gives each its own outcome if and only if no later hop carries the terminal id.
   */
  lemma {:induction false} PeelRoute(cs: Suite, p: Plan, coins: seq<Bytes>, ids: seq<NodeIdentity>, t: nat)
    requires p.Valid() && t < |p.route| && |ids| == |p.route|
    requires Encapsulated(cs, p, coins)
    requires forall i :: 0 <= i < |ids| ==> Owns(cs, ids[i], p.route[i])
    ensures Walk(cs, ids[t..], HeaderAt(cs, p, t)) == Itinerary(cs, p, t) <==> NoEarlyEnd(p, t)
    decreases |p.route| - t
  {
    hide HeaderAt, Process, KeysAt, Owns, Encapsulated;
    PeelHop(cs, p, coins, ids[t], t);
    if t + 1 < |p.route| {
      PeelRoute(cs, p, coins, ids, t + 1);
      assert ids[t..][1..] == ids[t + 1..];
      assert NoEarlyEnd(p, t) <==> p.route[t + 1].nodeId != TERMINAL_ID && NoEarlyEnd(p, t + 1);
      ItineraryLength(cs, p, t + 1);
      FirstsDiffer(Ok(Expected(cs, p, t)), Walk(cs, ids[t + 1..], HeaderAt(cs, p, t + 1)), Itinerary(cs, p, t + 1));
    }
  }

  lemma FirstsDiffer<T>(x: T, a: seq<T>, b: seq<T>)
    ensures [x] + a == [x] + b <==> a == b
  {
    if [x] + a == [x] + b {
      assert a == ([x] + a)[1..] && b == ([x] + b)[1..];
    }
  }

  lemma {:induction false} ItineraryLength(cs: Suite, p: Plan, t: nat)
    requires p.Valid() && t <= |p.route|
    ensures |Itinerary(cs, p, t)| == |p.route| - t
    decreases |p.route| - t
  {
    hide Expected;
    if t < |p.route| {
      ItineraryLength(cs, p, t + 1);
    }
  }

  lemma AssembledFront(n: byte, tag: Bytes16, slots: Bytes, blob: Bytes)
    ensures var h := Assemble(n, tag, slots, blob);
            |h| == HDR_FIXED + |slots| + |blob| && h[0] == 1 && h[1] == n && h[2..18] == tag
  {
  }

  lemma PeeledShrinks(cs: Suite, id: NodeIdentity, n: byte, tag: Bytes16, ssX: Bytes32, slots: Bytes, layer: Bytes)
    requires n > 0 && |slots| == n * 32 && |layer| >= LAYER_INFO_LEN
    requires Peeled(cs, id, n, tag, ssX, slots, layer).Ok?
    ensures var o := Peeled(cs, id, n, tag, ssX, slots, layer).value;
            && o.tag == tag
            && (o.Relay? ==>
                  && |o.newHeader| == HDR_FIXED + (n - 1) * 32 + |layer| - LAYER_INFO_LEN
                  && o.newHeader[0] == 1 && o.newHeader[1] == n - 1 && o.newHeader[2..18] == tag
                  && o.nextId != TERMINAL_ID)
  {
    AssembledFront(n - 1, tag, BlindSlots(slots[32..], BlindFactor(cs, ssX, slots[..32])), layer[LAYER_INFO_LEN..]);
  }

  /**
   On arbitrary bytes a hop either refuses or forwards a header of the same tag that is
   exactly one slot and one layer shorter.
   */
  lemma RelayShrinks(cs: Suite, id: NodeIdentity, header: Bytes)
    requires Process(cs, id, header).Ok?
    ensures WellSized(header)
    ensures var o := Process(cs, id, header).value;
            && o.tag == header[2..18]
            && (o.Relay? ==>
                  && |o.newHeader| == HDR_FIXED + (header[1] as int - 1) * 32 + Layers(header[1] - 1)
                  && o.newHeader[0] == 1 && o.newHeader[1] == header[1] - 1 && o.newHeader[2..18] == o.tag
                  && o.nextId != TERMINAL_ID)
  {
    var n, tag := header[1], header[2..18];
    var body := header[HDR_FIXED..];
    var ssX := SharedPoint(cs, id.sphinxPub, FromBytesModOrder(body[..32]));
    var layer := Open(cs, DeriveHdrKey(cs, ssX, tag), HdrNonce(cs, tag, n), body[n * 32..]).value;
    PeeledShrinks(cs, id, n, tag, ssX, body[..n * 32], layer);
  }

  /** How many of the hops, taken in order, accept the header that reaches them. */
  function Crossed(cs: Suite, ids: seq<NodeIdentity>, header: Bytes): nat {
    if ids == [] then 0
    else
      var r := Process(cs, ids[0], header);
      if r.Err? then 0
      else if r.value.Terminal? then 1
      else 1 + Crossed(cs, ids[1..], r.value.newHeader)
  }

  /** A CREATE made of any bytes at all crosses at most as many hops as its count byte says. */
  lemma {:induction false} CrossesAtMost(cs: Suite, ids: seq<NodeIdentity>, header: Bytes)
    ensures Crossed(cs, ids, header) <= if WellSized(header) then header[1] as int else 0
  {
    if ids != [] {
      var r := Process(cs, ids[0], header);
      if r.Ok? {
        RelayShrinks(cs, ids[0], header);
        if r.value.Relay? {
          CrossesAtMost(cs, ids[1..], r.value.newHeader);
        }
      }
    }
  }
}
