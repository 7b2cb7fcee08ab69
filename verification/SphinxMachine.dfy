/**
 `build_header` and `process_header` as they run: loops that accumulate the blinding
 product, write the layer infos in place, seal from the inside out and re-blind the
 remaining slots, each proved against the functions of Sphinx.
 */
module SphinxMachine {
  import opened Wrappers
  import opened Octets
  import opened Scalars
  import opened Crypto
  import opened Identity
  import opened Sphinx

  /** `buf[off..off + src.len()].copy_from_slice(src)` on a fixed-size buffer. */
  method CopyInto(buf: array<byte>, off: nat, src: Bytes)
    requires off + |src| <= buf.Length
    modifies buf
    ensures buf[..] == Splice(old(buf[..]), off, src)
  {
    forall i | 0 <= i < |src| {
      buf[off + i] := src[i];
    }
  }

  /** The KEM results for a whole route, or the first failure. */
  function EncapAll(cs: Suite, route: seq<Descriptor>, coins: seq<Bytes>): (r: Result<seq<(KemCt, Bytes32)>, CryptoError>)
    requires |coins| == |route|
    ensures r.Ok? ==> |r.value| == |route|
    ensures r.Ok? ==> forall i :: 0 <= i < |route| ==> KemEncap(cs, route[i].kemPk, coins[i]) == Ok(r.value[i])
  {
    if route == [] then Ok([])
    else
      var init := EncapAll(cs, route[..|route| - 1], coins[..|route| - 1]);
      if init.Err? then init
      else
        var last := KemEncap(cs, route[|route| - 1].kemPk, coins[|route| - 1]);
        if last.Err? then Err(last.error) else Ok(init.value + [last.value])
  }

  function PlanOf(route: seq<Descriptor>, tag: Bytes16, xs: seq<Scalar>, kems: seq<(KemCt, Bytes32)>): (p: Plan)
    requires 0 < |route| < 256 && |xs| == |route| == |kems|
    ensures p.Valid()
  {
    Plan(route, tag, xs, kems)
  }

  /** The specification of `build_header`. */
  function Built(cs: Suite, route: seq<Descriptor>, tag: Bytes16, xs: seq<Scalar>, coins: seq<Bytes>):
    Result<BuiltHeader, CryptoError>
    requires |xs| == |coins| == |route|
  {
    if route == [] || |route| > MAX_HOPS then Err(BadLength(|route|))
    else
      var kems := EncapAll(cs, route, coins);
      if kems.Err? then Err(kems.error)
      else
        var p := PlanOf(route, tag, xs, kems.value);
        Ok(BuiltHeader(HeaderAt(cs, p, 0), tag, FwdKeys(cs, p), BwdKeys(cs, p), route[0].cellAddr))
  }

  function FwdKeys(cs: Suite, p: Plan): (k: seq<Bytes32>)
    requires p.Valid()
    ensures |k| == |p.route| && forall i :: 0 <= i < |k| ==> k[i] == KeysAt(cs, p, i).0
  {
    seq(|p.route|, i requires 0 <= i < |p.route| => KeysAt(cs, p, i).0)
  }

  function BwdKeys(cs: Suite, p: Plan): (k: seq<Bytes32>)
    requires p.Valid()
    ensures |k| == |p.route| && forall i :: 0 <= i < |k| ==> k[i] == KeysAt(cs, p, i).1
  {
    seq(|p.route|, i requires 0 <= i < |p.route| => KeysAt(cs, p, i).1)
  }

  /** Outcome `o` of hop i is the one the origin's records describe. */
  ghost predicate AsKept(b: BuiltHeader, route: seq<Descriptor>, i: nat, o: Outcome)
    requires i < |route| == |b.fwdKeys| == |b.bwdKeys|
  {
    && o.tag == b.tag && o.kFwd == b.fwdKeys[i] && o.kBwd == b.bwdKeys[i]
    && (o.Relay? <==> i + 1 < |route|)
    && (o.Relay? ==>
          && o.nextId == route[i + 1].nodeId
          && o.nextAddr == if route[i + 1].cellAddr.V4? then route[i + 1].cellAddr
                           else V4([0, 0, 0, 0], route[i + 1].cellAddr.port))
  }

  /**
   What the origin keeps is what the hops derive: the header of a successful build walks
   its whole route, hop i ends up with key pair i, and relays name the next hop's id and
   IPv4 address, or 0.0.0.0 for a hop that has none.
   */
  lemma BuiltHeaderPeels(cs: Suite, ids: seq<NodeIdentity>, route: seq<Descriptor>, tag: Bytes16,
                         xs: seq<Scalar>, coins: seq<Bytes>)
    requires |xs| == |coins| == |route| == |ids|
    requires forall i :: 0 <= i < |ids| ==> Owns(cs, ids[i], route[i])
    requires forall i :: 0 < i < |route| ==> route[i].nodeId != TERMINAL_ID
    requires Built(cs, route, tag, xs, coins).Ok?
    ensures var b := Built(cs, route, tag, xs, coins).value;
            var w := Walk(cs, ids, b.header);
            && |w| == |b.fwdKeys| == |b.bwdKeys| == |route|
            && forall i :: 0 <= i < |w| ==> w[i].Ok? && AsKept(b, route, i, w[i].value)
  {
    hide Expected, AsKept, KeysAt, Walk, Itinerary, HeaderAt, EncapAll;
    var p := PlanOf(route, tag, xs, EncapAll(cs, route, coins).value);
    PeelRoute(cs, p, coins, ids, 0);
    assert ids[0..] == ids;
    var b := Built(cs, route, tag, xs, coins).value;
    ItineraryAt(cs, p, 0, 0);
    forall i | 0 <= i < |route|
      ensures Itinerary(cs, p, 0)[i].Ok? && AsKept(b, route, i, Itinerary(cs, p, 0)[i].value)
    {
      ItineraryAt(cs, p, 0, i);
      ExpectedAsKept(cs, p, b, i);
    }
  }

  lemma ExpectedAsKept(cs: Suite, p: Plan, b: BuiltHeader, i: nat)
    requires p.Valid() && i < |p.route|
    requires b.tag == p.tag && b.fwdKeys == FwdKeys(cs, p) && b.bwdKeys == BwdKeys(cs, p)
    requires forall j :: 0 < j < |p.route| ==> p.route[j].nodeId != TERMINAL_ID
    ensures AsKept(b, p.route, i, Expected(cs, p, i))
  {
    hide HeaderAt, KeysAt;
  }

  lemma {:induction false} ItineraryAt(cs: Suite, p: Plan, t: nat, i: nat)
    requires p.Valid() && t <= i < |p.route|
    ensures |Itinerary(cs, p, t)| == |p.route| - t
    ensures Itinerary(cs, p, t)[i - t] == Ok(Expected(cs, p, i))
    decreases |p.route| - t
  {
    hide Expected;
    if t < i {
      ItineraryAt(cs, p, t + 1, i);
    } else if t + 1 < |p.route| {
      ItineraryAt(cs, p, t + 1, t + 1);
    }
  }

  // ---- the origin ----

  /** Step 1: effective scalars, shared points and the running product of blinding factors. */
  method BlindingChain(cs: Suite, ghost p: Plan, route: seq<Descriptor>, xs: seq<Scalar>)
    returns (rawX: seq<Scalar>, ssX: seq<Bytes32>)
    requires p.Valid() && p.route == route && p.xs == xs
    ensures rawX == xs
    ensures |ssX| == |route| && forall i :: 0 <= i < |route| ==> ssX[i] == Ss(cs, p, i)
  {
    rawX, ssX := [], [];
    hide ScalarBytes, SharedPoint, BlindFactor;
    var blindAcc: Scalar := 1;
    for i := 0 to |route|
      invariant rawX == xs[..i] && blindAcc == Acc(cs, p, i)
      invariant |ssX| == i && forall j :: 0 <= j < i ==> ssX[j] == Ss(cs, p, j)
    {
      var x := xs[i];
      var eff := Mul(x, blindAcc);
      var pt := SharedPoint(cs, route[i].sphinxPub, eff);
      ssX := ssX + [pt];
      blindAcc := Mul(blindAcc, BlindFactor(cs, pt, ScalarBytes(eff)));
      rawX := rawX + [x];
    }
  }

  /** Step 2: encapsulate to every hop, stopping at the first failure. */
  method EncapRoute(cs: Suite, route: seq<Descriptor>, coins: seq<Bytes>)
    returns (r: Result<seq<(KemCt, Bytes32)>, CryptoError>)
    requires |coins| == |route|
    ensures r == EncapAll(cs, route, coins)
  {
    var kems := [];
    for i := 0 to |route|
      invariant EncapAll(cs, route[..i], coins[..i]) == Ok(kems)
    {
      assert route[..i + 1][..i] == route[..i] && coins[..i + 1][..i] == coins[..i];
      var e := KemEncap(cs, route[i].kemPk, coins[i]);
      if e.Err? {
        EncapFailsOn(cs, route, coins, i + 1);
        return Err(e.error);
      }
      kems := kems + [e.value];
    }
    assert route[..|route|] == route && coins[..|route|] == coins;
    return Ok(kems);
  }

  lemma {:induction false} EncapFailsOn(cs: Suite, route: seq<Descriptor>, coins: seq<Bytes>, i: nat)
    requires |coins| == |route| && i <= |route| && EncapAll(cs, route[..i], coins[..i]).Err?
    ensures EncapAll(cs, route, coins) == EncapAll(cs, route[..i], coins[..i])
    decreases |route|
  {
    if i == |route| {
      assert route[..i] == route && coins[..i] == coins;
    } else {
      var n := |route| - 1;
      assert route[..n][..i] == route[..i] && coins[..n][..i] == coins[..i];
      EncapFailsOn(cs, route[..n], coins[..n], i);
    }
  }

  /** Step 3: write one layer info into its zeroed buffer. */
  method WriteInfo(next: Option<Descriptor>, ct: KemCt) returns (info: array<byte>)
    ensures fresh(info) && info[..] == Info(next, ct)
  {
    info := new byte[LAYER_INFO_LEN](_ => 0);
    assert info[..] == Zeros(LAYER_INFO_LEN);
    match next {
      case Some(nd) =>
        WriteNext(info, nd);
      case None =>
        CopyInto(info, 0, TERMINAL_ID);
    }
    CopyInto(info, 64, ct);
  }

  /** Write one field right behind what is already in the zeroed buffer. */
  method WriteField(info: array<byte>, off: nat, ghost done: Bytes, src: Bytes)
    requires |done| == off && off + |src| <= info.Length && info[..] == done + Zeros(info.Length - off)
    modifies info
    ensures info[..] == done + src + Zeros(info.Length - off - |src|)
  {
    CopyInto(info, off, src);
    SpliceFills(done, info.Length - off, src);
  }

  /** Id and address; an address that is not IPv4 stays zero. */
  method WriteHop(info: array<byte>, nd: Descriptor)
    requires info[..] == Zeros(LAYER_INFO_LEN)
    modifies info
    ensures info[..] == nd.nodeId + Ip4(nd.cellAddr) + Zeros(LAYER_INFO_LEN - 24)
  {
    hide Zeros, Filled;
    assert info.Length == |info[..]| == LAYER_INFO_LEN;
    EmptyFirst(Zeros(LAYER_INFO_LEN));
    EmptyFirst(nd.nodeId);
    WriteField(info, 0, [], nd.nodeId);
    if nd.cellAddr.V4? {
      WriteField(info, 20, nd.nodeId, nd.cellAddr.ip);
    } else {
      ZerosSplit(4, LAYER_INFO_LEN - 24);
      Regroup(nd.nodeId, Zeros(4), Zeros(LAYER_INFO_LEN - 24));
    }
  }

  method WriteNext(info: array<byte>, nd: Descriptor)
    requires info[..] == Zeros(LAYER_INFO_LEN)
    modifies info
    ensures info[..64] == nd.nodeId + Ip4(nd.cellAddr) + Le16(nd.cellAddr.port) + nd.linkPub + Zeros(6)
  {
    hide Zeros, Ip4, Le16;
    assert info.Length == |info[..]| == LAYER_INFO_LEN;
    WriteHop(info, nd);
    ghost var a := nd.nodeId + Ip4(nd.cellAddr);
    WriteField(info, 24, a, Le16(nd.cellAddr.port));
    ghost var b := a + Le16(nd.cellAddr.port);
    WriteField(info, 26, b, nd.linkPub);
    FrontOf(b + nd.linkPub, 6, LAYER_INFO_LEN - 64);
  }

  lemma EmptyFirst(a: Bytes)
    ensures [] + a == a
  {
  }

  lemma FrontOf(a: Bytes, m: nat, n: nat)
    ensures (a + Zeros(m + n))[..|a| + m] == a + Zeros(m)
  {
    ZerosSplit(m, n);
    Regroup(a, Zeros(m), Zeros(n));
  }

  lemma ZerosSplit(m: nat, n: nat)
    ensures Zeros(m + n) == Zeros(m) + Zeros(n)
  {
  }

  lemma SpliceFills(a: Bytes, n: nat, src: Bytes)
    requires |src| <= n
    ensures Splice(a + Zeros(n), |a|, src) == a + src + Zeros(n - |src|)
  {
  }

  method WriteInfos(ghost p: Plan, route: seq<Descriptor>, kems: seq<(KemCt, Bytes32)>) returns (infos: seq<Bytes>)
    requires p.Valid() && p.route == route && p.kems == kems
    ensures |infos| == |route| && forall j :: 0 <= j < |route| ==> infos[j] == Info(Next(p, j), kems[j].0)
  {
    infos := [];
    for i := 0 to |route|
      invariant |infos| == i && forall j :: 0 <= j < i ==> infos[j] == Info(Next(p, j), kems[j].0)
    {
      var info := WriteInfo(if i + 1 < |route| then Some(route[i + 1]) else None, kems[i].0);
      infos := infos + [info[..]];
    }
  }

  lemma BlobNests(cs: Suite, p: Plan, t: nat)
    requires p.Valid() && t < |p.route|
    ensures Blob(cs, p, |p.route|) == []
    ensures Blob(cs, p, t) == Seal(cs, DeriveHdrKey(cs, Ss(cs, p, t), p.tag), HdrNonce(cs, p.tag, |p.route| - t),
                                   Info(Next(p, t), p.kems[t].0) + Blob(cs, p, t + 1))
  {
    hide Ss, Info, DeriveHdrKey, HdrNonce, Next, Seal;
  }

  /** Step 4: layers sealed from the last hop outwards; layer t goes around layer t + 1. */
  method SealLayers(cs: Suite, ghost p: Plan, tag: Bytes16, ssX: seq<Bytes32>, infos: seq<Bytes>)
    returns (blobs: seq<Bytes>)
    requires p.Valid() && p.tag == tag
    requires |ssX| == |infos| == |p.route|
    requires forall i :: 0 <= i < |ssX| ==> ssX[i] == Ss(cs, p, i) && infos[i] == Info(Next(p, i), p.kems[i].0)
    ensures |blobs| == |ssX| && forall i :: 0 <= i < |blobs| ==> blobs[i] == Blob(cs, p, i)
  {
    hide Blob, Ss, Info, DeriveHdrKey, HdrNonce, Next, Seal;
    var n := |ssX|;
    blobs := [];
    for t := n downto 0
      invariant |blobs| == n - t && forall j :: 0 <= j < n - t ==> blobs[j] == Blob(cs, p, n - 1 - j)
    {
      var inner := infos[t];
      if blobs != [] {
        inner := inner + blobs[|blobs| - 1];
      }
      BlobNests(cs, p, t);
      assert inner == Info(Next(p, t), p.kems[t].0) + Blob(cs, p, t + 1);
      blobs := blobs + [Seal(cs, DeriveHdrKey(cs, ssX[t], tag), HdrNonce(cs, tag, n - t), inner)];
    }
    blobs := seq(n, i requires 0 <= i < n => blobs[n - 1 - i]);
  }

  method BuildHeader(cs: Suite, route: seq<Descriptor>, tag: Bytes16, xs: seq<Scalar>, coins: seq<Bytes>)
    returns (r: Result<BuiltHeader, CryptoError>)
    requires |xs| == |coins| == |route|
    ensures r == Built(cs, route, tag, xs, coins)
  {
    if route == [] || |route| > MAX_HOPS {
      return Err(BadLength(|route|));
    }
    var n := |route|;
    ghost var all := EncapAll(cs, route, coins);
    ghost var p := PlanOf(route, tag, xs, if all.Ok? then all.value else seq(n, _ => (Zeros(CT_LEN), Zeros(32))));
    var rawX, ssX := BlindingChain(cs, p, route, xs);
    var kems := EncapRoute(cs, route, coins);
    if kems.Err? {
      return Err(kems.error);
    }
    var infos := WriteInfos(p, route, kems.value);
    var blobs := SealLayers(cs, p, tag, ssX, infos);
    var header := LayOut(cs, p, tag, rawX, blobs[0]);
    var fwdKeys, bwdKeys := TrafficKeys(cs, p, tag, ssX, kems.value);
    return Ok(BuiltHeader(header, tag, fwdKeys, bwdKeys, route[0].cellAddr));
  }

  /** Step 5: version, count, tag, raw scalars, outermost blob. */
  method LayOut(cs: Suite, ghost p: Plan, tag: Bytes16, rawX: seq<Scalar>, blob: Bytes) returns (header: Bytes)
    requires p.Valid() && p.xs == rawX && p.tag == tag && blob == Blob(cs, p, 0)
    ensures header == HeaderAt(cs, p, 0)
  {
    hide ScalarBytes, Blob;
    var n := |rawX|;
    var front: Bytes := [1, n];
    front := front + tag;
    header := front;
    for i := 0 to n
      invariant header + Slots(rawX[i..], 1) == front + Slots(rawX, 1)
    {
      assert rawX[i..][1..] == rawX[i + 1..];
      MulOne(rawX[i]);
      ghost var before := header;
      header := header + ScalarBytes(rawX[i]);
      assert before + Slots(rawX[i..], 1) == header + Slots(rawX[i + 1..], 1);
    }
    assert rawX[n..] == [] && p.xs[0..] == rawX;
    header := header + blob;
  }

  /** Step 6: the traffic keys the origin keeps. */
  method TrafficKeys(cs: Suite, ghost p: Plan, tag: Bytes16, ssX: seq<Bytes32>, kems: seq<(KemCt, Bytes32)>)
    returns (fwdKeys: seq<Bytes32>, bwdKeys: seq<Bytes32>)
    requires p.Valid() && p.tag == tag && p.kems == kems
    requires |ssX| == |kems| && forall i :: 0 <= i < |kems| ==> ssX[i] == Ss(cs, p, i)
    ensures fwdKeys == FwdKeys(cs, p) && bwdKeys == BwdKeys(cs, p)
  {
    fwdKeys, bwdKeys := [], [];
    for i := 0 to |kems|
      invariant |fwdKeys| == |bwdKeys| == i
      invariant forall j :: 0 <= j < i ==> fwdKeys[j] == KeysAt(cs, p, j).0 && bwdKeys[j] == KeysAt(cs, p, j).1
    {
      var keys := DeriveTrafficKeys(cs, ssX[i], kems[i].1, tag);
      fwdKeys, bwdKeys := fwdKeys + [keys.0], bwdKeys + [keys.1];
    }
  }

  // ---- a hop ----

  method ProcessHeader(cs: Suite, id: NodeIdentity, header: Bytes) returns (r: Result<Outcome, CryptoError>)
    ensures r == Process(cs, id, header)
  {
    if |header| < HDR_FIXED {
      return Err(BadSphinx);
    }
    var ver, n := header[0], header[1];
    if ver != 1 || n == 0 {
      return Err(BadSphinx);
    }
    var tag: Bytes16 := header[2..18];
    var body := header[HDR_FIXED..];
    if |body| != n as int * 32 + Layers(n) {
      return Err(BadSphinx);
    }
    var slots, tail := body[..n as int * 32], body[n as int * 32..];
    var ssX := SharedPoint(cs, id.sphinxPub, FromBytesModOrder(body[..32]));
    var layer := Open(cs, DeriveHdrKey(cs, ssX, tag), HdrNonce(cs, tag, n), tail);
    if layer.Err? {
      return Err(BadSphinx);
    }
    // The length check of the source can never fail once the AEAD has opened.
    assert |layer.value| == LAYER_INFO_LEN + Layers(n - 1);
    r := ReadLayer(cs, id, n, tag, ssX, slots, layer.value);
  }

  method ReadLayer(cs: Suite, id: NodeIdentity, n: byte, tag: Bytes16, ssX: Bytes32, slots: Bytes, layer: Bytes)
    returns (r: Result<Outcome, CryptoError>)
    requires n > 0 && |slots| == n as int * 32 && |layer| == LAYER_INFO_LEN + Layers(n - 1)
    ensures r == Peeled(cs, id, n, tag, ssX, slots, layer)
  {
    var nextId: NodeId := layer[..20];
    var ip: Bytes4 := layer[20..24];
    var port := Get16(layer[24..26]);
    var ssKem := KemDecap(cs, id.kemSk, layer[64..64 + CT_LEN]);
    if ssKem.Err? {
      return Err(ssKem.error);
    }
    var keys := DeriveTrafficKeys(cs, ssX, ssKem.value, tag);
    if nextId == TERMINAL_ID {
      return Ok(Terminal(tag, keys.0, keys.1));
    }
    var b := BlindFactor(cs, ssX, slots[..32]);
    var newHeader: Bytes := [1, n - 1];
    newHeader := AppendBlinded(newHeader + tag, slots[32..], b);
    newHeader := newHeader + layer[LAYER_INFO_LEN..];
    return Ok(Relay(tag, keys.0, keys.1, nextId, V4(ip, port), newHeader));
  }

  /** Multiply every remaining slot by `b`, in order, onto the end of the new header. */
  method AppendBlinded(front: Bytes, slots: Bytes, b: Scalar) returns (newHeader: Bytes)
    requires |slots| % 32 == 0
    ensures newHeader == front + BlindSlots(slots, b)
  {
    hide ScalarBytes, FromBytesModOrder, Mul;
    newHeader := front;
    var rest := slots;
    while rest != []
      invariant |rest| % 32 == 0
      invariant newHeader + BlindSlots(rest, b) == front + BlindSlots(slots, b)
      decreases |rest|
    {
      WholeSlots(|rest|);
      ghost var before := newHeader;
      newHeader := newHeader + ScalarBytes(Mul(FromBytesModOrder(rest[..32]), b));
      assert before + BlindSlots(rest, b) == newHeader + BlindSlots(rest[32..], b);
      rest := rest[32..];
    }
  }

  lemma WholeSlots(len: nat)
    requires len % 32 == 0 && len > 0
    ensures len >= 32 && (len - 32) % 32 == 0
  {
  }
}
