/**
 Node identities and the signed descriptor: its 1385-byte record, the signature
 over everything but the signature, and the check that the node id is the hash
 of the signing key.
 */
module Identity {
  import opened Wrappers
  import opened Octets
  import opened Crypto

  type NodeId = Bytes20

  const DESC_LEN := 1385
  const DESC_MAGIC: Bytes4 := [78, 66, 70, 68] // "NBFD"
  const DESC_VER: byte := 1

  datatype SocketAddr = V4(ip: Bytes4, port: u16) | V6(ip6: Bytes16, port: u16)

  datatype NodeIdentity = NodeIdentity(ed: Bytes32, linkPub: Bytes32, sphinxPub: Bytes32, kemSk: DecapsKey)

  datatype Descriptor = Descriptor(
    nodeId: NodeId,
    edPub: Bytes32,
    linkPub: Bytes32,
    sphinxPub: Bytes32,
    kemPk: KemPk,
    cellAddr: SocketAddr,
    dhtPort: u16,
    ts: u64,
    sig: Bytes64)

  function NodeIdFromEdPub(cs: Suite, edPub: Bytes32): NodeId {
    cs.sha256(edPub)[..20]
  }

  function NodeIdOf(cs: Suite, id: NodeIdentity): NodeId {
    NodeIdFromEdPub(cs, cs.edPublic(id.ed))
  }

  const FIELD_LENS: seq<nat> := [4, 1, 20, 32, 32, 32, KEM_PK_LEN, 4, 2, 2, 8, 64]

  function Fields(d: Descriptor): (f: seq<Bytes>)
    requires d.cellAddr.V4?
    ensures |f| == 12 && forall i :: 0 <= i < 12 ==> |f[i]| == FIELD_LENS[i]
  {
    [DESC_MAGIC, [DESC_VER], d.nodeId, d.edPub, d.linkPub, d.sphinxPub, d.kemPk,
     d.cellAddr.ip, Le16(d.cellAddr.port), Le16(d.dhtPort), Le64(d.ts), d.sig]
  }

  /** The wire form of an IPv4 descriptor; for any other address the source panics. */
  function ToBytes(d: Descriptor): (b: Bytes)
    requires d.cellAddr.V4?
    ensures |b| == DESC_LEN
  {
    LensTotal();
    SplitConcat(Fields(d), FIELD_LENS);
    Concat(Fields(d))
  }

  function SigningBytes(d: Descriptor): Bytes
    requires d.cellAddr.V4?
  {
    ToBytes(d)[..DESC_LEN - 64]
  }

  /** `Descriptor::sign`; None where `signing_bytes` panics. */
  function Sign(cs: Suite, id: NodeIdentity, cellAddr: SocketAddr, dhtPort: u16, now: u64): Option<Descriptor> {
    if cellAddr.V4? then
      var d := Descriptor(NodeIdOf(cs, id), cs.edPublic(id.ed), id.linkPub, id.sphinxPub,
                          cs.kemPublic(id.kemSk), cellAddr, dhtPort, now, Zeros(64));
      Some(d.(sig := cs.edSign(id.ed, SigningBytes(d))))
    else
      None
  }

  /** What a parsed descriptor is guaranteed to satisfy. */
  predicate Authentic(cs: Suite, d: Descriptor) {
    && d.cellAddr.V4?
    && cs.edVerify(d.edPub, SigningBytes(d), d.sig)
    && NodeIdFromEdPub(cs, d.edPub) == d.nodeId
  }

  function FromFields(f: seq<Bytes>): Descriptor
    requires |f| == 12 && forall i :: 0 <= i < 12 ==> |f[i]| == FIELD_LENS[i]
  {
    Descriptor(f[2], f[3], f[4], f[5], f[6], V4(f[7], Get16(f[8])), Get16(f[9]), Get64(f[10]), f[11])
  }

  /** The specification of `Descriptor::from_signed_bytes`. */
  function Parsed(cs: Suite, b: Bytes): Result<Descriptor, CryptoError> {
    if |b| != DESC_LEN then Err(BadLength(|b|))
    else if b[..4] != DESC_MAGIC || b[4] != DESC_VER then Err(BadDescriptor)
    else
      LensTotal();
      var d := FromFields(Split(b, FIELD_LENS));
      if !cs.edVerify(d.edPub, b[..DESC_LEN - 64], d.sig) then Err(Ed25519)
      else if NodeIdFromEdPub(cs, d.edPub) != d.nodeId then Err(BadDescriptor)
      else Ok(d)
  }

  /** Where each field of the record starts. */
  const FIELD_OFFS: seq<nat> := [0, 4, 5, 25, 57, 89, 121, 1305, 1309, 1311, 1313, 1321, DESC_LEN]

  lemma {:induction false} FieldOffset(k: nat)
    requires k <= 12
    ensures Sum(FIELD_LENS[..k]) == FIELD_OFFS[k]
  {
    if k > 0 {
      FieldOffset(k - 1);
      SumTake(FIELD_LENS, k - 1);
    }
  }

  lemma LensTotal()
    ensures Sum(FIELD_LENS) == DESC_LEN
  {
    FieldOffset(12);
    assert FIELD_LENS[..12] == FIELD_LENS;
  }

  lemma FieldAt(b: Bytes, k: nat)
    requires |b| == DESC_LEN && k < 12
    ensures Sum(FIELD_LENS) == DESC_LEN
    ensures FIELD_OFFS[k] <= FIELD_OFFS[k + 1] <= DESC_LEN
    ensures Split(b, FIELD_LENS)[k] == b[FIELD_OFFS[k]..FIELD_OFFS[k + 1]]
  {
    LensTotal();
    FieldOffset(k);
    FieldOffset(k + 1);
    SumTake(FIELD_LENS, k);
    SplitAt(b, FIELD_LENS, k);
  }

  lemma FieldsOffsets(b: Bytes)
    requires |b| == DESC_LEN
    ensures Sum(FIELD_LENS) == DESC_LEN
    ensures var f := Split(b, FIELD_LENS);
            && f[0] == b[..4] && f[1] == b[4..5] && f[2] == b[5..25] && f[3] == b[25..57]
            && f[4] == b[57..89] && f[5] == b[89..121] && f[6] == b[121..1305] && f[7] == b[1305..1309]
            && f[8] == b[1309..1311] && f[9] == b[1311..1313] && f[10] == b[1313..1321] && f[11] == b[1321..]
  {
    FieldAt(b, 0); FieldAt(b, 1); FieldAt(b, 2); FieldAt(b, 3); FieldAt(b, 4); FieldAt(b, 5);
    FieldAt(b, 6); FieldAt(b, 7); FieldAt(b, 8); FieldAt(b, 9); FieldAt(b, 10); FieldAt(b, 11);
  }

  lemma {:induction false} SumTake(lens: seq<nat>, k: nat)
    requires k < |lens|
    ensures Sum(lens[..k + 1]) == Sum(lens[..k]) + lens[k]
  {
    if k > 0 {
      SumTake(lens[1..], k - 1);
      assert lens[..k + 1][1..] == lens[1..][..k];
      assert lens[..k][1..] == lens[1..][..k - 1];
    }
  }

  /** `Descriptor::from_signed_bytes`, stepping an offset through the record. */
  method FromSignedBytes(cs: Suite, bytes: Bytes) returns (r: Result<Descriptor, CryptoError>)
    ensures r == Parsed(cs, bytes)
  {
    if |bytes| != DESC_LEN {
      return Err(BadLength(|bytes|));
    }
    if bytes[..4] != DESC_MAGIC || bytes[4] != DESC_VER {
      return Err(BadDescriptor);
    }
    FieldsOffsets(bytes);
    var o := 5;
    var nodeId: NodeId := bytes[o..o + 20];
    o := o + 20;
    var edPub: Bytes32 := bytes[o..o + 32];
    o := o + 32;
    var linkPub: Bytes32 := bytes[o..o + 32];
    o := o + 32;
    var sphinxPub: Bytes32 := bytes[o..o + 32];
    o := o + 32;
    var kemPk: KemPk := bytes[o..o + KEM_PK_LEN];
    o := o + KEM_PK_LEN;
    var ip: Bytes4 := bytes[o..o + 4];
    o := o + 4;
    var port := Get16(bytes[o..o + 2]);
    o := o + 2;
    var dhtPort := Get16(bytes[o..o + 2]);
    o := o + 2;
    var ts := Get64(bytes[o..o + 8]);
    o := o + 8;
    var sig: Bytes64 := bytes[o..o + 64];
    ghost var f := Split(bytes, FIELD_LENS);
    assert nodeId == f[2] && edPub == f[3] && linkPub == f[4] && sphinxPub == f[5] && kemPk == f[6];
    assert ip == f[7] && port == Get16(f[8]) && dhtPort == Get16(f[9]) && ts == Get64(f[10]) && sig == f[11];
    if !cs.edVerify(edPub, bytes[..DESC_LEN - 64], sig) {
      return Err(Ed25519);
    }
    if NodeIdFromEdPub(cs, edPub) != nodeId {
      return Err(BadDescriptor);
    }
    return Ok(Descriptor(nodeId, edPub, linkPub, sphinxPub, kemPk, V4(ip, port), dhtPort, ts, sig));
  }

  lemma FieldsOfRecord(f: seq<Bytes>)
    requires |f| == 12 && forall i :: 0 <= i < 12 ==> |f[i]| == FIELD_LENS[i]
    requires f[0] == DESC_MAGIC && f[1] == [DESC_VER]
    ensures Fields(FromFields(f)) == f
  {
    var g := Fields(FromFields(f));
    assert g[8] == f[8] && g[9] == f[9] && g[10] == f[10];
    assert g[..8] == f[..8];
    assert g == g[..8] + [g[8], g[9], g[10], g[11]];
    assert f == f[..8] + [f[8], f[9], f[10], f[11]];
  }

  /** Parsing accepts exactly the wire forms of authentic descriptors, and gives the descriptor back. */
  lemma ParsedExactly(cs: Suite, b: Bytes, d: Descriptor)
    ensures Parsed(cs, b) == Ok(d) <==> Authentic(cs, d) && b == ToBytes(d)
  {
    if Parsed(cs, b) == Ok(d) {
      LensTotal();
      FieldsOffsets(b);
      ConcatSplit(b, FIELD_LENS);
      assert b[4..5] == [DESC_VER];
      FieldsOfRecord(Split(b, FIELD_LENS));
      assert Split(b, FIELD_LENS) == Fields(d);
    }
    if Authentic(cs, d) && b == ToBytes(d) {
      LensTotal();
      SplitConcat(Fields(d), FIELD_LENS);
      FieldsOffsets(b);
      assert Split(b, FIELD_LENS) == Fields(d);
      FieldsDetermine(d);
    }
  }

  /**
   Why bytes are refused: their length; the magic or version; the signature; or, the signature
   being right, an id that is not the hash prefix of the signing key.
   */
  lemma RefusedExactly(cs: Suite, b: Bytes)
    ensures var r := Parsed(cs, b);
            if |b| != 1385 then r == Err(BadLength(|b|))
            else
              var front, key, sig := b[..5], b[25..57], b[1321..];
              var verifies := cs.edVerify(key, b[..1321], sig);
              && (r == Err(Ed25519) <==> front == [78, 66, 70, 68, 1] && !verifies)
              && (r == Err(BadDescriptor) <==>
                    front != [78, 66, 70, 68, 1] || (verifies && cs.sha256(key)[..20] != b[5..25]))
              && (r.Ok? <==> front == [78, 66, 70, 68, 1] && verifies && cs.sha256(key)[..20] == b[5..25])
  {
    if |b| == DESC_LEN {
      FieldsOffsets(b);
      assert b[..5] == b[..4] + [b[4]];
    }
  }

  lemma FieldsDetermine(d: Descriptor)
    requires d.cellAddr.V4?
    ensures FromFields(Fields(d)) == d
  {
    var p := d.cellAddr.port;
    assert Le16(Get16(Le16(p))) == Le16(p);
    assert Le16(Get16(Le16(d.dhtPort))) == Le16(d.dhtPort);
    assert Le64(Get64(Le64(d.ts))) == Le64(d.ts);
  }

  /** A descriptor its owner signs for an IPv4 address is authentic. */
  lemma SignedIsAuthentic(cs: Suite, id: NodeIdentity, cellAddr: SocketAddr, dhtPort: u16, now: u64)
    requires cellAddr.V4?
    ensures var d := Sign(cs, id, cellAddr, dhtPort, now);
            d.Some? && Authentic(cs, d.value) && d.value.nodeId == NodeIdOf(cs, id)
  {
    var d := Descriptor(NodeIdOf(cs, id), cs.edPublic(id.ed), id.linkPub, id.sphinxPub,
                        cs.kemPublic(id.kemSk), cellAddr, dhtPort, now, Zeros(64));
    SigningIgnoresSig(d, cs.edSign(id.ed, SigningBytes(d)));
    SignatureVerifies(cs, id.ed, SigningBytes(d));
  }

  /**
   What signing publishes: the hash prefix of the signing key, the node's public keys, the
   address, port and time given, and a signature over all of it. Only IPv4 can be signed.
   */
  lemma SignedExactly(cs: Suite, id: NodeIdentity, cellAddr: SocketAddr, dhtPort: u16, now: u64)
    ensures var d := Sign(cs, id, cellAddr, dhtPort, now);
            && (d.Some? <==> cellAddr.V4?)
            && (d.Some? ==>
                  && d.value.nodeId == cs.sha256(cs.edPublic(id.ed))[..20] && d.value.edPub == cs.edPublic(id.ed)
                  && d.value.linkPub == id.linkPub && d.value.sphinxPub == id.sphinxPub
                  && d.value.kemPk == cs.kemPublic(id.kemSk)
                  && d.value.cellAddr == cellAddr && d.value.dhtPort == dhtPort && d.value.ts == now
                  && d.value.sig == cs.edSign(id.ed, ToBytes(d.value)[..1321]))
  {
    if cellAddr.V4? {
      var d := Descriptor(NodeIdOf(cs, id), cs.edPublic(id.ed), id.linkPub, id.sphinxPub,
                          cs.kemPublic(id.kemSk), cellAddr, dhtPort, now, Zeros(64));
      SigningIgnoresSig(d, cs.edSign(id.ed, SigningBytes(d)));
    }
  }

  lemma SigningIgnoresSig(d: Descriptor, sig: Bytes64)
    requires d.cellAddr.V4?
    ensures SigningBytes(d.(sig := sig)) == SigningBytes(d)
  {
    var f, g := Fields(d), Fields(d.(sig := sig));
    assert f[..11] == g[..11];
    assert f == f[..11] + [d.sig] && g == f[..11] + [sig];
    ConcatAppend(f[..11], [d.sig]);
    ConcatAppend(f[..11], [sig]);
    assert Concat([d.sig]) == d.sig && Concat([sig]) == sig;
  }
}
