/**
 The cryptographic libraries behind a small trusted interface. A Suite is any
 choice of primitives that obeys the laws below, so every result about the
 protocol holds for all such choices; Toy shows that the laws are consistent.
 The key schedule and the nonces, which this repository defines itself, are
 spelled out on top of the primitives.
 */
module Crypto {
  import opened Wrappers
  import opened Octets
  import opened Scalars

  const CT_LEN := 1088
  const KEM_PK_LEN := 1184
  const AEAD_TAG := 16

  type KemCt = b: Bytes | |b| == CT_LEN witness Zeros(CT_LEN)
  type KemPk = b: Bytes | |b| == KEM_PK_LEN witness Zeros(KEM_PK_LEN)
  /** An ML-KEM decapsulation key; never put on the wire. */
  type DecapsKey = Bytes

  datatype CryptoError = BadLength(len: nat) | Aead | Kem | BadSphinx | BadDescriptor | Ed25519

  datatype Primitives = Primitives(
    seal: (Bytes32, Bytes12, Bytes) -> Bytes,
    open: (Bytes32, Bytes12, Bytes) -> Option<Bytes>,
    hkdf: (Bytes, Bytes, Bytes, nat) -> Bytes,
    sha256: Bytes -> Bytes32,
    sha512Scalar: Bytes -> Scalar,
    pointMul: (Bytes32, Scalar) -> Bytes32,
    kemPublic: DecapsKey -> KemPk,
    encap: (KemPk, Bytes) -> Option<(KemCt, Bytes32)>,
    decap: (DecapsKey, KemCt) -> Option<Bytes32>,
    edPublic: Bytes32 -> Bytes32,
    edSign: (Bytes32, Bytes) -> Bytes64,
    edVerify: (Bytes32, Bytes, Bytes64) -> bool)

  /**
   - Sealing adds a 16-byte tag and opening with the same key and nonce undoes it
     (section 2.8 of RFC 8439).
   - Whatever opens was at least 16 bytes long and loses exactly 16.
   - HKDF returns the length asked for.
   - Decapsulation returns the encapsulated secret (sections 7.2 and 7.3 of FIPS 203,
     taken as perfect).
   - A signature verifies under its own public key (section 5.1 of RFC 8032).
   */
  ghost predicate Lawful(p: Primitives) {
    && (forall k, n, m :: |p.seal(k, n, m)| == |m| + AEAD_TAG)
    && (forall k, n, m :: p.open(k, n, p.seal(k, n, m)) == Some(m))
    && (forall k, n, b :: p.open(k, n, b).Some? ==>
          |b| >= AEAD_TAG && |p.open(k, n, b).value| == |b| - AEAD_TAG)
    && (forall ikm, salt, info, len :: |p.hkdf(ikm, salt, info, len)| == len)
    && (forall sk, coins :: p.encap(p.kemPublic(sk), coins).Some? ==>
          p.decap(sk, p.encap(p.kemPublic(sk), coins).value.0)
          == Some(p.encap(p.kemPublic(sk), coins).value.1))
    && (forall sk, m :: p.edVerify(p.edPublic(sk), m, p.edSign(sk, m)))
  }

  type Suite = p: Primitives | Lawful(p) ghost witness Toy()

  /** A transparent instance of the interface: the AEAD tag is the start of the key. */
  function Toy(): (p: Primitives)
    ensures Lawful(p)
  {
    var p := Primitives(
               (k: Bytes32, n: Bytes12, m: Bytes) => m + k[..AEAD_TAG],
               (k: Bytes32, n: Bytes12, b: Bytes) => ToyOpen(k, b),
               (ikm: Bytes, salt: Bytes, info: Bytes, len: nat) => Zeros(len),
               (b: Bytes) => Zeros(32),
               (b: Bytes) => 1,
               (b: Bytes32, x: Scalar) => b,
               (sk: DecapsKey) => Zeros(KEM_PK_LEN),
               (pk: KemPk, coins: Bytes) => Some((Zeros(CT_LEN), Zeros(32))),
               (sk: DecapsKey, ct: KemCt) => Some(Zeros(32)),
               (sk: Bytes32) => sk,
               (sk: Bytes32, m: Bytes) => Zeros(64),
               (pk: Bytes32, m: Bytes, sig: Bytes64) => true);
    p
  }

  function ToyOpen(k: Bytes32, b: Bytes): Option<Bytes> {
    if |b| >= AEAD_TAG && b[|b| - AEAD_TAG..] == k[..AEAD_TAG] then Some(b[..|b| - AEAD_TAG]) else None
  }

  function Seal(cs: Suite, k: Bytes32, n: Bytes12, m: Bytes): (b: Bytes)
    ensures |b| == |m| + AEAD_TAG
    ensures Open(cs, k, n, b) == Ok(m)
  {
    cs.seal(k, n, m)
  }

  function Open(cs: Suite, k: Bytes32, n: Bytes12, b: Bytes): (r: Result<Bytes, CryptoError>)
    ensures r.Ok? ==> |b| == |r.value| + AEAD_TAG
    ensures r.Err? ==> r.error == Aead
  {
    match cs.open(k, n, b)
    case Some(m) => Ok(m)
    case None => Err(Aead)
  }

  function Hkdf(cs: Suite, ikm: Bytes, salt: Bytes, info: Bytes, len: nat): (okm: Bytes)
    ensures |okm| == len
  {
    cs.hkdf(ikm, salt, info, len)
  }

  // "nbf/hdr/v1", "nbf/traffic/v1" and "hdr" in ASCII
  const INFO_HDR: Bytes := [110, 98, 102, 47, 104, 100, 114, 47, 118, 49]
  const INFO_TRAFFIC: Bytes := [110, 98, 102, 47, 116, 114, 97, 102, 102, 105, 99, 47, 118, 49]
  const HDR_LABEL: Bytes := [104, 100, 114]

  function DeriveHdrKey(cs: Suite, ssX: Bytes32, tag: Bytes16): Bytes32 {
    Hkdf(cs, ssX, tag, INFO_HDR, 32)
  }

  function DeriveTrafficKeys(cs: Suite, ssX: Bytes32, ssKem: Bytes32, tag: Bytes16): (Bytes32, Bytes32) {
    var v := Hkdf(cs, ssX + ssKem, tag, INFO_TRAFFIC, 64);
    (v[..32], v[32..])
  }

  /** The string whose hash is the nonce of a header layer. */
  function HdrNonceText(tag: Bytes16, nField: byte): Bytes {
    tag + HDR_LABEL + [nField]
  }

  function HdrNonce(cs: Suite, tag: Bytes16, nField: byte): Bytes12 {
    cs.sha256(HdrNonceText(tag, nField))[..12]
  }

  /** The string whose hash is the nonce of a RELAY layer. */
  function RelayNonceText(tag: Bytes16, dir: byte, seqNo: u32): Bytes {
    tag + [dir] + Le32(seqNo)
  }

  function RelayNonce(cs: Suite, tag: Bytes16, dir: byte, seqNo: u32): Bytes12 {
    cs.sha256(RelayNonceText(tag, dir, seqNo))[..12]
  }

  /** Nonces are hashes of different strings for different circuits, directions and numbers. */
  lemma RelayNonceTexts(tag: Bytes16, dir: byte, seqNo: u32, tag': Bytes16, dir': byte, seqNo': u32)
    ensures RelayNonceText(tag, dir, seqNo) == RelayNonceText(tag', dir', seqNo') <==>
            tag == tag' && dir == dir' && seqNo == seqNo'
  {
    var a, b := RelayNonceText(tag, dir, seqNo), RelayNonceText(tag', dir', seqNo');
    assert a[..16] == tag && a[16] == dir && a[17..] == Le32(seqNo);
    assert b[..16] == tag' && b[16] == dir' && b[17..] == Le32(seqNo');
  }

  /** And for different counts of a header, and never for a header layer and a RELAY layer. */
  lemma HdrNonceTexts(tag: Bytes16, n: byte, tag': Bytes16, n': byte, dir: byte, seqNo: u32)
    ensures HdrNonceText(tag, n) == HdrNonceText(tag', n') <==> tag == tag' && n == n'
    ensures HdrNonceText(tag, n) != RelayNonceText(tag', dir, seqNo)
  {
    var a, b := HdrNonceText(tag, n), HdrNonceText(tag', n');
    assert a[..16] == tag && a[19] == n && b[..16] == tag' && b[19] == n';
    assert |a| == 20 && |RelayNonceText(tag', dir, seqNo)| == 21;
  }

  /** So one nonce for two numbers or directions takes a collision of the truncated hash. */
  lemma NonceReuseIsCollision(cs: Suite, tag: Bytes16, dir: byte, seqNo: u32, dir': byte, seqNo': u32)
    returns (x: Bytes, y: Bytes)
    requires (dir, seqNo) != (dir', seqNo') && RelayNonce(cs, tag, dir, seqNo) == RelayNonce(cs, tag, dir', seqNo')
    ensures x != y && cs.sha256(x)[..12] == cs.sha256(y)[..12]
  {
    RelayNonceTexts(tag, dir, seqNo, tag, dir', seqNo');
    x, y := RelayNonceText(tag, dir, seqNo), RelayNonceText(tag, dir', seqNo');
  }

  function KemEncap(cs: Suite, pk: KemPk, coins: Bytes): Result<(KemCt, Bytes32), CryptoError> {
    match cs.encap(pk, coins)
    case Some(r) => Ok(r)
    case None => Err(Kem)
  }

  function KemDecap(cs: Suite, sk: DecapsKey, ct: KemCt): Result<Bytes32, CryptoError> {
    match cs.decap(sk, ct)
    case Some(ss) => Ok(ss)
    case None => Err(Kem)
  }

  lemma KemAgrees(cs: Suite, sk: DecapsKey, coins: Bytes)
    requires KemEncap(cs, cs.kemPublic(sk), coins).Ok?
    ensures var (ct, ss) := KemEncap(cs, cs.kemPublic(sk), coins).value;
            KemDecap(cs, sk, ct) == Ok(ss)
  {
  }

  lemma SignatureVerifies(cs: Suite, sk: Bytes32, m: Bytes)
    ensures cs.edVerify(cs.edPublic(sk), m, cs.edSign(sk, m))
  {
  }
}
