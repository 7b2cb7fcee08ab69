/** DHT datagrams: "NBFR", a type byte and a body, written and read as rpc.rs does. */
module Rpc {
  import opened Wrappers
  import opened Octets
  import opened Crypto
  import opened Identity

  datatype Contact = Contact(nodeId: NodeId, ip: Bytes4, dhtPort: u16)

  datatype RpcMsg =
    | Ping(nonce: u64)
    | Pong(nonce: u64)
    | Store(desc: Descriptor)
    | Find(key: NodeId, wantValue: bool)
    | Found(contacts: seq<Contact>, value: Option<Descriptor>)

  datatype DhtError = BadLen(len: nat) | BadType(v: byte) | BadDesc(e: CryptoError)

  const MAGIC: Bytes4 := [78, 66, 70, 82] // "NBFR"

  /** `Contact::from_desc`: anything but IPv4 becomes the loopback address. */
  function FromDesc(d: Descriptor): Contact {
    Contact(d.nodeId, if d.cellAddr.V4? then d.cellAddr.ip else [127, 0, 0, 1], d.dhtPort)
  }

  function Addr(c: Contact): SocketAddr {
    V4(c.ip, c.dhtPort)
  }

  /** `rpc_encode` panics on a descriptor that is not IPv4. */
  predicate Encodable(m: RpcMsg) {
    match m
    case Store(d) => d.cellAddr.V4?
    case Found(_, Some(d)) => d.cellAddr.V4?
    case _ => true
  }

  function TypeByte(m: RpcMsg): byte {
    match m
    case Ping(_) => 1
    case Pong(_) => 2
    case Store(_) => 3
    case Find(_, _) => 4
    case Found(_, _) => 5
  }

  function ContactBytes(c: Contact): (b: Bytes)
    ensures |b| == 26
  {
    c.nodeId + c.ip + Le16(c.dhtPort)
  }

  function ContactsBytes(contacts: seq<Contact>): (b: Bytes)
    ensures |b| == 26 * |contacts|
  {
    if contacts == [] then []
    else
      var n := |contacts| - 1;
      ContactsBytes(contacts[..n]) + ContactBytes(contacts[n])
  }

  /** The presence byte and the optional record. */
  function ValueBytes(v: Option<Descriptor>): (b: Bytes)
    requires v.Some? ==> v.value.cellAddr.V4?
    ensures |b| == if v.Some? then 1 + DESC_LEN else 1
  {
    match v
    case Some(d) => [1] + ToBytes(d)
    case None => [0]
  }

  /** The count keeps its low 16 bits: `contacts.len() as u16`. */
  function FoundBody(contacts: seq<Contact>, value: Option<Descriptor>): Bytes
    requires value.Some? ==> value.value.cellAddr.V4?
  {
    Le16(|contacts| % 0x1_0000) + ContactsBytes(contacts) + ValueBytes(value)
  }

  function Body(m: RpcMsg): Bytes
    requires Encodable(m)
  {
    match m
    case Ping(nonce) => Le64(nonce)
    case Pong(nonce) => Le64(nonce)
    case Store(d) => ToBytes(d)
    case Find(key, wantValue) => key + [if wantValue then 1 else 0]
    case Found(contacts, value) => FoundBody(contacts, value)
  }

  function Encoded(m: RpcMsg): Bytes
    requires Encodable(m)
  {
    MAGIC + [TypeByte(m)] + Body(m)
  }

  /** `rpc_encode`, appending contact by contact. */
  method RpcEncode(m: RpcMsg) returns (out: Bytes)
    requires Encodable(m)
    ensures out == Encoded(m)
  {
    var body: Bytes := [];
    match m {
      case Ping(nonce) =>
        body := Le64(nonce);
      case Pong(nonce) =>
        body := Le64(nonce);
      case Store(d) =>
        body := ToBytes(d);
      case Find(key, wantValue) =>
        body := key;
        body := body + [if wantValue then 1 else 0];
      case Found(contacts, value) =>
        body := Le16(|contacts| % 0x1_0000);
        for i := 0 to |contacts|
          invariant body == Le16(|contacts| % 0x1_0000) + ContactsBytes(contacts[..i])
        {
          assert contacts[..i + 1][..i] == contacts[..i];
          body := body + (contacts[i].nodeId + contacts[i].ip + Le16(contacts[i].dhtPort));
        }
        assert contacts[..|contacts|] == contacts;
        body := body + [if value.Some? then 1 else 0];
        if value.Some? {
          body := body + ToBytes(value.value);
        }
    }
    out := MAGIC;
    out := out + [TypeByte(m)];
    out := out + body;
  }

  // ---- decoding ----

  function ReadContact(b: Bytes): Contact
    requires |b| == 26
  {
    Contact(b[..20], b[20..24], Get16(b[24..26]))
  }

  function ReadContacts(b: Bytes, n: nat): (r: seq<Contact>)
    requires |b| == 26 * n
    ensures |r| == n
  {
    if n == 0 then [] else ReadContacts(b[..26 * (n - 1)], n - 1) + [ReadContact(b[26 * (n - 1)..])]
  }

  /** Presence byte, then the record if it is not zero; bytes after that are ignored. */
  function DecodedValue(cs: Suite, all: nat, b: Bytes): Result<Option<Descriptor>, DhtError>
  {
    if b == [] then Err(BadLen(all))
    else if b[0] == 0 then Ok(None)
    else if |b| < 1 + DESC_LEN then Err(BadLen(all))
    else
      var d := Parsed(cs, b[1..1 + DESC_LEN]);
      if d.Err? then Err(BadDesc(d.error)) else Ok(Some(d.value))
  }

  function DecodedFound(cs: Suite, body: Bytes): (r: Result<RpcMsg, DhtError>)
    ensures r.Ok? ==> r.value.Found?
  {
    if |body| < 3 then Err(BadLen(|body|))
    else
      var n: nat := Get16(body[..2]);
      var o := 2 + 26 * n;
      if |body| < o then Err(BadLen(|body|))
      else
        var v := DecodedValue(cs, |body|, body[o..]);
        if v.Err? then Err(v.error) else Ok(Found(ReadContacts(body[2..o], n), v.value))
  }

  /** The specification of `rpc_decode`, on any bytes. */
  function Decoded(cs: Suite, b: Bytes): Result<RpcMsg, DhtError> {
    if |b| < 5 then Err(BadLen(|b|))
    else
      var body := b[5..];
      if b[..4] != MAGIC then Err(BadType(b[4]))
      else if b[4] == 1 then
        if |body| != 8 then Err(BadLen(|body|)) else Ok(Ping(Get64(body)))
      else if b[4] == 2 then
        if |body| != 8 then Err(BadLen(|body|)) else Ok(Pong(Get64(body)))
      else if b[4] == 3 then
        var d := Parsed(cs, body);
        if d.Err? then Err(BadDesc(d.error)) else Ok(Store(d.value))
      else if b[4] == 4 then
        if |body| < 21 then Err(BadLen(|body|)) else Ok(Find(body[..20], body[20] != 0))
      else if b[4] == 5 then DecodedFound(cs, body)
      else Err(BadType(b[4]))
  }

  /** `rpc_decode`; no index is ever out of bounds. */
  method RpcDecode(cs: Suite, data: Bytes) returns (r: Result<RpcMsg, DhtError>)
    ensures r == Decoded(cs, data)
  {
    if |data| < 5 {
      return Err(BadLen(|data|));
    }
    if data[..4] != MAGIC {
      return Err(BadType(data[4]));
    }
    var body := data[5..];
    match data[4] {
      case 1 =>
        return if |body| != 8 then Err(BadLen(|body|)) else Ok(Ping(Get64(body)));
      case 2 =>
        return if |body| != 8 then Err(BadLen(|body|)) else Ok(Pong(Get64(body)));
      case 3 =>
        var d := FromSignedBytes(cs, body);
        return if d.Err? then Err(BadDesc(d.error)) else Ok(Store(d.value));
      case 4 =>
        return if |body| < 21 then Err(BadLen(|body|)) else Ok(Find(body[..20], body[20] != 0));
      case 5 =>
        r := DecodeFound(cs, body);
      case _ =>
        return Err(BadType(data[4]));
    }
  }

  lemma ReadsOn(body: Bytes, n: nat)
    requires 2 + 26 * (n + 1) <= |body|
    ensures var o := 2 + 26 * n;
            ReadContacts(body[2..o + 26], n + 1)
            == ReadContacts(body[2..o], n)
               + [Contact(body[o..o + 20], body[o + 20..o + 24], Get16([body[o + 24], body[o + 25]]))]
  {
    var o := 2 + 26 * n;
    var b := body[2..o + 26];
    assert b[..26 * n] == body[2..o] && b[26 * n..] == body[o..o + 26];
    Slice(body, o, 26, 0, 20);
    Slice(body, o, 26, 20, 24);
    Slice(body, o, 26, 24, 26);
    assert body[o + 24..o + 26] == [body[o + 24], body[o + 25]];
  }

  method DecodeFound(cs: Suite, body: Bytes) returns (r: Result<RpcMsg, DhtError>)
    ensures r == DecodedFound(cs, body)
  {
    hide Parsed, ReadContacts;
    if |body| < 3 {
      return Err(BadLen(|body|));
    }
    var n := Get16(body[..2]);
    var o := 2;
    var contacts: seq<Contact> := [];
    assert ReadContacts(body[2..2], 0) == [];
    for i := 0 to n
      invariant o == 2 + 26 * i <= |body| && contacts == ReadContacts(body[2..o], i)
    {
      if |body| < o + 26 {
        return Err(BadLen(|body|));
      }
      ReadsOn(body, i);
      contacts := contacts + [Contact(body[o..o + 20], body[o + 20..o + 24], Get16([body[o + 24], body[o + 25]]))];
      o := o + 26;
    }
    if o >= |body| {
      return Err(BadLen(|body|));
    }
    ghost var rest := body[o..];
    var hasValue := body[o] != 0;
    o := o + 1;
    if !hasValue {
      return Ok(Found(contacts, None));
    }
    if |body| < o + DESC_LEN {
      return Err(BadLen(|body|));
    }
    assert rest[1..1 + DESC_LEN] == body[o..o + DESC_LEN];
    var d := FromSignedBytes(cs, body[o..o + DESC_LEN]);
    return if d.Err? then Err(BadDesc(d.error)) else Ok(Found(contacts, Some(d.value)));
  }

  // ---- inverses ----

  lemma ContactExactly(b: Bytes, c: Contact)
    requires |b| == 26
    ensures ReadContact(b) == c <==> b == ContactBytes(c)
  {
    if b == ContactBytes(c) {
      assert b[24..26] == Le16(c.dhtPort);
      assert Le16(Get16(b[24..26])) == Le16(c.dhtPort);
    }
    if ReadContact(b) == c {
      assert b == b[..20] + b[20..24] + b[24..26];
    }
  }

  lemma SplitEqually<T>(a: seq<T>, b: seq<T>, c: seq<T>, d: seq<T>)
    requires |a| == |c|
    ensures a + b == c + d <==> a == c && b == d
  {
    if a + b == c + d {
      assert a == (a + b)[..|a|] && c == (c + d)[..|c|];
      assert b == (a + b)[|a|..] && d == (c + d)[|c|..];
    }
  }

  lemma {:induction false} ContactsExactly(b: Bytes, contacts: seq<Contact>)
    requires |b| == 26 * |contacts|
    ensures ReadContacts(b, |contacts|) == contacts <==> b == ContactsBytes(contacts)
  {
    if contacts != [] {
      hide ReadContact, ContactBytes;
      var n := |contacts| - 1;
      var m := 26 * n;
      ContactsExactly(b[..m], contacts[..n]);
      ContactExactly(b[m..], contacts[n]);
      assert b == b[..m] + b[m..] && contacts == contacts[..n] + [contacts[n]];
      SplitEqually(b[..m], b[m..], ContactsBytes(contacts[..n]), ContactBytes(contacts[n]));
      SplitEqually(ReadContacts(b[..m], n), [ReadContact(b[m..])], contacts[..n], [contacts[n]]);
    }
  }

  /** Messages the wire can carry: at most 65535 contacts, and descriptors that verify. */
  predicate WireOk(cs: Suite, m: RpcMsg): (ok: bool)
    ensures ok ==> Encodable(m)
  {
    match m
    case Store(d) => Authentic(cs, d)
    case Found(contacts, value) => |contacts| < 0x1_0000 && (value.Some? ==> Authentic(cs, value.value))
    case _ => true
  }

  /** The bytes that stand for a message: any nonzero flag means true, and FIND and FOUND may be padded. */
  predicate Spells(b: Bytes, m: RpcMsg)
    requires Encodable(m)
  {
    var e := Encoded(m);
    match m
    case Find(_, wantValue) => |b| >= 26 && b[..25] == e[..25] && (b[25] != 0 <==> wantValue)
    case Found(contacts, value) =>
      var f := 7 + 26 * |contacts|;
      && |b| >= |e| && b[..f] == e[..f] && (b[f] != 0 <==> value.Some?)
      && b[f + 1..|e|] == e[f + 1..]
    case _ => b == e
  }

  lemma ValueExactly(cs: Suite, all: nat, b: Bytes, v: Option<Descriptor>)
    ensures DecodedValue(cs, all, b) == Ok(v) <==>
            && (v.Some? ==> Authentic(cs, v.value))
            && |b| >= |ValueBytes(v)| && (b[0] != 0 <==> v.Some?) && b[1..|ValueBytes(v)|] == ValueBytes(v)[1..]
  {
    hide Parsed, ToBytes;
    if v.Some? && |b| >= 1 + DESC_LEN {
      ParsedExactly(cs, b[1..1 + DESC_LEN], v.value);
      if v.value.cellAddr.V4? {
        assert ValueBytes(v)[1..] == ToBytes(v.value);
      }
    }
    if v.None? {
      assert ValueBytes(v)[1..] == [];
    }
  }

  lemma FoundExactly(cs: Suite, body: Bytes, contacts: seq<Contact>, value: Option<Descriptor>)
    ensures DecodedFound(cs, body) == Ok(Found(contacts, value)) <==>
            && |contacts| < 0x1_0000 && (value.Some? ==> Authentic(cs, value.value))
            && var o := 2 + 26 * |contacts|;
               var len := o + |ValueBytes(value)|;
               && |body| >= len
               && body[..o] == Le16(|contacts|) + ContactsBytes(contacts)
               && (body[o] != 0 <==> value.Some?)
               && body[o + 1..len] == ValueBytes(value)[1..]
  {
    hide ReadContacts, ContactsBytes, ValueBytes, DecodedValue, DecodedFound, SigningBytes;
    var o := 2 + 26 * |contacts|;
    FoundIsLonger(cs, body, contacts, value);
    if |contacts| < 0x1_0000 && |body| > o {
      ContactsExactly(body[2..o], contacts);
      HeadExactly(body, contacts);
      ValueAtEnd(cs, body, o, value);
      if Get16(body[..2]) == |contacts| {
        FoundReads(cs, body, contacts, value);
      }
    }
  }

  lemma FoundReads(cs: Suite, body: Bytes, contacts: seq<Contact>, value: Option<Descriptor>)
    requires |body| > 2 + 26 * |contacts| && Get16(body[..2]) == |contacts|
    ensures DecodedFound(cs, body) == Ok(Found(contacts, value)) <==>
            && DecodedValue(cs, |body|, body[2 + 26 * |contacts|..]) == Ok(value)
            && ReadContacts(body[2..2 + 26 * |contacts|], |contacts|) == contacts
  {
    hide ReadContacts, DecodedValue;
  }

  lemma FoundIsLonger(cs: Suite, body: Bytes, contacts: seq<Contact>, value: Option<Descriptor>)
    ensures DecodedFound(cs, body) == Ok(Found(contacts, value)) ==>
              |contacts| == Get16(body[..2]) && |body| > 2 + 26 * |contacts|
  {
    hide ReadContacts, Parsed;
  }

  lemma ValueAtEnd(cs: Suite, body: Bytes, o: nat, value: Option<Descriptor>)
    requires o < |body|
    ensures DecodedValue(cs, |body|, body[o..]) == Ok(value) <==>
            && (value.Some? ==> Authentic(cs, value.value))
            && var len := o + |ValueBytes(value)|;
               |body| >= len && (body[o] != 0 <==> value.Some?) && body[o + 1..len] == ValueBytes(value)[1..]
  {
    hide DecodedValue, ValueBytes, SigningBytes;
    ValueExactly(cs, |body|, body[o..], value);
    if (value.Some? ==> Authentic(cs, value.value)) && |body| >= o + |ValueBytes(value)| {
      SliceTail(body, o, 1, |ValueBytes(value)|);
    }
  }

  lemma HeadExactly(body: Bytes, contacts: seq<Contact>)
    requires |contacts| < 0x1_0000 && |body| >= 2 + 26 * |contacts|
    ensures var o := 2 + 26 * |contacts|;
            body[..o] == Le16(|contacts|) + ContactsBytes(contacts) <==>
            Get16(body[..2]) == |contacts| && body[2..o] == ContactsBytes(contacts)
  {
    hide ContactsBytes;
    var o := 2 + 26 * |contacts|;
    assert body[..o] == body[..2] + body[2..o];
    var e := Le16(|contacts|) + ContactsBytes(contacts);
    assert e[..2] == Le16(|contacts|) && e[2..] == ContactsBytes(contacts);
    assert body[..o][..2] == body[..2] && body[..o][2..] == body[2..o];
    assert Le16(Get16(body[..2])) == body[..2];
  }

  lemma EnvelopeParts(b: Bytes, m: RpcMsg)
    requires Encodable(m) && |b| >= 5
    ensures var e := Encoded(m);
            && e[..4] == MAGIC && e[4] == TypeByte(m) && e[5..] == Body(m)
            && (b == e <==> b[..4] == MAGIC && b[4] == TypeByte(m) && b[5..] == Body(m))
  {
    hide Body;
    assert b == b[..4] + [b[4]] + b[5..];
  }

  lemma NonceExactly(body: Bytes, nonce: u64)
    ensures |body| == 8 && Get64(body) == nonce <==> body == Le64(nonce)
  {
    if body == Le64(nonce) {
      assert Le64(Get64(body)) == Le64(nonce);
    }
  }

  lemma FindSpelled(cs: Suite, b: Bytes, key: NodeId, wantValue: bool)
    ensures Decoded(cs, b) == Ok(Find(key, wantValue)) <==> Spells(b, Find(key, wantValue))
  {
    hide Parsed, DecodedFound;
    var m := Find(key, wantValue);
    if |b| >= 26 {
      EnvelopeParts(b, m);
      var e := Encoded(m);
      assert e[..25] == MAGIC + [TypeByte(m)] + key;
      Prefix(b, MAGIC, TypeByte(m), key);
      assert b[25] == b[5..][20];
    }
  }

  lemma FoundLayout(b: Bytes, contacts: seq<Contact>, value: Option<Descriptor>)
    requires |b| >= 5 && |contacts| < 0x1_0000 && Encodable(Found(contacts, value))
    ensures var body, o := b[5..], 2 + 26 * |contacts|;
            var len := o + |ValueBytes(value)|;
            Spells(b, Found(contacts, value)) <==>
            && b[..4] == MAGIC && b[4] == 5
            && |body| >= len
            && body[..o] == Le16(|contacts|) + ContactsBytes(contacts)
            && (body[o] != 0 <==> value.Some?)
            && body[o + 1..len] == ValueBytes(value)[1..]
  {
    hide ContactsBytes, ValueBytes, Encoded;
    EncodedFound(contacts, value);
    if |b| >= 7 + 26 * |contacts| + |ValueBytes(value)| {
      var o := 2 + 26 * |contacts|;
      Prefix(b, MAGIC, 5, Le16(|contacts|) + ContactsBytes(contacts));
      assert b[5 + o] == b[5..][o];
      SliceTail(b, 5, o + 1, o + |ValueBytes(value)|);
    }
  }

  /** The parts of an encoded FOUND: envelope, count and contacts, then the value. */
  lemma EncodedFound(contacts: seq<Contact>, value: Option<Descriptor>)
    requires |contacts| < 0x1_0000 && Encodable(Found(contacts, value))
    ensures var e, v, f := Encoded(Found(contacts, value)), ValueBytes(value), 7 + 26 * |contacts|;
            && |e| == f + |v|
            && e[..f] == MAGIC + [5] + (Le16(|contacts|) + ContactsBytes(contacts))
            && e[f] == v[0] && e[f + 1..] == v[1..]
  {
    hide ContactsBytes, ValueBytes;
    var e := Encoded(Found(contacts, value));
    var head, v, f := Le16(|contacts|) + ContactsBytes(contacts), ValueBytes(value), 7 + 26 * |contacts|;
    CountKept(|contacts|);
    assert e == MAGIC + [5] + FoundBody(contacts, value);
    Regroup(MAGIC + [5], head, v);
    Halves(MAGIC + [5] + head, v);
  }

  lemma Halves(a: Bytes, b: Bytes)
    requires b != []
    ensures (a + b)[..|a|] == a && (a + b)[|a|] == b[0] && (a + b)[|a| + 1..] == b[1..]
  {
  }

  lemma CountKept(n: nat)
    requires n < 0x1_0000
    ensures n % 0x1_0000 == n
  {
  }

  lemma Prefix(b: Bytes, magic: Bytes4, t: byte, head: Bytes)
    requires |b| >= 5 + |head|
    ensures b[..5 + |head|] == magic + [t] + head <==> b[..4] == magic && b[4] == t && b[5..][..|head|] == head
  {
    var p := b[..5 + |head|];
    assert p[..4] == b[..4] && p[4] == b[4] && p[5..] == b[5..][..|head|];
    assert p == p[..4] + [p[4]] + p[5..];
  }

  lemma ShortIsNothing(b: Bytes, m: RpcMsg)
    requires Encodable(m) && |b| < 5
    ensures !Spells(b, m)
  {
    hide ContactsBytes, ValueBytes, ToBytes;
  }

  lemma FoundSpelled(cs: Suite, b: Bytes, contacts: seq<Contact>, value: Option<Descriptor>)
    ensures Decoded(cs, b) == Ok(Found(contacts, value)) <==>
            WireOk(cs, Found(contacts, value)) && Spells(b, Found(contacts, value))
  {
    hide Parsed, DecodedFound, ContactsBytes, ValueBytes, SigningBytes, Spells;
    var m := Found(contacts, value);
    if |b| >= 5 {
      FoundExactly(cs, b[5..], contacts, value);
      if WireOk(cs, m) {
        FoundLayout(b, contacts, value);
      }
    } else if WireOk(cs, m) {
      ShortIsNothing(b, m);
    }
  }

  /**
   The decoder accepts exactly the spellings of the messages the wire can carry, and gives
   each its message: it is total, invents nothing and loses nothing.
   */
  lemma DecodedExactly(cs: Suite, b: Bytes, m: RpcMsg)
    ensures Decoded(cs, b) == Ok(m) <==> WireOk(cs, m) && Spells(b, m)
  {
    hide DecodedFound, SigningBytes, Spells;
    match m {
      case Find(key, wantValue) =>
        FindSpelled(cs, b, key, wantValue);
      case Found(contacts, value) =>
        FoundSpelled(cs, b, contacts, value);
      case _ =>
        FixedSpelled(cs, b, m);
    }
  }

  lemma FixedSpelled(cs: Suite, b: Bytes, m: RpcMsg)
    requires m.Ping? || m.Pong? || m.Store?
    ensures Decoded(cs, b) == Ok(m) <==> WireOk(cs, m) && Spells(b, m)
  {
    hide DecodedFound, SigningBytes, Parsed, ToBytes;
    if |b| >= 5 {
      if m.Store? {
        ParsedExactly(cs, b[5..], m.desc);
      } else {
        NonceExactly(b[5..], m.nonce);
      }
      if Encodable(m) {
        EnvelopeParts(b, m);
      }
    }
  }

  /**
   Why a datagram is refused: it is shorter than its envelope; its magic or type is none of
   these; a record in it does not verify; or its body is too short or, for PING and PONG, not
   eight bytes long.
   */
  lemma RefusedExactly(cs: Suite, b: Bytes)
    ensures var r := Decoded(cs, b);
            if |b| < 5 then r == Err(BadLen(|b|))
            else
              && (r.Err? && r.error.BadType? <==> b[..4] != [78, 66, 70, 82] || b[4] !in {1, 2, 3, 4, 5})
              && (r.Err? && r.error.BadType? ==> r.error.v == b[4])
              && (r.Err? && r.error.BadLen? ==> r.error.len == |b| - 5)
              && (r.Err? && r.error.BadDesc? ==> b[4] == 3 || b[4] == 5)
              && (b[..4] == [78, 66, 70, 82] && b[4] == 3 ==>
                    (r.Err? <==> Parsed(cs, b[5..]).Err?) && (r.Err? ==> r.error == BadDesc(Parsed(cs, b[5..]).error)))
              && (b[..4] == [78, 66, 70, 82] && b[4] in {1, 2} ==> (r.Err? <==> |b| != 13))
              && (b[..4] == [78, 66, 70, 82] && b[4] == 4 ==> (r.Err? <==> |b| < 26))
  {
    hide Parsed, ReadContacts;
  }

  /** A contact is reached at its descriptor's IPv4 address, or else at the loopback address, and its DHT port. */
  lemma ContactIsReachedAt(d: Descriptor)
    ensures FromDesc(d).nodeId == d.nodeId
    ensures Addr(FromDesc(d)) == match d.cellAddr
                                 case V4(ip, _) => V4(ip, d.dhtPort)
                                 case V6(_, _) => V4([127, 0, 0, 1], d.dhtPort)
  {
  }

  /** A datagram comes back as sent if and only if it has at most 65535 contacts and its descriptor verifies. */
  lemma RoundTrip(cs: Suite, m: RpcMsg)
    requires Encodable(m)
    ensures Decoded(cs, Encoded(m)) == Ok(m) <==> WireOk(cs, m)
  {
    hide Decoded, SigningBytes;
    DecodedExactly(cs, Encoded(m), m);
    if WireOk(cs, m) {
      SpellsItself(m);
    }
  }

  lemma SpellsItself(m: RpcMsg)
    requires Encodable(m) && (m.Found? ==> |m.contacts| < 0x1_0000)
    ensures Spells(Encoded(m), m)
  {
    hide ToBytes, ContactsBytes, Encoded;
    if m.Found? {
      EncodedFound(m.contacts, m.value);
    } else if m.Find? {
      EncodedFind(m.key, m.wantValue);
    }
  }

  lemma EncodedFind(key: NodeId, wantValue: bool)
    ensures var e := Encoded(Find(key, wantValue));
            |e| == 26 && e[25] == if wantValue then 1 else 0
  {
  }
}
