/**
 Exactly what one node does with any cell and any operation, honest or not, in terms of the
 bytes and the primitives: when it changes, what it sends, and above all when it does
 nothing. What runs of many nodes rely on is proved elsewhere; here are the branches that
 honest runs never take.
 */
module Handlers {
  import opened Wrappers
  import opened Octets
  import opened Scalars
  import opened Crypto
  import opened Identity
  import opened Sphinx
  import opened SphinxMachine
  import opened Onion
  import opened Cells
  import opened Fragments
  import opened Engine

  // ---- RELAY ----

  /** Cells that say nothing: padding, payloads too short, and RELAY commands that do not exist. */
  lemma JunkIsIgnored(cs: Suite, s: NodeState, src: SocketAddr, cell: Cell)
    requires || cell.cmd.Padding?
             || (cell.cmd.Create? && |cell.payload| < 4)
             || (cell.cmd.Relay? && forall m :: cell.payload != RelayBytes(m))
    ensures HandleCell(cs, s, src, cell) == (s, [])
  {
    hide RelayBytes;
    if cell.cmd.Relay? && ParseRelay(cell.payload).Some? {
      ParseRelayExactly(cell.payload, ParseRelay(cell.payload).value);
    }
  }

  lemma ParsesItself(m: RelayMsg)
    ensures ParseRelay(RelayBytes(m)) == Some(m)
  {
    hide ParseRelay, RelayBytes;
    ParseRelayExactly(RelayBytes(m), m);
  }

  /** The nonce of RELAY number q in a direction: the start of the hash of tag, direction and number. */
  function NonceFor(cs: Suite, tag: Bytes16, dir: byte, q: u32): Bytes12 {
    cs.sha256(tag + [dir] + Le32(q))[..12]
  }

  /** The payload opens layer by layer, under every backward key in turn, to `plain`. */
  ghost predicate OpensAtOrigin(cs: Suite, e: CircuitEntry, m: RelayMsg, plain: Bytes)
    requires e.OriginEntry?
  {
    Peels(cs, e.bwd, NonceFor(cs, e.tag, 1, m.seqNo), m.onion, plain)
  }

  /**
   A RELAY cell at the origin, whoever sent it: the inbox grows if and only if the cell's
   stream is registered and its payload opens under every backward key, and then by exactly
   the plaintext. Otherwise nothing changes, and nothing is sent either way.
   */
  lemma OriginExactly(cs: Suite, s: NodeState, src: SocketAddr, cell: Cell, m: RelayMsg)
    requires cell.cmd.Relay? && cell.payload == RelayBytes(m)
    requires cell.cid in s.circuits && s.circuits[cell.cid].OriginEntry?
    ensures var (s', ps) := HandleCell(cs, s, src, cell);
            var e := s.circuits[cell.cid];
            && ps == []
            && (s' != s <==> m.stream in e.streams && exists plain :: OpensAtOrigin(cs, e, m, plain))
            && (s' == s || exists plain :: OpensAtOrigin(cs, e, m, plain)
                                          && s' == s.(inbox := s.inbox + [Delivery(cell.cid, m.stream, plain)]))
  {
    hide RelayBytes, ParseRelay, OpenAll;
    ParsesItself(m);
    var e := s.circuits[cell.cid];
    var nonce := RelayNonce(cs, e.tag, DIR_BWD, m.seqNo);
    var clear := OpenAll(cs, e.bwd, nonce, m.onion);
    if clear.Ok? {
      OpenAllExactly(cs, e.bwd, nonce, m.onion, clear.value);
      assert OpensAtOrigin(cs, e, m, clear.value);
      assert |s.inbox + [Delivery(cell.cid, m.stream, clear.value)]| > |s.inbox|;
    } else {
      forall plain
        ensures !OpensAtOrigin(cs, e, m, plain)
      {
        OpenAllExactly(cs, e.bwd, nonce, m.onion, plain);
      }
    }
  }

  /** The payload is new to the hop and its layer opens, to `inner`. */
  predicate OpensAtHop(cs: Suite, e: CircuitEntry, src: SocketAddr, m: RelayMsg, inner: Bytes)
    requires !e.OriginEntry?
  {
    && src == e.prev.peer && m.seqNo > e.lastFwd
    && cs.open(e.kFwd, NonceFor(cs, e.tag, 0, m.seqNo), m.onion) == Some(inner)
  }

  /** Message m under one more backward layer, towards the previous hop. */
  function Wrapped(cs: Suite, e: CircuitEntry, m: RelayMsg, inner: Bytes): Packet
    requires !e.OriginEntry?
  {
    var sealed := cs.seal(e.kBwd, NonceFor(cs, e.tag, 1, m.seqNo), inner);
    Packet(e.prev.peer, Cell(e.prev.cid, Cmd.Relay, 0, RelayBytes(m.(onion := sealed))))
  }

  /**
   A RELAY cell at a relay. From the previous hop: sent on without its layer if it is new and
   the layer opens, and then the mark becomes its number. From the next hop: sent back under
   one more layer. In every other case, from neither neighbour in particular, nothing
   changes and nothing is sent.
   */
  lemma RelayExactly(cs: Suite, s: NodeState, src: SocketAddr, cell: Cell, m: RelayMsg)
    requires cell.cmd.Relay? && cell.payload == RelayBytes(m)
    requires cell.cid in s.circuits && s.circuits[cell.cid].RelayEntry?
    ensures var (s', ps) := HandleCell(cs, s, src, cell);
            var e := s.circuits[cell.cid];
            && (forall inner :: OpensAtHop(cs, e, src, m, inner) ==>
                  && s' == s.(circuits :=
                              s.circuits[cell.cid := RelayEntry(e.tag, e.kFwd, e.kBwd, e.prev, e.next, m.seqNo)])
                  && ps == [Packet(e.next.peer, Cell(e.next.cid, Cmd.Relay, 0, RelayBytes(m.(onion := inner))))])
            && (src == e.next.peer && src != e.prev.peer ==> s' == s && ps == [Wrapped(cs, e, m, m.onion)])
            && ((forall inner :: !OpensAtHop(cs, e, src, m, inner)) && (src != e.next.peer || src == e.prev.peer) ==>
                  s' == s && ps == [])
  {
    hide RelayBytes, ParseRelay;
    ParsesItself(m);
    var e := s.circuits[cell.cid];
    var clear := OpenFwd(cs, e.kFwd, e.tag, m.seqNo, m.onion);
    if src == e.prev.peer && m.seqNo > e.lastFwd && clear.Ok? {
      assert OpensAtHop(cs, e, src, m, clear.value);
    }
  }

  /**
   A RELAY cell at the terminal: if it comes from the previous hop, is new and its layer
   opens, the mark becomes its number, and an ECHO is answered with what was inside; DATA and
   DROP are not. In every other case nothing changes and nothing is sent.
   */
  lemma TerminalExactly(cs: Suite, s: NodeState, src: SocketAddr, cell: Cell, m: RelayMsg)
    requires cell.cmd.Relay? && cell.payload == RelayBytes(m)
    requires cell.cid in s.circuits && s.circuits[cell.cid].TerminalEntry?
    ensures var (s', ps) := HandleCell(cs, s, src, cell);
            var e := s.circuits[cell.cid];
            && (forall inner :: OpensAtHop(cs, e, src, m, inner) ==>
                  && s' == s.(circuits := s.circuits[cell.cid := TerminalEntry(e.tag, e.kFwd, e.kBwd, e.prev, m.seqNo)])
                  && ps == if m.rcmd.Echo? then [Wrapped(cs, e, m, inner)] else [])
            && ((forall inner :: !OpensAtHop(cs, e, src, m, inner)) ==> s' == s && ps == [])
  {
    hide RelayBytes, ParseRelay;
    ParsesItself(m);
    var e := s.circuits[cell.cid];
    var clear := OpenFwd(cs, e.kFwd, e.tag, m.seqNo, m.onion);
    if src == e.prev.peer && m.seqNo > e.lastFwd && clear.Ok? {
      assert OpensAtHop(cs, e, src, m, clear.value);
    }
  }

  // ---- CREATE, CREATED, DESTROY ----

  /** A CREATE whose header the node refuses leaves no circuit, draws no id and is not answered. */
  lemma RefusedCreate(cs: Suite, s: NodeState, src: SocketAddr, cell: Cell)
    requires cell.cmd.Create? && ParseFrag(cell.payload).Ok?
    ensures var (total, idx, chunk) := ParseFrag(cell.payload).value;
            var (full, frags) := Reassembled(s.createFrags, cell.cid, idx, total, chunk);
            full.None? || Process(cs, s.identity, full.value).Err? <==>
            HandleCell(cs, s, src, cell) == (s.(createFrags := frags), [])
  {
    hide Process, Reassembled, CreateCells, ParseFrag;
    var (total, idx, chunk) := ParseFrag(cell.payload).value;
    var (full, frags) := Reassembled(s.createFrags, cell.cid, idx, total, chunk);
    if full.Some? && Process(cs, s.identity, full.value).Ok? {
      ExtendActs(s.(createFrags := frags), src, cell.cid, Process(cs, s.identity, full.value).value);
    }
  }

  /** An accepted CREATE always does something: a terminal answers, a relay draws an id. */
  lemma ExtendActs(s: NodeState, src: SocketAddr, cid: u32, o: Outcome)
    ensures o.Terminal? ==> Extend(s, src, cid, o).1 == [Packet(src, Cell(cid, Created, 0, []))]
    ensures o.Relay? ==> Extend(s, src, cid, o).0.nextCid != s.nextCid
  {
  }

  /**
   CREATED, from anybody: it wakes the waiter under its id and goes no further; without a
   waiter it passes to the previous hop of a relay entry under its id; otherwise it does
   nothing, at an origin or terminal entry in particular.
   */
  lemma CreatedExactly(cs: Suite, s: NodeState, src: SocketAddr, cell: Cell)
    requires cell.cmd.Created?
    ensures var (s', ps) := HandleCell(cs, s, src, cell);
            var relay := cell.cid in s.circuits && s.circuits[cell.cid].RelayEntry?;
            && (s' != s <==> cell.cid in s.pending)
            && (s' == s || s' == s.(pending := s.pending - {cell.cid}, ready := s.ready + {cell.cid}))
            && (ps != [] <==> cell.cid !in s.pending && relay)
            && (ps == [] || ps == [Packet(s.circuits[cell.cid].prev.peer,
                                          Cell(s.circuits[cell.cid].prev.cid, Created, 0, []))])
  {
  }

  /** DESTROY, from anybody: the entry under its id goes, and a hop's previous neighbour is told under its own id. */
  lemma DestroyExactly(cs: Suite, s: NodeState, src: SocketAddr, cell: Cell)
    requires cell.cmd.Destroy?
    ensures var (s', ps) := HandleCell(cs, s, src, cell);
            && s' == s.(circuits := s.circuits - {cell.cid})
            && (ps != [] <==> cell.cid in s.circuits && !s.circuits[cell.cid].OriginEntry?)
            && (ps == [] || ps == [Packet(s.circuits[cell.cid].prev.peer,
                                          Cell(s.circuits[cell.cid].prev.cid, Destroy, 0, []))])
  {
    assert cell.cid !in s.circuits ==> s.circuits - {cell.cid} == s.circuits;
  }

  // ---- the origin's operations ----

  predicate CanEncap(cs: Suite, route: seq<Descriptor>, coins: seq<Bytes>)
    requires |coins| == |route|
  {
    forall i :: 0 <= i < |route| ==> cs.encap(route[i].kemPk, coins[i]).Some?
  }

  lemma {:induction false} EncapAllExactly(cs: Suite, route: seq<Descriptor>, coins: seq<Bytes>)
    requires |coins| == |route|
    ensures EncapAll(cs, route, coins).Ok? <==> CanEncap(cs, route, coins)
    ensures EncapAll(cs, route, coins).Err? ==> EncapAll(cs, route, coins).error == Kem
  {
    if route != [] {
      var n := |route| - 1;
      EncapAllExactly(cs, route[..n], coins[..n]);
      if CanEncap(cs, route[..n], coins[..n]) && cs.encap(route[n].kemPk, coins[n]).Some? {
        forall i | 0 <= i < |route|
          ensures cs.encap(route[i].kemPk, coins[i]).Some?
        {
          assert i < n ==> cs.encap(route[..n][i].kemPk, coins[..n][i]).Some?;
        }
      }
      if CanEncap(cs, route, coins) {
        assert CanEncap(cs, route[..n], coins[..n]);
      }
    }
  }

  /** A header is built if and only if the route has one to five hops and every encapsulation succeeds. */
  lemma BuiltExactly(cs: Suite, route: seq<Descriptor>, tag: Bytes16, xs: seq<Scalar>, coins: seq<Bytes>)
    requires |xs| == |coins| == |route|
    ensures var b := Built(cs, route, tag, xs, coins);
            && (b.Ok? <==> 1 <= |route| <= 5 && CanEncap(cs, route, coins))
            && (b.Err? ==> b.error == if 1 <= |route| <= 5 then Kem else BadLength(|route|))
            && (b.Ok? ==> b.value.tag == tag && b.value.firstAddr == route[0].cellAddr
                          && |b.value.fwdKeys| == |b.value.bwdKeys| == |route|)
  {
    hide HeaderAt;
    EncapAllExactly(cs, route, coins);
  }

  /**
   A build starts if and only if the route has one to five hops and every encapsulation
   succeeds. It then draws one id, which its caller gets and waits under. Otherwise nothing
   changes, nothing is sent and the error says which it was.
   */
  lemma BuildStartExactly(cs: Suite, s: NodeState, route: seq<Descriptor>, tag: Bytes16, xs: seq<Scalar>, coins: seq<Bytes>)
    requires |xs| == |coins| == |route|
    ensures var (s', r, ps) := BuildStart(cs, s, route, tag, xs, coins);
            && (r.Ok? <==> 1 <= |route| <= 5 && CanEncap(cs, route, coins))
            && (r.Ok? ==> r.value.0 == s.nextCid
                          && s' == s.(nextCid := (s.nextCid + 1) % 0x1_0000_0000, pending := s.pending + {s.nextCid}))
            && (r.Err? ==> s' == s && ps == []
                           && r.error == if 1 <= |route| <= 5 then CryptoFailed(Kem) else BadSize(|route|))
  {
    hide Built, CreateCells;
    BuiltExactly(cs, route, tag, xs, coins);
  }

  /**
   The build gives a circuit if and only if CREATED has come by the time it resumes. A build
   that has given up leaves no waiter behind, so that a CREATED that comes later wakes
   nobody: the node does with it what it would do with anybody else's.
   */
  lemma LateCreatedWakesNobody(cs: Suite, s: NodeState, cid: u32, b: BuiltHeader, src: SocketAddr)
    ensures var (s', r) := BuildFinish(s, cid, b);
            && (r.Ok? <==> cid in s.ready)
            && (r.Ok? ==> r.value == CircuitHandle(cid, b.fwdKeys, b.bwdKeys, b.tag) && cid !in s'.ready)
            && (r.Err? ==>
                  && r.error == Timeout && s' == s.(pending := s.pending - {cid})
                  && HandleCell(cs, s', src, Cell(cid, Created, 0, [])).0 == s'
                  && BuildFinish(HandleCell(cs, s', src, Cell(cid, Created, 0, [])).0, cid, b) == (s', Err(Timeout)))
  {
    assert (s.pending - {cid}) - {cid} == s.pending - {cid};
  }

  /** And CREATED in time lets it through. */
  lemma CreatedInTime(cs: Suite, s: NodeState, cid: u32, b: BuiltHeader, src: SocketAddr)
    requires cid in s.pending
    ensures var woken := HandleCell(cs, s, src, Cell(cid, Created, 0, [])).0;
            var (s', r) := BuildFinish(woken, cid, b);
            && r == Ok(CircuitHandle(cid, b.fwdKeys, b.bwdKeys, b.tag))
            && cid !in s'.pending && cid !in s'.ready && cid in s'.circuits
            && s'.circuits[cid] == OriginEntry(b.fwdKeys, b.bwdKeys, b.tag, HopLink(cid, b.firstAddr), {})
  {
  }

  /**
   Sending: a message of more than 1024 bytes is refused before a number is drawn. Any other
   draws the node's next number, and is sent, and reported sent, if and only if the node
   still holds the origin entry; without one the caller is told that there is no session.
   */
  lemma SendExactly(cs: Suite, s: NodeState, h: CircuitHandle, stream: u16, rcmd: RCmd, msg: Bytes)
    ensures var (s', r, ps) := SendChecked(cs, s, h, stream, rcmd, msg);
            var held := h.cid in s.circuits && s.circuits[h.cid].OriginEntry?;
            if |msg| > 1024 then s' == s && r == Err(BadSize(|msg|)) && ps == []
            else
              && s' == s.(seqOrigin := (s.seqOrigin + 1) % 0x1_0000_0000)
              && (r == Ok(()) <==> held) && (r.Err? ==> r.error == NoSession)
              && (ps != [] <==> held)
              && (held ==> ps == [Packet(s.circuits[h.cid].next.peer,
                                         Cell(h.cid, Cmd.Relay, 0,
                                              RelayBytes(RelayMsg(s.seqOrigin, rcmd, stream,
                                                                  SealAll(cs, h.fwd, NonceFor(cs, h.tag, 0, s.seqOrigin), msg)))))])
  {
    hide SealAll, RelayBytes;
  }

  /** Closing: the origin entry goes and its first hop is told; any other entry under the id stays, and nothing is sent. */
  lemma CloseExactly(s: NodeState, h: CircuitHandle)
    ensures var (s', ps) := Close(s, h);
            if h.cid in s.circuits && s.circuits[h.cid].OriginEntry?
            then s' == s.(circuits := s.circuits - {h.cid})
                 && ps == [Packet(s.circuits[h.cid].next.peer, Cell(h.cid, Destroy, 0, []))]
            else s' == s && ps == []
  {
  }

  /** After a close the handle is of no use: nothing more is sent through it, and a second close does nothing. */
  lemma ClosedForGood(cs: Suite, s: NodeState, h: CircuitHandle, stream: u16, rcmd: RCmd, msg: Bytes)
    ensures var closed := Close(s, h).0;
            && (|msg| <= 1024 ==> SendChecked(cs, closed, h, stream, rcmd, msg).1 == Err(NoSession))
            && SendChecked(cs, closed, h, stream, rcmd, msg).2 == []
            && Close(closed, h) == (closed, [])
  {
    hide SealAll, RelayBytes;
  }

  /** A registered stream is one more stream of an origin entry; without such an entry nothing is registered. */
  lemma RegisterExactly(s: NodeState, cid: u32, stream: u16)
    ensures var s' := RegisterStream(s, cid, stream);
            && (cid in s.circuits && s.circuits[cid].OriginEntry? ==>
                  && s' == s.(circuits := s'.circuits) && s'.circuits.Keys == s.circuits.Keys
                  && s'.circuits[cid] == s.circuits[cid].(streams := s.circuits[cid].streams + {stream})
                  && forall c :: c in s.circuits && c != cid ==> s'.circuits[c] == s.circuits[c])
            && (!(cid in s.circuits && s.circuits[cid].OriginEntry?) ==> s' == s)
  {
  }
}
