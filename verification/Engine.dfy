/**
 One node as a state and the effect of every event on it: the handlers of node.rs and
 relay.rs and the origin-side operations of builder.rs, each one atomic step from a
 state to a state and a list of cells to send.
 */
module Engine {
  import opened Wrappers
  import opened Octets
  import opened Scalars
  import opened Crypto
  import opened Identity
  import opened Sphinx
  import opened SphinxMachine
  import opened Onion
  import opened Cells
  import opened Fragments

  datatype HopLink = HopLink(cid: u32, peer: SocketAddr)

  datatype CircuitEntry =
    | OriginEntry(fwd: seq<Bytes32>, bwd: seq<Bytes32>, tag: Bytes16, next: HopLink, streams: set<u16>)
    | RelayEntry(tag: Bytes16, kFwd: Bytes32, kBwd: Bytes32, prev: HopLink, next: HopLink, lastFwd: u32)
    | TerminalEntry(tag: Bytes16, kFwd: Bytes32, kBwd: Bytes32, prev: HopLink, lastFwd: u32)

  /** Data handed to a registered stream at the origin. */
  datatype Delivery = Delivery(cid: u32, stream: u16, data: Bytes)

  datatype Packet = Packet(dst: SocketAddr, cell: Cell)

  /**
   `pending` holds the circuits waiting for CREATED and `ready` those whose waiter has been
   woken; `inbox` is everything the registered streams have received, in order.
   */
  datatype NodeState = NodeState(
    identity: NodeIdentity,
    circuits: map<u32, CircuitEntry>,
    pending: set<u32>,
    ready: set<u32>,
    createFrags: map<u32, FragBuf>,
    nextCid: u32,
    seqOrigin: u32,
    inbox: seq<Delivery>)

  /** A spawned node: circuit ids start at 1, sequence numbers at 64. */
  function Spawned(identity: NodeIdentity): NodeState {
    NodeState(identity, map[], {}, {}, map[], 1, 64, [])
  }

  /** `fetch_add(1)` on an AtomicU32 wraps around. */
  function Incr(x: u32): u32 {
    (x + 1) % 0x1_0000_0000
  }

  // ---- RELAY payloads: [seq u32][rcmd u8][stream u16][onion] ----

  datatype RelayMsg = RelayMsg(seqNo: u32, rcmd: RCmd, stream: u16, onion: Bytes)

  function RelayBytes(m: RelayMsg): (b: Bytes)
    ensures |b| == 7 + |m.onion|
  {
    Le32(m.seqNo) + [RCmdByte(m.rcmd)] + Le16(m.stream) + m.onion
  }

  function ParseRelay(b: Bytes): Option<RelayMsg> {
    if |b| < 7 then None
    else
      var rcmd := RCmdFrom(b[4]);
      if rcmd.Err? then None
      else Some(RelayMsg(Get32(b[..4]), rcmd.value, Get16(b[5..7]), b[7..]))
  }

  lemma ParseRelayExactly(b: Bytes, m: RelayMsg)
    ensures ParseRelay(b) == Some(m) <==> b == RelayBytes(m)
  {
    if b == RelayBytes(m) {
      assert b[..4] == Le32(m.seqNo) && b[5..7] == Le16(m.stream) && b[7..] == m.onion;
      assert Le32(Get32(b[..4])) == Le32(m.seqNo) && Le16(Get16(b[5..7])) == Le16(m.stream);
    }
    if ParseRelay(b) == Some(m) {
      assert b == b[..4] + [b[4]] + b[5..7] + b[7..];
    }
  }

  function RelayCell(cid: u32, m: RelayMsg): Cell {
    Cell(cid, Cmd.Relay, 0, RelayBytes(m))
  }

  function Signal(cid: u32, cmd: Cmd): Cell {
    Cell(cid, cmd, 0, [])
  }

  // ---- handlers ----

  function HandleCell(cs: Suite, s: NodeState, src: SocketAddr, cell: Cell): (NodeState, seq<Packet>) {
    match cell.cmd
    case Create => HandleCreate(cs, s, src, cell)
    case Created => HandleCreated(s, cell)
    case Destroy => HandleDestroy(s, cell)
    case Relay => HandleRelay(cs, s, src, cell)
    case Padding => (s, [])
  }

  function HandleCreate(cs: Suite, s: NodeState, src: SocketAddr, cell: Cell): (NodeState, seq<Packet>) {
    var frag := ParseFrag(cell.payload);
    if frag.Err? then (s, [])
    else
      var r := Reassembled(s.createFrags, cell.cid, frag.value.1, frag.value.0, frag.value.2);
      var s1 := s.(createFrags := r.1);
      if r.0.None? then (s1, [])
      else
        var outcome := Process(cs, s.identity, r.0.value);
        if outcome.Err? then (s1, []) else Extend(s1, src, cell.cid, outcome.value)
  }

  function CreateCells(cid: u32, dst: SocketAddr, header: Bytes): (ps: seq<Packet>)
    ensures |ps| == Total(header)
    ensures forall i :: 0 <= i < |ps| ==> ps[i] == Packet(dst, Cell(cid, Create, 0, FragmentAt(header, i)))
  {
    seq(Total(header), i requires 0 <= i < 0x1_0000 => Packet(dst, Cell(cid, Create, 0, FragmentAt(header, i))))
  }

  /** A processed CREATE: become the terminal and answer, or become a relay and pass it on. */
  function Extend(s: NodeState, src: SocketAddr, cid: u32, o: Outcome): (NodeState, seq<Packet>) {
    var prev := HopLink(cid, src);
    match o
    case Terminal(tag, kFwd, kBwd) =>
      (s.(circuits := s.circuits[cid := TerminalEntry(tag, kFwd, kBwd, prev, 0)]), [Packet(src, Signal(cid, Created))])
    case Relay(tag, kFwd, kBwd, _, nextAddr, newHeader) =>
      var ncid := s.nextCid;
      (s.(nextCid := Incr(ncid),
          circuits := s.circuits[cid := RelayEntry(tag, kFwd, kBwd, prev, HopLink(ncid, nextAddr), 0)]),
       CreateCells(ncid, nextAddr, newHeader))
  }

  function HandleCreated(s: NodeState, cell: Cell): (NodeState, seq<Packet>) {
    if cell.cid in s.pending then
      (s.(pending := s.pending - {cell.cid}, ready := s.ready + {cell.cid}), [])
    else if cell.cid in s.circuits && s.circuits[cell.cid].RelayEntry? then
      var prev := s.circuits[cell.cid].prev;
      (s, [Packet(prev.peer, Signal(prev.cid, Created))])
    else (s, [])
  }

  function HandleDestroy(s: NodeState, cell: Cell): (NodeState, seq<Packet>) {
    if cell.cid !in s.circuits then (s, [])
    else
      var e := s.circuits[cell.cid];
      (s.(circuits := s.circuits - {cell.cid}),
       if e.OriginEntry? then [] else [Packet(e.prev.peer, Signal(e.prev.cid, Destroy))])
  }

  function HandleRelay(cs: Suite, s: NodeState, src: SocketAddr, cell: Cell): (NodeState, seq<Packet>) {
    var m := ParseRelay(cell.payload);
    if m.None? || cell.cid !in s.circuits then (s, [])
    else
      match s.circuits[cell.cid]
      case OriginEntry(_, _, _, _, _) => (AtOrigin(cs, s, cell.cid, m.value), [])
      case RelayEntry(_, _, _, _, _, _) => AtRelay(cs, s, src, cell.cid, m.value)
      case TerminalEntry(_, _, _, _, _) => AtTerminal(cs, s, src, cell.cid, m.value)
  }

  function AtOrigin(cs: Suite, s: NodeState, cid: u32, m: RelayMsg): NodeState
    requires cid in s.circuits && s.circuits[cid].OriginEntry?
  {
    var e := s.circuits[cid];
    var data := OpenedBwd(cs, e.bwd, e.tag, m.seqNo, m.onion);
    if data.Ok? && m.stream in e.streams then s.(inbox := s.inbox + [Delivery(cid, m.stream, data.value)]) else s
  }

  /** Does a forward cell pass the entry's sequence check and open under its key? */
  predicate Accepts(cs: Suite, e: CircuitEntry, src: SocketAddr, m: RelayMsg) {
    !e.OriginEntry? && src == e.prev.peer && m.seqNo > e.lastFwd && OpenFwd(cs, e.kFwd, e.tag, m.seqNo, m.onion).Ok?
  }

  /** `*last_fwd = seq`. */
  function Advance(e: CircuitEntry, seqNo: u32): CircuitEntry {
    match e
    case OriginEntry(_, _, _, _, _) => e
    case RelayEntry(tag, kFwd, kBwd, prev, next, _) => RelayEntry(tag, kFwd, kBwd, prev, next, seqNo)
    case TerminalEntry(tag, kFwd, kBwd, prev, _) => TerminalEntry(tag, kFwd, kBwd, prev, seqNo)
  }

  function AtRelay(cs: Suite, s: NodeState, src: SocketAddr, cid: u32, m: RelayMsg): (NodeState, seq<Packet>)
    requires cid in s.circuits && s.circuits[cid].RelayEntry?
  {
    var e := s.circuits[cid];
    if src == e.prev.peer then
      if Accepts(cs, e, src, m) then
        var inner := OpenFwd(cs, e.kFwd, e.tag, m.seqNo, m.onion).value;
        (s.(circuits := s.circuits[cid := Advance(e, m.seqNo)]),
         [Packet(e.next.peer, RelayCell(e.next.cid, m.(onion := inner)))])
      else (s, [])
    else if src == e.next.peer then
      (s, [Packet(e.prev.peer, RelayCell(e.prev.cid, m.(onion := SealBwd(cs, e.kBwd, e.tag, m.seqNo, m.onion))))])
    else (s, [])
  }

  function AtTerminal(cs: Suite, s: NodeState, src: SocketAddr, cid: u32, m: RelayMsg): (NodeState, seq<Packet>)
    requires cid in s.circuits && s.circuits[cid].TerminalEntry?
  {
    var e := s.circuits[cid];
    if Accepts(cs, e, src, m) then
      var inner := OpenFwd(cs, e.kFwd, e.tag, m.seqNo, m.onion).value;
      (s.(circuits := s.circuits[cid := Advance(e, m.seqNo)]),
       if m.rcmd.Echo?
       then [Packet(e.prev.peer, RelayCell(e.prev.cid, m.(onion := SealBwd(cs, e.kBwd, e.tag, m.seqNo, inner))))]
       else [])
    else (s, [])
  }

  /** A node finds circuits by the id in the cell alone: under an unknown id a backward cell goes nowhere. */
  lemma UnknownIdIsDropped(cs: Suite, s: NodeState, src: SocketAddr, cell: Cell)
    requires cell.cid !in s.circuits && cell.cid !in s.pending && !cell.cmd.Create?
    ensures HandleCell(cs, s, src, cell) == (s, [])
  {
  }

  // ---- the origin's operations ----

  /** A handle keeps its own copy of the keys. */
  datatype CircuitHandle = CircuitHandle(cid: u32, fwd: seq<Bytes32>, bwd: seq<Bytes32>, tag: Bytes16)

  /** `build_circuit` up to the wait: send the header and wait for CREATED. */
  function BuildStart(cs: Suite, s: NodeState, route: seq<Descriptor>, tag: Bytes16, xs: seq<Scalar>, coins: seq<Bytes>):
    (NodeState, Result<(u32, BuiltHeader), NetError>, seq<Packet>)
    requires |xs| == |coins| == |route|
  {
    if route == [] || |route| > MAX_HOPS then (s, Err(BadSize(|route|)), [])
    else
      var b := Built(cs, route, tag, xs, coins);
      if b.Err? then (s, Err(CryptoFailed(b.error)), [])
      else
        var cid := s.nextCid;
        (s.(nextCid := Incr(cid), pending := s.pending + {cid}),
         Ok((cid, b.value)),
         CreateCells(cid, b.value.firstAddr, b.value.header))
  }

  /** `build_circuit` after the wait: install the origin entry, or give up and forget the waiter. */
  function BuildFinish(s: NodeState, cid: u32, b: BuiltHeader): (NodeState, Result<CircuitHandle, NetError>) {
    if cid in s.ready then
      (s.(ready := s.ready - {cid},
          circuits := s.circuits[cid := OriginEntry(b.fwdKeys, b.bwdKeys, b.tag, HopLink(cid, b.firstAddr), {})]),
       Ok(CircuitHandle(cid, b.fwdKeys, b.bwdKeys, b.tag)))
    else (s.(pending := s.pending - {cid}), Err(Timeout))
  }

  function RegisterStream(s: NodeState, cid: u32, stream: u16): NodeState {
    if cid in s.circuits && s.circuits[cid].OriginEntry? then
      var e := s.circuits[cid];
      s.(circuits := s.circuits[cid := e.(streams := e.streams + {stream})])
    else s
  }

  /** `CircuitHandle::send`. */
  function Send(cs: Suite, s: NodeState, h: CircuitHandle, stream: u16, rcmd: RCmd, msg: Bytes):
    (NodeState, Result<(), NetError>, seq<Packet>)
  {
    var s1 := s.(seqOrigin := Incr(s.seqOrigin));
    if h.cid in s.circuits && s.circuits[h.cid].OriginEntry? then
      var m := RelayMsg(s.seqOrigin, rcmd, stream, SealedFwd(cs, h.fwd, h.tag, s.seqOrigin, msg));
      (s1, Ok(()), [Packet(s.circuits[h.cid].next.peer, RelayCell(h.cid, m))])
    else (s1, Err(NoSession), [])
  }

  /** `echo` and `send_data` refuse long messages before drawing a sequence number. */
  function SendChecked(cs: Suite, s: NodeState, h: CircuitHandle, stream: u16, rcmd: RCmd, msg: Bytes):
    (NodeState, Result<(), NetError>, seq<Packet>)
  {
    if |msg| > MSG_MAX then (s, Err(BadSize(|msg|)), []) else Send(cs, s, h, stream, rcmd, msg)
  }

  /** `CircuitHandle::close`. */
  function Close(s: NodeState, h: CircuitHandle): (NodeState, seq<Packet>) {
    if h.cid in s.circuits && s.circuits[h.cid].OriginEntry? then
      (s.(circuits := s.circuits - {h.cid}), [Packet(s.circuits[h.cid].next.peer, Signal(h.cid, Destroy))])
    else (s, [])
  }
}
