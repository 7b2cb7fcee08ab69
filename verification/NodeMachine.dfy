/**
 The node as it runs: an object whose handlers update the circuit table, the reassembly
 table and the counters in place. Each handler is proved to have exactly the effect, and
 to send exactly the cells, that its function in Engine says.
 */
module NodeMachine {
  import opened Wrappers
  import opened Octets
  import opened Scalars
  import opened Crypto
  import opened Identity
  import opened Sphinx
  import opened SphinxMachine
  import opened Onion
  import opened Cells
  import opened Fragments
  import opened Engine

  class Node {
    const cs: Suite
    const identity: NodeIdentity
    const createFrags: FragTable
    var circuits: map<u32, CircuitEntry>
    var pending: set<u32>
    var ready: set<u32>
    var nextCid: u32
    var seqOrigin: u32
    var inbox: seq<Delivery>

    ghost function View(): NodeState
      reads this, createFrags
    {
      NodeState(identity, circuits, pending, ready, createFrags.bufs, nextCid, seqOrigin, inbox)
    }

    constructor (cs: Suite, identity: NodeIdentity)
      ensures fresh(createFrags) && nextCid == 1 && seqOrigin == 64
      ensures this.cs == cs && View() == Spawned(identity)
    {
      this.cs, this.identity := cs, identity;
      circuits, pending, ready, inbox := map[], {}, {}, [];
      nextCid, seqOrigin := 1, 64;
      createFrags := new FragTable();
    }

    method NewCid() returns (cid: u32)
      modifies this
      ensures cid == old(nextCid) && View() == old(View()).(nextCid := Incr(cid))
    {
      cid := nextCid;
      nextCid := Incr(cid);
    }

    method HandleCell(src: SocketAddr, cell: Cell) returns (out: seq<Packet>)
      modifies this, createFrags
      ensures (View(), out) == Engine.HandleCell(cs, old(View()), src, cell)
    {
      out := [];
      match cell.cmd {
        case Create =>
          out := HandleCreate(src, cell);
        case Created =>
          out := HandleCreated(cell);
        case Destroy =>
          out := HandleDestroy(cell);
        case Relay =>
          out := HandleRelay(src, cell);
        case Padding =>
      }
    }

    method HandleCreate(src: SocketAddr, cell: Cell) returns (out: seq<Packet>)
      modifies this, createFrags
      ensures (View(), out) == Engine.HandleCreate(cs, old(View()), src, cell)
    {
      hide Process, Reassembled, CreateCells, FragmentAt;
      var frag := ParseFrag(cell.payload);
      if frag.Err? {
        return [];
      }
      var full := createFrags.Reassemble(cell.cid, frag.value.1, frag.value.0, frag.value.2);
      if full.None? {
        return [];
      }
      var outcome := ProcessHeader(cs, identity, full.value);
      if outcome.Err? {
        return [];
      }
      out := Extend(src, cell.cid, outcome.value);
    }

    method Extend(src: SocketAddr, cid: u32, o: Outcome) returns (out: seq<Packet>)
      modifies this
      ensures (View(), out) == Engine.Extend(old(View()), src, cid, o)
    {
      hide CreateCells;
      match o {
        case Terminal(tag, kFwd, kBwd) =>
          circuits := circuits[cid := TerminalEntry(tag, kFwd, kBwd, HopLink(cid, src), 0)];
          out := [Packet(src, Signal(cid, Created))];
        case Relay(tag, kFwd, kBwd, _, nextAddr, newHeader) =>
          var ncid := NewCid();
          circuits := circuits[cid := RelayEntry(tag, kFwd, kBwd, HopLink(cid, src), HopLink(ncid, nextAddr), 0)];
          out := SendCreate(ncid, nextAddr, newHeader);
      }
    }

    method HandleCreated(cell: Cell) returns (out: seq<Packet>)
      modifies this
      ensures (View(), out) == Engine.HandleCreated(old(View()), cell)
    {
      if cell.cid in pending {
        pending, ready := pending - {cell.cid}, ready + {cell.cid};
        return [];
      }
      if cell.cid in circuits && circuits[cell.cid].RelayEntry? {
        var prev := circuits[cell.cid].prev;
        return [Packet(prev.peer, Signal(prev.cid, Created))];
      }
      return [];
    }

    method HandleDestroy(cell: Cell) returns (out: seq<Packet>)
      modifies this
      ensures (View(), out) == Engine.HandleDestroy(old(View()), cell)
    {
      if cell.cid !in circuits {
        return [];
      }
      var e := circuits[cell.cid];
      circuits := circuits - {cell.cid};
      match e {
        case OriginEntry(_, _, _, _, _) =>
          return [];
        case RelayEntry(_, _, _, prev, _, _) =>
          return [Packet(prev.peer, Signal(prev.cid, Destroy))];
        case TerminalEntry(_, _, _, prev, _) =>
          return [Packet(prev.peer, Signal(prev.cid, Destroy))];
      }
    }

    method HandleRelay(src: SocketAddr, cell: Cell) returns (out: seq<Packet>)
      modifies this
      ensures (View(), out) == Engine.HandleRelay(cs, old(View()), src, cell)
    {
      hide Engine.AtOrigin, Engine.AtRelay, Engine.AtTerminal;
      var m := ParseRelay(cell.payload);
      if m.None? || cell.cid !in circuits {
        return [];
      }
      match circuits[cell.cid] {
        case OriginEntry(_, _, _, _, _) =>
          AtOrigin(cell.cid, m.value);
          return [];
        case RelayEntry(_, _, _, _, _, _) =>
          out := AtRelay(src, cell.cid, m.value);
        case TerminalEntry(_, _, _, _, _) =>
          out := AtTerminal(src, cell.cid, m.value);
      }
    }

    /** A reply at the origin: open every backward layer in turn, then hand it to its stream. */
    method AtOrigin(cid: u32, m: RelayMsg)
      requires cid in circuits && circuits[cid].OriginEntry?
      modifies this
      ensures View() == Engine.AtOrigin(cs, old(View()), cid, m)
    {
      var e := circuits[cid];
      var data := OpenOnionBwd(cs, e.bwd, e.tag, m.seqNo, m.onion);
      if data.Ok? && m.stream in e.streams {
        inbox := inbox + [Delivery(cid, m.stream, data.value)];
      }
    }

    method AtRelay(src: SocketAddr, cid: u32, m: RelayMsg) returns (out: seq<Packet>)
      requires cid in circuits && circuits[cid].RelayEntry?
      modifies this
      ensures (View(), out) == Engine.AtRelay(cs, old(View()), src, cid, m)
    {
      hide OpenFwd, SealBwd, RelayBytes;
      var e := circuits[cid];
      if src == e.prev.peer {
        if m.seqNo <= e.lastFwd {
          return [];
        }
        var inner := OpenFwd(cs, e.kFwd, e.tag, m.seqNo, m.onion);
        if inner.Err? {
          return [];
        }
        circuits := circuits[cid := Advance(e, m.seqNo)];
        out := [Packet(e.next.peer, RelayCell(e.next.cid, m.(onion := inner.value)))];
      } else if src == e.next.peer {
        var payload := SealBwd(cs, e.kBwd, e.tag, m.seqNo, m.onion);
        out := [Packet(e.prev.peer, RelayCell(e.prev.cid, m.(onion := payload)))];
      } else {
        out := [];
      }
    }

    method AtTerminal(src: SocketAddr, cid: u32, m: RelayMsg) returns (out: seq<Packet>)
      requires cid in circuits && circuits[cid].TerminalEntry?
      modifies this
      ensures (View(), out) == Engine.AtTerminal(cs, old(View()), src, cid, m)
    {
      hide OpenFwd, SealBwd, RelayBytes;
      var e := circuits[cid];
      if src != e.prev.peer || m.seqNo <= e.lastFwd {
        return [];
      }
      var inner := OpenFwd(cs, e.kFwd, e.tag, m.seqNo, m.onion);
      if inner.Err? {
        return [];
      }
      circuits := circuits[cid := Advance(e, m.seqNo)];
      match m.rcmd {
        case Echo =>
          var payload := SealBwd(cs, e.kBwd, e.tag, m.seqNo, inner.value);
          return [Packet(e.prev.peer, RelayCell(e.prev.cid, m.(onion := payload)))];
        case Data =>
          return [];
        case Drop =>
          return [];
      }
    }

    // ---- the origin's operations ----

    /** `build_circuit` up to the wait for CREATED. */
    method BuildStart(route: seq<Descriptor>, tag: Bytes16, xs: seq<Scalar>, coins: seq<Bytes>)
      returns (r: Result<(u32, BuiltHeader), NetError>, out: seq<Packet>)
      requires |xs| == |coins| == |route|
      modifies this
      ensures (View(), r, out) == Engine.BuildStart(cs, old(View()), route, tag, xs, coins)
    {
      hide Built, CreateCells;
      if route == [] || |route| > MAX_HOPS {
        return Err(BadSize(|route|)), [];
      }
      var built := BuildHeader(cs, route, tag, xs, coins);
      if built.Err? {
        return Err(CryptoFailed(built.error)), [];
      }
      var cid := NewCid();
      out := SendCreate(cid, built.value.firstAddr, built.value.header);
      pending := pending + {cid};
      return Ok((cid, built.value)), out;
    }

    /** `build_circuit` once CREATED has woken it, or the wait has timed out. */
    method BuildFinish(cid: u32, b: BuiltHeader) returns (r: Result<CircuitHandle, NetError>)
      modifies this
      ensures (View(), r) == Engine.BuildFinish(old(View()), cid, b)
    {
      if cid !in ready {
        pending := pending - {cid};
        return Err(Timeout);
      }
      ready := ready - {cid};
      circuits := circuits[cid := OriginEntry(b.fwdKeys, b.bwdKeys, b.tag, HopLink(cid, b.firstAddr), {})];
      return Ok(CircuitHandle(cid, b.fwdKeys, b.bwdKeys, b.tag));
    }

    method RegisterStream(cid: u32, stream: u16)
      modifies this
      ensures View() == Engine.RegisterStream(old(View()), cid, stream)
    {
      if cid in circuits && circuits[cid].OriginEntry? {
        var e := circuits[cid];
        circuits := circuits[cid := e.(streams := e.streams + {stream})];
      }
    }

    /** `CircuitHandle::send`: the sequence number is drawn before the circuit is looked up. */
    method Send(h: CircuitHandle, stream: u16, rcmd: RCmd, msg: Bytes)
      returns (r: Result<(), NetError>, out: seq<Packet>)
      modifies this
      ensures (View(), r, out) == Engine.Send(cs, old(View()), h, stream, rcmd, msg)
    {
      hide SealedFwd, RelayBytes;
      var seqNo := seqOrigin;
      seqOrigin := Incr(seqNo);
      var onion := SealOnion(cs, h.fwd, h.tag, seqNo, msg);
      if h.cid in circuits && circuits[h.cid].OriginEntry? {
        return Ok(()), [Packet(circuits[h.cid].next.peer, RelayCell(h.cid, RelayMsg(seqNo, rcmd, stream, onion)))];
      }
      return Err(NoSession), [];
    }

    method SendChecked(h: CircuitHandle, stream: u16, rcmd: RCmd, msg: Bytes)
      returns (r: Result<(), NetError>, out: seq<Packet>)
      modifies this
      ensures (View(), r, out) == Engine.SendChecked(cs, old(View()), h, stream, rcmd, msg)
    {
      hide Engine.Send;
      if |msg| > MSG_MAX {
        return Err(BadSize(|msg|)), [];
      }
      r, out := Send(h, stream, rcmd, msg);
    }

    method Close(h: CircuitHandle) returns (out: seq<Packet>)
      modifies this
      ensures (View(), out) == Engine.Close(old(View()), h)
    {
      if h.cid in circuits && circuits[h.cid].OriginEntry? {
        out := [Packet(circuits[h.cid].next.peer, Signal(h.cid, Destroy))];
        circuits := circuits - {h.cid};
      } else {
        out := [];
      }
    }
  }

  /** One CREATE cell per fragment of the header, in order. */
  method SendCreate(cid: u32, dst: SocketAddr, header: Bytes) returns (out: seq<Packet>)
    ensures out == CreateCells(cid, dst, header)
  {
    hide FragmentAt;
    var frags := Fragment(header);
    out := [];
    for i := 0 to |frags|
      invariant out == CreateCells(cid, dst, header)[..i]
    {
      out := out + [Packet(dst, Cell(cid, Create, 0, frags[i]))];
    }
  }
}
