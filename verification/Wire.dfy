/**
 The whole path of a CREATE header over the wire: fragment, encode each cell, lose nothing,
 decode, parse, reassemble. For every header that an origin can build or a hop can hand on
 it is the identity, in any order and with anything else arriving in between. And the
 exact case in which a node answers a cell with one too large to encode.
 */
module Wire {
  import opened Wrappers
  import opened Octets
  import opened Scalars
  import opened Crypto
  import opened Identity
  import opened Sphinx
  import opened SphinxMachine
  import opened Onion
  import opened Cells
  import opened Fragments
  import opened Engine

  /** Fragment i of a header as the 1280 bytes that travel. */
  function Datagram(cid: u32, header: Bytes, i: u16): Bytes {
    Encoded(Cell(cid, Create, 0, FragmentAt(header, i)))
  }

  /** What a receiver gets out of a datagram, if it is a CREATE fragment. */
  function EventOf(b: Bytes): Option<Event> {
    var c := Decoded(b);
    if c.Err? || !c.value.cmd.Create? then None
    else
      var f := ParseFrag(c.value.payload);
      if f.Err? then None else Some(Event(c.value.cid, f.value.1, f.value.0, f.value.2))
  }

  function Events(ds: seq<Bytes>): seq<Event> {
    if ds == [] then []
    else
      var n := |ds| - 1;
      var e := EventOf(ds[n]);
      Events(ds[..n]) + if e.Some? then [e.value] else []
  }

  /** Fragment i of this header on this circuit, or something that is not on this circuit at all. */
  ghost predicate FragmentOrForeign(cid: u32, header: Bytes, b: Bytes) {
    || (exists i: u16 :: i < Chunks(|header|) && b == Datagram(cid, header, i))
    || EventOf(b).None?
    || EventOf(b).value.cid != cid
  }

  lemma DatagramIsEvent(cid: u32, header: Bytes, i: u16)
    ensures EventOf(Datagram(cid, header, i)) == Some(Event(cid, i, Total(header), ChunkAt(header, i)))
  {
    hide Encoded, Decoded, FragmentAt, ChunkAt;
    assert |FragmentAt(header, i)| <= CELL_DATA by {
      FragmentFits(header, i);
    }
    WireIdentity(Cell(cid, Create, 0, FragmentAt(header, i)));
    ParseFragment(header, i);
  }

  /** Every fragment fits its cell: sending a CREATE never panics, whatever the header. */
  lemma FragmentFits(header: Bytes, i: u16)
    ensures |FragmentAt(header, i)| <= CELL_DATA
  {
  }

  lemma {:induction false} EventsAreFragments(ds: seq<Bytes>, cid: u32, header: Bytes)
    requires forall k :: 0 <= k < |ds| ==> FragmentOrForeign(cid, header, ds[k])
    ensures FragmentsOf(Events(ds), cid, header)
  {
    hide EventOf, Datagram, Chunks, ChunkAt;
    if ds != [] {
      var n := |ds| - 1;
      EventsAreFragments(ds[..n], cid, header);
      var b := ds[n];
      if EventOf(b).Some? && EventOf(b).value.cid == cid {
        var i: u16 :| i < Chunks(|header|) && b == Datagram(cid, header, i);
        DatagramIsEvent(cid, header, i);
      }
    }
  }

  /**
   Over the wire in any order, with repeats and other circuits' traffic in between, and with leftovers
   of a header with another fragment count in the table, the header comes out exactly when its last
   missing fragment arrives.
   */
  lemma HeaderCrosses(bufs: map<u32, FragBuf>, ds: seq<Bytes>, cid: u32, header: Bytes)
    requires |header| <= MAX_FRAGMENTED && Stale(bufs, cid, header)
    requires forall k :: 0 <= k < |ds| ==> FragmentOrForeign(cid, header, ds[k])
    requires var es := Events(ds);
             es != [] ==> Seen(es[..|es| - 1], cid) != Idx(Chunks(|header|))
    ensures var es := Events(ds);
            var (outs, after) := Feed(bufs, es);
            if Seen(es, cid) == Idx(Chunks(|header|)) then
              && es != [] && SilentOn(es, outs, cid, |es| - 1) && outs[|es| - 1] == Some(header) && cid !in after
            else
              SilentOn(es, outs, cid, |es|)
  {
    hide Events, FragmentOrForeign, Feed, Seen, Chunks, Stale;
    EventsAreFragments(ds, cid, header);
    AnyOrder(bufs, Events(ds), cid, header);
  }

  /** The fragments of a header in sending order. */
  function Sent(cid: u32, header: Bytes): (ds: seq<Bytes>)
    ensures |ds| == Total(header) && forall i :: 0 <= i < |ds| ==> ds[i] == Datagram(cid, header, i)
  {
    seq(Total(header), i requires 0 <= i < 0x1_0000 => Datagram(cid, header, i))
  }

  lemma {:induction false} SentEvents(header: Bytes, k: nat)
    requires k <= Total(header)
    ensures Events(Sent(0, header)[..k]) == Arrivals(0, header)[..k]
  {
    hide EventOf, Datagram, ChunkAt;
    if k > 0 {
      SentEvents(header, k - 1);
      DatagramIsEvent(0, header, k - 1);
      assert Sent(0, header)[..k][..k - 1] == Sent(0, header)[..k - 1];
    }
  }

  /** Sent in order to a node with nothing buffered, a header arrives exactly when its fragment count fits 16 bits. */
  lemma SentInOrder(header: Bytes)
    ensures var outs := Feed(map[], Events(Sent(0, header))).0;
            outs != [] && outs[|outs| - 1] == Some(header) <==> |header| <= MAX_FRAGMENTED
  {
    hide Feed, Events, Arrivals;
    SentEvents(header, Total(header));
    assert Sent(0, header)[..|Sent(0, header)|] == Sent(0, header);
    assert Arrivals(0, header)[..|Arrivals(0, header)|] == Arrivals(0, header);
    ReceivedExactly(header);
  }

  /** No header an origin builds or a hop hands on is anywhere near that bound. */
  lemma HeadersAreSmall(cs: Suite, route: seq<Descriptor>, tag: Bytes16, xs: seq<Scalar>, coins: seq<Bytes>,
                        id: NodeIdentity, header: Bytes)
    requires |xs| == |coins| == |route|
    ensures var b := Built(cs, route, tag, xs, coins);
            b.Ok? ==> |b.value.header| <= HDR_FIXED + 1200 * MAX_HOPS <= MAX_FRAGMENTED
    ensures var o := Process(cs, id, header);
            o.Ok? && o.value.Relay? ==> |o.value.newHeader| <= HDR_FIXED + 1200 * 254 <= MAX_FRAGMENTED
  {
    hide Process;
    var b := Built(cs, route, tag, xs, coins);
    if b.Ok? {
      var p := PlanOf(route, tag, xs, EncapAll(cs, route, coins).value);
      AssembledFront(|route|, tag, Sphinx.Slots(p.xs[0..], Acc(cs, p, 0)), Blob(cs, p, 0));
    }
    var o := Process(cs, id, header);
    if o.Ok? {
      RelayShrinks(cs, id, header);
    }
  }

  // ---- when a node would panic ----

  /** A backward RELAY cell at a relay, the one kind of cell that grows on its way. */
  predicate GrowsHere(s: NodeState, src: SocketAddr, cell: Cell) {
    && cell.cmd.Relay? && ParseRelay(cell.payload).Some?
    && cell.cid in s.circuits && s.circuits[cell.cid].RelayEntry?
    && src != s.circuits[cell.cid].prev.peer && src == s.circuits[cell.cid].next.peer
  }

  /**
   Given a cell off the wire, a node answers with cells that all fit, except for one case:
   a relay wrapping a backward payload that leaves no room for one more tag.
   */
  lemma AnswersFitExactly(cs: Suite, s: NodeState, src: SocketAddr, cell: Cell)
    requires Fits(cell)
    ensures (forall p :: p in HandleCell(cs, s, src, cell).1 ==> Fits(p.cell)) <==>
            (GrowsHere(s, src, cell) ==> |cell.payload| + AEAD_TAG <= CELL_DATA)
  {
    hide ParseRelay, OpenFwd, SealBwd, OpenedBwd, Process, Reassembled, FragmentAt, Total;
    var ps := HandleCell(cs, s, src, cell).1;
    if cell.cmd.Relay? {
      RelayAnswersFit(cs, s, src, cell);
    } else if cell.cmd.Create? {
      CreateAnswersFit(cs, s, src, cell);
    }
  }

  /** That case can happen: a full backward cell at a relay. */
  lemma OversizedAnswer(cs: Suite) returns (s: NodeState, src: SocketAddr, cell: Cell)
    ensures Fits(cell) && GrowsHere(s, src, cell) && |cell.payload| + AEAD_TAG > CELL_DATA
    ensures exists p :: p in HandleCell(cs, s, src, cell).1 && !Fits(p.cell)
  {
    hide HandleCell, ParseRelay, RelayBytes;
    var up, down := HopLink(1, V4(Zeros(4), 1)), HopLink(1, V4(Zeros(4), 2));
    var entry := RelayEntry(Zeros(16), Zeros(32), Zeros(32), up, down, 0);
    s := NodeState(NodeIdentity(Zeros(32), Zeros(32), Zeros(32), []), map[1 := entry], {}, {}, map[], 2, 64, []);
    src := down.peer;
    var m := RelayMsg(1, RCmd.Echo, 1, Zeros(CELL_DATA - 7));
    cell := RelayCell(1, m);
    ParseRelayExactly(RelayBytes(m), m);
    AnswersFitExactly(cs, s, src, cell);
  }

  lemma CreateAnswersFit(cs: Suite, s: NodeState, src: SocketAddr, cell: Cell)
    ensures forall p :: p in HandleCreate(cs, s, src, cell).1 ==> Fits(p.cell)
  {
    hide Process, Reassembled, FragmentAt, Total;
    var ps := HandleCreate(cs, s, src, cell).1;
    forall p | p in ps
      ensures Fits(p.cell)
    {
      var frag := ParseFrag(cell.payload);
      var r := Reassembled(s.createFrags, cell.cid, frag.value.1, frag.value.0, frag.value.2);
      var o := Process(cs, s.identity, r.0.value);
      if o.value.Relay? {
        var i :| 0 <= i < |ps| && ps[i] == p;
        FragmentFits(o.value.newHeader, i);
      }
    }
  }

  lemma RelayAnswersFit(cs: Suite, s: NodeState, src: SocketAddr, cell: Cell)
    requires Fits(cell) && cell.cmd.Relay?
    ensures (forall p :: p in HandleRelay(cs, s, src, cell).1 ==> Fits(p.cell)) <==>
            (GrowsHere(s, src, cell) ==> |cell.payload| + AEAD_TAG <= CELL_DATA)
  {
    hide ParseRelay, OpenedBwd;
    var m := ParseRelay(cell.payload);
    if m.Some? {
      ParseRelayExactly(cell.payload, m.value);
      var ps := HandleRelay(cs, s, src, cell).1;
      if GrowsHere(s, src, cell) {
        assert ps[0] in ps;
      }
    }
  }
}
