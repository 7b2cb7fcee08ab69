/**
 Echo delivery over whole runs. An established circuit under FIFO links, with sends and
 deliveries interleaved in any way, refines the row of queues of Pipeline; so the
 origin's streams receive exactly the ECHO messages that a monotonic sequence check
 passes, unchanged and in order, and DATA and DROP yield nothing.
 */
module Echo {
  import opened Wrappers
  import opened Octets
  import opened Crypto
  import opened Identity
  import opened Sphinx
  import opened Onion
  import opened Cells
  import opened Engine
  import opened Network
  import P = Pipeline

  /**
   A circuit as its nodes hold it: position 0 is the origin, position i + 1 is hop i, and
   one circuit id is used on every link (a relay finds its entry only under its incoming
   id, so replies need that).
   */
  datatype Chain = Chain(
    addrs: seq<SocketAddr>, cid: u32, tag: Bytes16, fwd: seq<Bytes32>, bwd: seq<Bytes32>, streams: set<u16>)
  {
    function N(): nat {
      |fwd|
    }

    ghost predicate Valid() {
      && 0 < |fwd| <= MAX_HOPS && |bwd| == |fwd| && |addrs| == |fwd| + 1
      && forall i, j :: 0 <= i < j < |addrs| ==> addrs[i] != addrs[j]
    }

    function Handle(): CircuitHandle {
      CircuitHandle(cid, fwd, bwd, tag)
    }

    function Origin(): CircuitEntry
      requires |addrs| > 1
    {
      OriginEntry(fwd, bwd, tag, HopLink(cid, addrs[1]), streams)
    }

    function Hop(i: nat, last: u32): CircuitEntry
      requires i < |fwd| == |bwd| && |addrs| == |fwd| + 1
    {
      if i + 1 == |fwd| then TerminalEntry(tag, fwd[i], bwd[i], HopLink(cid, addrs[i]), last)
      else RelayEntry(tag, fwd[i], bwd[i], HopLink(cid, addrs[i]), HopLink(cid, addrs[i + 2]), last)
    }
  }

  /** Message r on the forward link into hop i: sealed for hops i, i + 1, ... */
  function FwdCell(cs: Suite, c: Chain, i: nat, r: P.Sent): Cell
    requires i <= |c.fwd|
  {
    RelayCell(c.cid, RelayMsg(r.seqNo, r.rcmd, r.stream, SealedFwd(cs, c.fwd[i..], c.tag, r.seqNo, r.msg)))
  }

  /** Reply r on the backward link out of hop i: sealed by hops i, i + 1, ... */
  function BwdCell(cs: Suite, c: Chain, i: nat, r: P.Sent): Cell
    requires i <= |c.bwd|
  {
    RelayCell(c.cid, RelayMsg(r.seqNo, r.rcmd, r.stream, SealedBwd(cs, c.bwd[i..], c.tag, r.seqNo, r.msg)))
  }

  /** Every RELAY cell of a route of at most five hops fits, in both directions. */
  lemma CellsFit(cs: Suite, c: Chain, i: nat, r: P.Sent)
    requires c.Valid() && i <= c.N()
    ensures Fits(FwdCell(cs, c, i, r)) && Fits(BwdCell(cs, c, i, r))
    ensures |FwdCell(cs, c, i, r).payload| == |BwdCell(cs, c, i, r).payload| == 7 + |r.msg| + 16 * (c.N() - i)
  {
  }

  // ---- what each position does with a cell ----

  lemma ForwardAtHop(cs: Suite, c: Chain, i: nat, last: u32, s: NodeState, r: P.Sent)
    requires c.Valid() && i < c.N()
    requires c.cid in s.circuits && s.circuits[c.cid] == c.Hop(i, last)
    ensures HandleCell(cs, s, c.addrs[i], FwdCell(cs, c, i, r))
            == if r.seqNo <= last then (s, [])
               else (s.(circuits := s.circuits[c.cid := c.Hop(i, r.seqNo)]),
                     if i + 1 < c.N() then [Packet(c.addrs[i + 2], FwdCell(cs, c, i + 1, r))]
                     else if r.rcmd.Echo? then [Packet(c.addrs[i], BwdCell(cs, c, i, r))]
                     else [])
  {
    hide SealedFwd, SealedBwd, OpenFwd, SealBwd, RelayBytes, ParseRelay;
    var m := RelayMsg(r.seqNo, r.rcmd, r.stream, SealedFwd(cs, c.fwd[i..], c.tag, r.seqNo, r.msg));
    ParseRelayExactly(RelayBytes(m), m);
    HopOpens(cs, c.fwd, i, c.tag, r.seqNo, r.msg);
    if i + 1 == c.N() {
      NoMoreLayers(cs, c, r);
      HopSeals(cs, c.bwd, i, c.tag, r.seqNo, r.msg);
    }
  }

  lemma NoMoreLayers(cs: Suite, c: Chain, r: P.Sent)
    requires c.Valid()
    ensures SealedFwd(cs, c.fwd[c.N()..], c.tag, r.seqNo, r.msg) == r.msg
    ensures SealedBwd(cs, c.bwd[c.N()..], c.tag, r.seqNo, r.msg) == r.msg
  {
    assert c.fwd[c.N()..] == [] && c.bwd[c.N()..] == [];
  }

  lemma BackwardAtRelay(cs: Suite, c: Chain, i: nat, last: u32, s: NodeState, r: P.Sent)
    requires c.Valid() && 0 < i < c.N()
    requires c.cid in s.circuits && s.circuits[c.cid] == c.Hop(i - 1, last)
    ensures HandleCell(cs, s, c.addrs[i + 1], BwdCell(cs, c, i, r))
            == (s, [Packet(c.addrs[i - 1], BwdCell(cs, c, i - 1, r))])
  {
    hide SealedFwd, SealedBwd, OpenFwd, SealBwd, RelayBytes, ParseRelay;
    var m := RelayMsg(r.seqNo, r.rcmd, r.stream, SealedBwd(cs, c.bwd[i..], c.tag, r.seqNo, r.msg));
    ParseRelayExactly(RelayBytes(m), m);
    HopSeals(cs, c.bwd, i - 1, c.tag, r.seqNo, r.msg);
    assert c.addrs[i + 1] != c.addrs[i - 1];
  }

  lemma BackwardAtOrigin(cs: Suite, c: Chain, s: NodeState, r: P.Sent)
    requires c.Valid()
    requires c.cid in s.circuits && s.circuits[c.cid] == c.Origin()
    ensures HandleCell(cs, s, c.addrs[1], BwdCell(cs, c, 0, r))
            == (s.(inbox := s.inbox + Delivered(c, [r])), [])
  {
    hide RelayBytes, ParseRelay;
    var m := RelayMsg(r.seqNo, r.rcmd, r.stream, SealedBwd(cs, c.bwd[0..], c.tag, r.seqNo, r.msg));
    ParseRelayExactly(RelayBytes(m), m);
    assert c.bwd[0..] == c.bwd;
    OpenAllInverts(cs, c.bwd, RelayNonce(cs, c.tag, DIR_BWD, r.seqNo), r.msg);
    assert [r][1..] == [] && s.inbox + [] == s.inbox;
    assert s.(inbox := s.inbox) == s;
    assert OpenedBwd(cs, c.bwd, c.tag, r.seqNo, m.onion) == Ok(r.msg);
    assert HandleCell(cs, s, c.addrs[1], BwdCell(cs, c, 0, r)) == (AtOrigin(cs, s, c.cid, m), []);
    assert Delivered(c, [r]) == if r.stream in c.streams then [Delivery(c.cid, r.stream, r.msg)] else [];
  }

  /** What the origin's streams get out of a list of replies. */
  function Delivered(c: Chain, rs: seq<P.Sent>): seq<Delivery> {
    if rs == [] then []
    else (if rs[0].stream in c.streams then [Delivery(c.cid, rs[0].stream, rs[0].msg)] else []) + Delivered(c, rs[1..])
  }

  lemma {:induction false} DeliveredAppend(c: Chain, a: seq<P.Sent>, b: seq<P.Sent>)
    ensures Delivered(c, a + b) == Delivered(c, a) + Delivered(c, b)
  {
    if a == [] {
      assert a + b == b;
    } else {
      assert (a + b)[1..] == a[1..] + b;
      DeliveredAppend(c, a[1..], b);
    }
  }

  // ---- FIFO links ----

  /** The cells in flight from a to b, oldest first. */
  function Queue(flight: seq<Msg>, a: SocketAddr, b: SocketAddr): seq<Cell> {
    if flight == [] then []
    else (if flight[0].src == a && flight[0].dst == b then [flight[0].cell] else []) + Queue(flight[1..], a, b)
  }

  /** Cell h is the oldest one on its link. */
  predicate IsOldest(flight: seq<Msg>, h: nat)
    requires h < |flight|
  {
    forall i :: 0 <= i < h ==> !(flight[i].src == flight[h].src && flight[i].dst == flight[h].dst)
  }

  /** The oldest cell on the link that cell j is on. */
  function Oldest(flight: seq<Msg>, j: nat, k: nat := 0): (h: nat)
    requires k <= j < |flight|
    requires forall i :: 0 <= i < k ==> !(flight[i].src == flight[j].src && flight[i].dst == flight[j].dst)
    ensures h < |flight| && flight[h].src == flight[j].src && flight[h].dst == flight[j].dst
    ensures IsOldest(flight, h)
    decreases j - k
  {
    if flight[k].src == flight[j].src && flight[k].dst == flight[j].dst then k else Oldest(flight, j, k + 1)
  }

  lemma {:induction false} QueueAppend(f: seq<Msg>, g: seq<Msg>, a: SocketAddr, b: SocketAddr)
    ensures Queue(f + g, a, b) == Queue(f, a, b) + Queue(g, a, b)
  {
    if f == [] {
      assert f + g == g;
    } else {
      assert (f + g)[1..] == f[1..] + g;
      QueueAppend(f[1..], g, a, b);
      Regroup(if f[0].src == a && f[0].dst == b then [f[0].cell] else [], Queue(f[1..], a, b), Queue(g, a, b));
    }
  }

  lemma {:induction false} QueueNone(f: seq<Msg>, a: SocketAddr, b: SocketAddr)
    requires forall i :: 0 <= i < |f| ==> !(f[i].src == a && f[i].dst == b)
    ensures Queue(f, a, b) == []
  {
    if f != [] {
      QueueNone(f[1..], a, b);
    }
  }

  /** Taking the oldest cell of a link shortens that link's queue by its head and no other queue. */
  lemma QueueTake(f: seq<Msg>, h: nat, a: SocketAddr, b: SocketAddr)
    requires h < |f| && IsOldest(f, h)
    ensures var q := Queue(f, a, b);
            if f[h].src == a && f[h].dst == b
            then q != [] && q[0] == f[h].cell && Queue(Without(f, h), a, b) == q[1..]
            else Queue(Without(f, h), a, b) == q
  {
    hide Queue;
    var front, back := f[..h], f[h + 1..];
    assert f == front + ([f[h]] + back);
    QueueAppend(front, [f[h]] + back, a, b);
    QueueCons(f[h], back, a, b);
    assert Without(f, h) == front + back;
    QueueAppend(front, back, a, b);
    if f[h].src == a && f[h].dst == b {
      QueueNone(front, a, b);
      var q := Queue(back, a, b);
      assert Queue(f, a, b) == [f[h].cell] + q && ([f[h].cell] + q)[1..] == q;
    }
  }

  lemma QueueCons(m: Msg, f: seq<Msg>, a: SocketAddr, b: SocketAddr)
    ensures Queue([m] + f, a, b) == (if m.src == a && m.dst == b then [m.cell] else []) + Queue(f, a, b)
  {
    assert ([m] + f)[1..] == f;
  }

  lemma {:induction false} QueueHas(f: seq<Msg>, j: nat)
    requires j < |f|
    ensures Queue(f, f[j].src, f[j].dst) != []
  {
    if j > 0 {
      QueueHas(f[1..], j - 1);
    }
  }

  // ---- the refinement relation ----

  function FwdCells(cs: Suite, c: Chain, i: nat, rs: seq<P.Sent>): (q: seq<Cell>)
    requires i <= |c.fwd|
    ensures |q| == |rs| && forall k :: 0 <= k < |rs| ==> q[k] == FwdCell(cs, c, i, rs[k])
  {
    seq(|rs|, k requires 0 <= k < |rs| => FwdCell(cs, c, i, rs[k]))
  }

  function BwdCells(cs: Suite, c: Chain, i: nat, rs: seq<P.Sent>): (q: seq<Cell>)
    requires i <= |c.bwd|
    ensures |q| == |rs| && forall k :: 0 <= k < |rs| ==> q[k] == BwdCell(cs, c, i, rs[k])
  {
    seq(|rs|, k requires 0 <= k < |rs| => BwdCell(cs, c, i, rs[k]))
  }

  ghost predicate OnForward(c: Chain, m: Msg, i: nat)
    requires i + 1 < |c.addrs|
  {
    m.src == c.addrs[i] && m.dst == c.addrs[i + 1]
  }

  ghost predicate OnBackward(c: Chain, m: Msg, i: nat)
    requires i + 1 < |c.addrs|
  {
    m.src == c.addrs[i + 1] && m.dst == c.addrs[i]
  }

  ghost predicate OnChain(c: Chain, m: Msg) {
    || (exists i: nat | i + 1 < |c.addrs| :: OnForward(c, m, i))
    || (exists i: nat | i + 1 < |c.addrs| :: OnBackward(c, m, i))
  }

  ghost predicate Shaped(c: Chain, p: P.Pipe) {
    c.Valid() && p.Valid() && |p.fwd| == c.N()
  }

  ghost predicate FwdLink(cs: Suite, c: Chain, flight: seq<Msg>, p: P.Pipe, i: nat)
    requires Shaped(c, p) && i < c.N()
  {
    Queue(flight, c.addrs[i], c.addrs[i + 1]) == FwdCells(cs, c, i, p.fwd[i])
  }

  ghost predicate BwdLink(cs: Suite, c: Chain, flight: seq<Msg>, p: P.Pipe, i: nat)
    requires Shaped(c, p) && i < c.N()
  {
    Queue(flight, c.addrs[i + 1], c.addrs[i]) == BwdCells(cs, c, i, p.bwd[i])
  }

  /** The cells in flight are exactly the messages on the links of the pipe, link by link. */
  ghost predicate Links(cs: Suite, c: Chain, flight: seq<Msg>, p: P.Pipe)
    requires Shaped(c, p)
  {
    && (forall i :: 0 <= i < c.N() ==> FwdLink(cs, c, flight, p, i) && BwdLink(cs, c, flight, p, i))
    && (forall k :: 0 <= k < |flight| ==> OnChain(c, flight[k]))
  }

  /** The nodes hold the circuit, with the pipe's sequence marks, and the origin has what the pipe has delivered. */
  ghost predicate Nodes(c: Chain, nodes: map<SocketAddr, NodeState>, p: P.Pipe, inbox: seq<Delivery>, next: u32)
    requires Shaped(c, p)
  {
    && (forall k :: 0 <= k < |c.addrs| ==> c.addrs[k] in nodes && c.cid in nodes[c.addrs[k]].circuits)
    && nodes[c.addrs[0]].circuits[c.cid] == c.Origin()
    && nodes[c.addrs[0]].inbox == inbox + Delivered(c, p.got)
    && nodes[c.addrs[0]].seqOrigin == next
    && (forall k :: 0 < k < |c.addrs| ==> nodes[c.addrs[k]].circuits[c.cid] == c.Hop(k - 1, p.last[k - 1]))
  }

  ghost predicate Related(cs: Suite, c: Chain, net: Net, p: P.Pipe, inbox: seq<Delivery>, next: u32) {
    Shaped(c, p) && Links(cs, c, net.flight, p) && Nodes(c, net.nodes, p, inbox, next)
  }

  // ---- links, one change at a time ----

  lemma TakeForward(cs: Suite, c: Chain, flight: seq<Msg>, p: P.Pipe, i: nat, h: nat)
    requires Shaped(c, p) && Links(cs, c, flight, p) && i < c.N()
    requires h < |flight| && IsOldest(flight, h) && OnForward(c, flight[h], i)
    ensures p.fwd[i] != [] && flight[h].cell == FwdCell(cs, c, i, p.fwd[i][0])
    ensures Links(cs, c, Without(flight, h), p.(fwd := p.fwd[i := p.fwd[i][1..]]))
  {
    hide FwdCell, BwdCell, OnChain, Queue;
    QueueTake(flight, h, c.addrs[i], c.addrs[i + 1]);
    assert FwdLink(cs, c, flight, p, i);
    var q := p.(fwd := p.fwd[i := p.fwd[i][1..]]);
    assert FwdCells(cs, c, i, p.fwd[i])[1..] == FwdCells(cs, c, i, p.fwd[i][1..]);
    forall k | 0 <= k < c.N()
      ensures FwdLink(cs, c, Without(flight, h), q, k) && BwdLink(cs, c, Without(flight, h), q, k)
    {
      assert FwdLink(cs, c, flight, p, k) && BwdLink(cs, c, flight, p, k);
      QueueTake(flight, h, c.addrs[k], c.addrs[k + 1]);
      QueueTake(flight, h, c.addrs[k + 1], c.addrs[k]);
    }
  }

  lemma TakeBackward(cs: Suite, c: Chain, flight: seq<Msg>, p: P.Pipe, i: nat, h: nat)
    requires Shaped(c, p) && Links(cs, c, flight, p) && i < c.N()
    requires h < |flight| && IsOldest(flight, h) && OnBackward(c, flight[h], i)
    ensures p.bwd[i] != [] && flight[h].cell == BwdCell(cs, c, i, p.bwd[i][0])
    ensures Links(cs, c, Without(flight, h), p.(bwd := p.bwd[i := p.bwd[i][1..]]))
  {
    hide FwdCell, BwdCell, OnChain, Queue;
    QueueTake(flight, h, c.addrs[i + 1], c.addrs[i]);
    assert BwdLink(cs, c, flight, p, i);
    var q := p.(bwd := p.bwd[i := p.bwd[i][1..]]);
    assert BwdCells(cs, c, i, p.bwd[i])[1..] == BwdCells(cs, c, i, p.bwd[i][1..]);
    forall k | 0 <= k < c.N()
      ensures FwdLink(cs, c, Without(flight, h), q, k) && BwdLink(cs, c, Without(flight, h), q, k)
    {
      assert FwdLink(cs, c, flight, p, k) && BwdLink(cs, c, flight, p, k);
      QueueTake(flight, h, c.addrs[k], c.addrs[k + 1]);
      QueueTake(flight, h, c.addrs[k + 1], c.addrs[k]);
    }
  }

  lemma QueueOne(m: Msg, a: SocketAddr, b: SocketAddr)
    ensures Queue([m], a, b) == if m.src == a && m.dst == b then [m.cell] else []
  {
    assert [m][1..] == [];
  }

  lemma PutForward(cs: Suite, c: Chain, flight: seq<Msg>, p: P.Pipe, i: nat, r: P.Sent)
    requires Shaped(c, p) && Links(cs, c, flight, p) && i < c.N()
    ensures var m := Msg(c.addrs[i], c.addrs[i + 1], FwdCell(cs, c, i, r));
            Links(cs, c, flight + [m], p.(fwd := p.fwd[i := p.fwd[i] + [r]]))
  {
    hide FwdCell, BwdCell, Queue;
    var m := Msg(c.addrs[i], c.addrs[i + 1], FwdCell(cs, c, i, r));
    assert OnForward(c, m, i);
    var q := p.(fwd := p.fwd[i := p.fwd[i] + [r]]);
    assert FwdCells(cs, c, i, p.fwd[i] + [r]) == FwdCells(cs, c, i, p.fwd[i]) + [m.cell];
    forall k | 0 <= k < c.N()
      ensures FwdLink(cs, c, flight + [m], q, k) && BwdLink(cs, c, flight + [m], q, k)
    {
      assert FwdLink(cs, c, flight, p, k) && BwdLink(cs, c, flight, p, k);
      QueueAppend(flight, [m], c.addrs[k], c.addrs[k + 1]);
      QueueAppend(flight, [m], c.addrs[k + 1], c.addrs[k]);
      QueueOne(m, c.addrs[k], c.addrs[k + 1]);
      QueueOne(m, c.addrs[k + 1], c.addrs[k]);
    }
  }

  lemma PutBackward(cs: Suite, c: Chain, flight: seq<Msg>, p: P.Pipe, i: nat, r: P.Sent)
    requires Shaped(c, p) && Links(cs, c, flight, p) && i < c.N()
    ensures var m := Msg(c.addrs[i + 1], c.addrs[i], BwdCell(cs, c, i, r));
            Links(cs, c, flight + [m], p.(bwd := p.bwd[i := p.bwd[i] + [r]]))
  {
    hide FwdCell, BwdCell, Queue;
    var m := Msg(c.addrs[i + 1], c.addrs[i], BwdCell(cs, c, i, r));
    assert OnBackward(c, m, i);
    var q := p.(bwd := p.bwd[i := p.bwd[i] + [r]]);
    assert BwdCells(cs, c, i, p.bwd[i] + [r]) == BwdCells(cs, c, i, p.bwd[i]) + [m.cell];
    forall k | 0 <= k < c.N()
      ensures FwdLink(cs, c, flight + [m], q, k) && BwdLink(cs, c, flight + [m], q, k)
    {
      assert FwdLink(cs, c, flight, p, k) && BwdLink(cs, c, flight, p, k);
      QueueAppend(flight, [m], c.addrs[k], c.addrs[k + 1]);
      QueueAppend(flight, [m], c.addrs[k + 1], c.addrs[k]);
      QueueOne(m, c.addrs[k], c.addrs[k + 1]);
      QueueOne(m, c.addrs[k + 1], c.addrs[k]);
    }
  }

  // ---- steps of the network are steps of the pipe ----

  /** A forward cell that fails the sequence check goes no further. */
  lemma StepDrop(cs: Suite, c: Chain, net: Net, p: P.Pipe, inbox: seq<Delivery>, next: u32, i: nat, h: nat)
    requires Related(cs, c, net, p, inbox, next) && i < c.N()
    requires h < |net.flight| && IsOldest(net.flight, h) && OnForward(c, net.flight[h], i)
    requires p.fwd[i] != [] && p.fwd[i][0].seqNo <= p.last[i]
    ensures Related(cs, c, Deliver(cs, net, h), P.Forward(p, i), inbox, next)
  {
    hide HandleCell, FwdCell, BwdCell, Links;
    TakeForward(cs, c, net.flight, p, i, h);
    var s := net.nodes[c.addrs[i + 1]];
    HopHolds(c, net.nodes, p, inbox, next, i);
    ForwardAtHop(cs, c, i, p.last[i], s, p.fwd[i][0]);
    assert Deliver(cs, net, h).flight == Without(net.flight, h);
  }

  /** What a hop posts on accepting message r. */
  function Onward(cs: Suite, c: Chain, i: nat, r: P.Sent): seq<Msg>
    requires i < |c.fwd| == |c.bwd| && |c.addrs| == |c.fwd| + 1
  {
    if i + 1 < |c.fwd| then [Msg(c.addrs[i + 1], c.addrs[i + 2], FwdCell(cs, c, i + 1, r))]
    else if r.rcmd.Echo? then [Msg(c.addrs[i + 1], c.addrs[i], BwdCell(cs, c, i, r))]
    else []
  }

  lemma HopHolds(c: Chain, nodes: map<SocketAddr, NodeState>, p: P.Pipe, inbox: seq<Delivery>, next: u32, i: nat)
    requires Shaped(c, p) && Nodes(c, nodes, p, inbox, next) && i < c.N()
    ensures c.addrs[i + 1] in nodes && c.cid in nodes[c.addrs[i + 1]].circuits
    ensures nodes[c.addrs[i + 1]].circuits[c.cid] == c.Hop(i, p.last[i])
  {
    assert nodes[c.addrs[i + 1]].circuits[c.cid] == c.Hop((i + 1) - 1, p.last[(i + 1) - 1]);
  }

  /** Moving one hop's mark. */
  lemma MarkMoves(c: Chain, nodes: map<SocketAddr, NodeState>, p: P.Pipe, inbox: seq<Delivery>, next: u32, i: nat, mark: u32)
    requires Shaped(c, p) && Nodes(c, nodes, p, inbox, next) && i < c.N()
    ensures var s := nodes[c.addrs[i + 1]];
            Nodes(c, nodes[c.addrs[i + 1] := s.(circuits := s.circuits[c.cid := c.Hop(i, mark)])],
                  p.(last := p.last[i := mark]), inbox, next)
  {
  }

  lemma StepAccept(cs: Suite, c: Chain, net: Net, p: P.Pipe, inbox: seq<Delivery>, next: u32, i: nat, h: nat)
    requires Related(cs, c, net, p, inbox, next) && i < c.N()
    requires h < |net.flight| && IsOldest(net.flight, h) && OnForward(c, net.flight[h], i)
    requires p.fwd[i] != [] && p.fwd[i][0].seqNo > p.last[i]
    ensures var r, end := p.fwd[i][0], Deliver(cs, net, h);
            && end.flight == Without(net.flight, h) + Onward(cs, c, i, r)
            && Nodes(c, end.nodes, p.(last := p.last[i := r.seqNo]), inbox, next)
  {
    hide HandleCell, FwdCell, BwdCell, Links, Nodes;
    TakeForward(cs, c, net.flight, p, i, h);
    var r := p.fwd[i][0];
    var a := c.addrs[i + 1];
    HopHolds(c, net.nodes, p, inbox, next, i);
    ForwardAtHop(cs, c, i, p.last[i], net.nodes[a], r);
    MarkMoves(c, net.nodes, p, inbox, next, i, r.seqNo);
    if i + 1 < c.N() {
      CellsFit(cs, c, i + 1, r);
      PostedOne(a, Packet(c.addrs[i + 2], FwdCell(cs, c, i + 1, r)));
    } else if r.rcmd.Echo? {
      CellsFit(cs, c, i, r);
      PostedOne(a, Packet(c.addrs[i], BwdCell(cs, c, i, r)));
    }
  }

  lemma StepForward(cs: Suite, c: Chain, net: Net, p: P.Pipe, inbox: seq<Delivery>, next: u32, i: nat, h: nat)
    requires Related(cs, c, net, p, inbox, next) && i < c.N()
    requires h < |net.flight| && IsOldest(net.flight, h) && OnForward(c, net.flight[h], i)
    ensures p.fwd[i] != [] && Related(cs, c, Deliver(cs, net, h), P.Forward(p, i), inbox, next)
  {
    hide HandleCell, Deliver, FwdCell, BwdCell, Links, Nodes;
    TakeForward(cs, c, net.flight, p, i, h);
    var r := p.fwd[i][0];
    if r.seqNo <= p.last[i] {
      StepDrop(cs, c, net, p, inbox, next, i, h);
    } else {
      StepAccept(cs, c, net, p, inbox, next, i, h);
      var rest := Without(net.flight, h);
      var taken := p.(fwd := p.fwd[i := p.fwd[i][1..]]);
      var moved := taken.(last := p.last[i := r.seqNo]);
      LinksIgnoreMarks(cs, c, rest, taken, moved);
      NodesIgnoreLinks(c, Deliver(cs, net, h).nodes, p.(last := moved.last), P.Forward(p, i), inbox, next);
      if i + 1 < c.N() {
        PutForward(cs, c, rest, moved, i + 1, r);
      } else if r.rcmd.Echo? {
        PutBackward(cs, c, rest, moved, i, r);
      } else {
        assert rest + [] == rest;
      }
    }
  }

  lemma NodesIgnoreLinks(c: Chain, nodes: map<SocketAddr, NodeState>, p: P.Pipe, q: P.Pipe, inbox: seq<Delivery>, next: u32)
    requires Shaped(c, p) && Shaped(c, q) && Nodes(c, nodes, p, inbox, next) && q.last == p.last && q.got == p.got
    ensures Nodes(c, nodes, q, inbox, next)
  {
  }

  lemma LinksIgnoreMarks(cs: Suite, c: Chain, flight: seq<Msg>, p: P.Pipe, q: P.Pipe)
    requires Shaped(c, p) && Shaped(c, q) && Links(cs, c, flight, p) && q.fwd == p.fwd && q.bwd == p.bwd
    ensures Links(cs, c, flight, q)
  {
    hide FwdCell, BwdCell, OnChain;
    forall k | 0 <= k < c.N()
      ensures FwdLink(cs, c, flight, q, k) && BwdLink(cs, c, flight, q, k)
    {
      assert FwdLink(cs, c, flight, p, k) && BwdLink(cs, c, flight, p, k);
    }
  }

  lemma StepHome(cs: Suite, c: Chain, net: Net, p: P.Pipe, inbox: seq<Delivery>, next: u32, h: nat)
    requires Related(cs, c, net, p, inbox, next)
    requires h < |net.flight| && IsOldest(net.flight, h) && OnBackward(c, net.flight[h], 0)
    ensures p.bwd[0] != [] && Related(cs, c, Deliver(cs, net, h), P.Backward(p, 0), inbox, next)
  {
    hide HandleCell, FwdCell, BwdCell, Links;
    TakeBackward(cs, c, net.flight, p, 0, h);
    var r := p.bwd[0][0];
    var rest := Without(net.flight, h);
    BackwardAtOrigin(cs, c, net.nodes[c.addrs[0]], r);
    DeliveredAppend(c, p.got, [r]);
    assert inbox + Delivered(c, p.got) + Delivered(c, [r]) == inbox + Delivered(c, p.got + [r]);
    LinksIgnoreMarks(cs, c, rest, p.(bwd := p.bwd[0 := p.bwd[0][1..]]), P.Backward(p, 0));
    assert Deliver(cs, net, h).flight == rest;
  }

  lemma StepBackward(cs: Suite, c: Chain, net: Net, p: P.Pipe, inbox: seq<Delivery>, next: u32, i: nat, h: nat)
    requires Related(cs, c, net, p, inbox, next) && 0 < i < c.N()
    requires h < |net.flight| && IsOldest(net.flight, h) && OnBackward(c, net.flight[h], i)
    ensures p.bwd[i] != [] && Related(cs, c, Deliver(cs, net, h), P.Backward(p, i), inbox, next)
  {
    hide HandleCell, FwdCell, BwdCell, Links;
    TakeBackward(cs, c, net.flight, p, i, h);
    var r := p.bwd[i][0];
    var a := c.addrs[i];
    var s := net.nodes[a];
    assert s.circuits[c.cid] == c.Hop(i - 1, p.last[i - 1]);
    BackwardAtRelay(cs, c, i, p.last[i - 1], s, r);
    CellsFit(cs, c, i - 1, r);
    PostedOne(a, Packet(c.addrs[i - 1], BwdCell(cs, c, i - 1, r)));
    PutBackward(cs, c, Without(net.flight, h), p.(bwd := p.bwd[i := p.bwd[i][1..]]), i - 1, r);
    assert net.nodes[a := s] == net.nodes;
  }

  /** Any cell in flight is on some link of the chain, so a delivery is a step of the pipe. */
  lemma StepTick(cs: Suite, c: Chain, net: Net, p: P.Pipe, inbox: seq<Delivery>, next: u32, h: nat) returns (q: P.Pipe)
    requires Related(cs, c, net, p, inbox, next) && h < |net.flight| && IsOldest(net.flight, h)
    ensures Related(cs, c, Deliver(cs, net, h), q, inbox, next)
    ensures P.Remaining(q) < P.Remaining(p)
    ensures forall more :: P.Outcome(q, more) == P.Outcome(p, more)
  {
    hide Links, Nodes, Deliver, P.Outcome, P.Remaining, P.Forward, P.Backward;
    var i := LinkOf(cs, c, net.flight, p, h);
    if OnForward(c, net.flight[h], i) {
      StepForward(cs, c, net, p, inbox, next, i, h);
      q := P.Forward(p, i);
      P.ForwardProgress(p, i);
      forall more
        ensures P.Outcome(q, more) == P.Outcome(p, more)
      {
        P.ForwardKeeps(p, i, more);
      }
    } else {
      if i == 0 {
        StepHome(cs, c, net, p, inbox, next, h);
      } else {
        StepBackward(cs, c, net, p, inbox, next, i, h);
      }
      q := P.Backward(p, i);
      P.BackwardProgress(p, i);
      forall more
        ensures P.Outcome(q, more) == P.Outcome(p, more)
      {
        P.BackwardKeeps(p, i, more);
      }
    }
  }

  lemma LinkOf(cs: Suite, c: Chain, flight: seq<Msg>, p: P.Pipe, h: nat) returns (i: nat)
    requires Shaped(c, p) && Links(cs, c, flight, p) && h < |flight|
    ensures i < c.N() && (OnForward(c, flight[h], i) || OnBackward(c, flight[h], i))
  {
    var m := flight[h];
    assert OnChain(c, m);
    if exists k: nat | k + 1 < |c.addrs| :: OnForward(c, m, k) {
      i :| i + 1 < |c.addrs| && OnForward(c, m, i);
    } else {
      i :| i + 1 < |c.addrs| && OnBackward(c, m, i);
    }
  }

  // ---- runs ----

  /** The origin sends on the circuit, or the oldest cell of some link is delivered. */
  datatype Action = Say(stream: u16, rcmd: RCmd, msg: Bytes) | Tick(pick: nat)

  function Act(cs: Suite, c: Chain, net: Net, a: Action): Net
    requires |c.addrs| > 0 && c.addrs[0] in net.nodes
  {
    match a
    case Say(stream, rcmd, msg) =>
      var r := SendChecked(cs, net.nodes[c.addrs[0]], c.Handle(), stream, rcmd, msg);
      Net(net.nodes[c.addrs[0] := r.0], net.flight + Posted(c.addrs[0], r.2))
    case Tick(pick) =>
      if net.flight == [] then net else Deliver(cs, net, Oldest(net.flight, pick % |net.flight|))
  }

  function Play(cs: Suite, c: Chain, net: Net, acts: seq<Action>): Net
    requires |c.addrs| > 0 && c.addrs[0] in net.nodes
    decreases |acts|
  {
    if acts == [] then net else Play(cs, c, Act(cs, c, net, acts[0]), acts[1..])
  }

  /** The messages a run sends, with the sequence numbers they get; too long ones are refused. */
  function Sends(next: u32, acts: seq<Action>): seq<P.Sent>
    decreases |acts|
  {
    if acts == [] then []
    else if acts[0].Say? && |acts[0].msg| <= MSG_MAX then
      [P.SendRec(next, acts[0].rcmd, acts[0].stream, acts[0].msg)] + Sends(Incr(next), acts[1..])
    else Sends(next, acts[1..])
  }

  lemma StepSay(cs: Suite, c: Chain, net: Net, p: P.Pipe, inbox: seq<Delivery>, next: u32, a: Action)
    requires Related(cs, c, net, p, inbox, next) && a.Say? && |a.msg| <= MSG_MAX
    ensures Related(cs, c, Act(cs, c, net, a), P.Say(p, P.SendRec(next, a.rcmd, a.stream, a.msg)), inbox, Incr(next))
  {
    hide FwdCell, BwdCell, Links;
    var r: P.Sent := P.SendRec(next, a.rcmd, a.stream, a.msg);
    CellsFit(cs, c, 0, r);
    FirstCell(cs, c, r);
    PostedOne(c.addrs[0], Packet(c.addrs[1], FwdCell(cs, c, 0, r)));
    PutForward(cs, c, net.flight, p, 0, r);
  }

  lemma FirstCell(cs: Suite, c: Chain, r: P.Sent)
    requires c.Valid()
    ensures FwdCell(cs, c, 0, r)
            == RelayCell(c.cid, RelayMsg(r.seqNo, r.rcmd, r.stream, SealedFwd(cs, c.fwd, c.tag, r.seqNo, r.msg)))
  {
    assert c.fwd[0..] == c.fwd;
  }

  /** Replays a whole run on the pipe. */
  lemma {:induction false} Replay(cs: Suite, c: Chain, net: Net, p: P.Pipe, inbox: seq<Delivery>, next: u32,
                                  acts: seq<Action>)
    returns (q: P.Pipe, next': u32)
    requires Related(cs, c, net, p, inbox, next)
    ensures Related(cs, c, Play(cs, c, net, acts), q, inbox, next')
    ensures P.Outcome(q, []) == P.Outcome(p, Sends(next, acts))
    decreases |acts|
  {
    hide Links, Deliver, P.Outcome, P.Say;
    if acts == [] {
      return p, next;
    }
    var a := acts[0];
    var after := Act(cs, c, net, a);
    if a.Say? {
      if |a.msg| <= MSG_MAX {
        var r: P.Sent := P.SendRec(next, a.rcmd, a.stream, a.msg);
        StepSay(cs, c, net, p, inbox, next, a);
        q, next' := Replay(cs, c, after, P.Say(p, r), inbox, Incr(next), acts[1..]);
        P.SayKeeps(p, r, Sends(Incr(next), acts[1..]));
      } else {
        assert after == net by {
          assert net.flight + [] == net.flight && net.nodes[c.addrs[0] := net.nodes[c.addrs[0]]] == net.nodes;
        }
        q, next' := Replay(cs, c, after, p, inbox, next, acts[1..]);
      }
    } else if net.flight == [] {
      q, next' := Replay(cs, c, after, p, inbox, next, acts[1..]);
    } else {
      var mid := StepTick(cs, c, net, p, inbox, next, Oldest(net.flight, a.pick % |net.flight|));
      q, next' := Replay(cs, c, after, mid, inbox, next, acts[1..]);
    }
  }

  /** An idle circuit: nothing in flight, hop i at sequence mark marks[i]. */
  ghost predicate Established(c: Chain, net: Net, marks: seq<u32>) {
    && c.Valid() && |marks| == c.N() && net.flight == []
    && (forall k :: 0 <= k < |c.addrs| ==> c.addrs[k] in net.nodes && c.cid in net.nodes[c.addrs[k]].circuits)
    && net.nodes[c.addrs[0]].circuits[c.cid] == c.Origin()
    && (forall k :: 0 < k < |c.addrs| ==> net.nodes[c.addrs[k]].circuits[c.cid] == c.Hop(k - 1, marks[k - 1]))
  }

  function Empties(n: nat): (q: seq<seq<P.Sent>>)
    ensures |q| == n && forall i :: 0 <= i < n ==> q[i] == []
  {
    seq(n, _ => [])
  }

  lemma EstablishedRelated(cs: Suite, c: Chain, net: Net, marks: seq<u32>)
    requires Established(c, net, marks)
    ensures var p := P.Pipe(Empties(c.N()), marks, Empties(c.N()), []);
            var o := net.nodes[c.addrs[0]];
            Related(cs, c, net, p, o.inbox, o.seqOrigin) && P.Drained(p)
  {
    var p := P.Pipe(Empties(c.N()), marks, Empties(c.N()), []);
    forall i | 0 <= i < c.N()
      ensures FwdLink(cs, c, net.flight, p, i) && BwdLink(cs, c, net.flight, p, i)
    {
      assert FwdCells(cs, c, i, []) == [] && BwdCells(cs, c, i, []) == [];
    }
    assert net.nodes[c.addrs[0]].inbox + [] == net.nodes[c.addrs[0]].inbox;
  }

  /** When nothing is in flight the pipe is drained. */
  lemma QuietIsDrained(cs: Suite, c: Chain, net: Net, p: P.Pipe, inbox: seq<Delivery>, next: u32)
    requires Related(cs, c, net, p, inbox, next) && net.flight == []
    ensures P.Drained(p)
  {
    forall i | 0 <= i < |p.fwd|
      ensures p.fwd[i] == [] && p.bwd[i] == []
    {
      assert FwdLink(cs, c, net.flight, p, i) && BwdLink(cs, c, net.flight, p, i);
      assert |FwdCells(cs, c, i, p.fwd[i])| == 0 && |BwdCells(cs, c, i, p.bwd[i])| == 0;
    }
  }

  /** The replies a list of sends is owed, given the hops' sequence marks. */
  ghost function Owed(c: Chain, marks: seq<u32>, sends: seq<P.Sent>): seq<Delivery> {
    Delivered(c, P.Echoes(P.Passed(P.MaxOf(marks), sends)))
  }

  /** A pipe whose outcome is that of an idle one has delivered a prefix of what is owed, and all of it once drained. */
  lemma OwedArrives(cs: Suite, c: Chain, end: Net, marks: seq<u32>, p: P.Pipe, q: P.Pipe, inbox: seq<Delivery>, next: u32,
                    sends: seq<P.Sent>)
    requires p.Valid() && P.Drained(p) && p.got == [] && p.last == marks
    requires Related(cs, c, end, q, inbox, next) && P.Outcome(q, []) == P.Outcome(p, sends)
    ensures c.addrs != [] && c.addrs[0] in end.nodes
    ensures var got, owed := end.nodes[c.addrs[0]].inbox, inbox + Owed(c, marks, sends);
            got <= owed && (end.flight == [] ==> got == owed)
  {
    OriginReceived(cs, c, end, q, inbox, next);
    hide Related, Delivered, P.Outcome, P.Echoes, P.Passed, P.Drained;
    P.IdleOutcome(p, sends);
    var final := P.Echoes(P.Passed(P.MaxOf(marks), sends));
    assert p.got + final == final;
    OutcomeStartsWithGot(q);
    var rest := final[|q.got|..];
    assert final == q.got + rest;
    DeliveredAppend(c, q.got, rest);
    Regroup(inbox, Delivered(c, q.got), Delivered(c, rest));
    if end.flight == [] {
      QuietIsDrained(cs, c, end, q, inbox, next);
      P.DrainedOutcome(q);
    }
  }

  lemma OriginReceived(cs: Suite, c: Chain, net: Net, p: P.Pipe, inbox: seq<Delivery>, next: u32)
    requires Related(cs, c, net, p, inbox, next)
    ensures p.Valid() && c.addrs != [] && c.addrs[0] in net.nodes
    ensures net.nodes[c.addrs[0]].inbox == inbox + Delivered(c, p.got)
  {
    hide Links, Delivered;
  }

  /**
   Echo delivery: on an established circuit, for every interleaving of sends with FIFO
   deliveries, the origin's streams have at every moment received a prefix of the replies
   owed, and once nothing is in flight exactly those: the ECHO messages, unchanged and in
   order, among the sends that a monotonic sequence check passes.
   */
  lemma EchoDelivery(cs: Suite, c: Chain, net: Net, marks: seq<u32>, acts: seq<Action>)
    requires Established(c, net, marks)
    ensures var o, end := net.nodes[c.addrs[0]], Play(cs, c, net, acts);
            && c.addrs[0] in end.nodes
            && var got, owed := end.nodes[c.addrs[0]].inbox, o.inbox + Owed(c, marks, Sends(o.seqOrigin, acts));
               got <= owed && (end.flight == [] ==> got == owed)
  {
    hide Links, Play, P.Outcome, Sends, Owed;
    var o := net.nodes[c.addrs[0]];
    var p := P.Pipe(Empties(c.N()), marks, Empties(c.N()), []);
    EstablishedRelated(cs, c, net, marks);
    var q, next := Replay(cs, c, net, p, o.inbox, o.seqOrigin, acts);
    OwedArrives(cs, c, Play(cs, c, net, acts), marks, p, q, o.inbox, next, Sends(o.seqOrigin, acts));
  }

  lemma OutcomeStartsWithGot(q: P.Pipe)
    requires q.Valid()
    ensures q.got <= P.Outcome(q, [])
  {
  }

  /** And the wait is finite: deliveries alone empty the network within `Remaining` steps. */
  lemma {:induction false} TicksDrain(cs: Suite, c: Chain, net: Net, p: P.Pipe, inbox: seq<Delivery>, next: u32,
                                      acts: seq<Action>)
    requires Related(cs, c, net, p, inbox, next)
    requires |acts| >= P.Remaining(p) && forall k :: 0 <= k < |acts| ==> acts[k].Tick?
    ensures Play(cs, c, net, acts).flight == []
    decreases |acts|
  {
    hide Links, Deliver, P.Remaining;
    if net.flight != [] {
      if acts == [] {
        StillRemaining(cs, c, net, p, inbox, next);
      } else {
        var q := StepTick(cs, c, net, p, inbox, next, Oldest(net.flight, acts[0].pick % |net.flight|));
        TicksDrain(cs, c, Act(cs, c, net, acts[0]), q, inbox, next, acts[1..]);
      }
    } else if acts != [] {
      TicksIdle(cs, c, net, acts);
    }
  }

  lemma StillRemaining(cs: Suite, c: Chain, net: Net, p: P.Pipe, inbox: seq<Delivery>, next: u32)
    requires Related(cs, c, net, p, inbox, next) && net.flight != []
    ensures P.Remaining(p) > 0
  {
    hide Links, Deliver;
    var q := StepTick(cs, c, net, p, inbox, next, Oldest(net.flight, 0));
  }

  lemma {:induction false} TicksIdle(cs: Suite, c: Chain, net: Net, acts: seq<Action>)
    requires |c.addrs| > 0 && c.addrs[0] in net.nodes && net.flight == []
    requires forall k :: 0 <= k < |acts| ==> acts[k].Tick?
    ensures Play(cs, c, net, acts) == net
    decreases |acts|
  {
    if acts != [] {
      TicksIdle(cs, c, net, acts[1..]);
    }
  }

  /** The cells the next action of a run would put on the wire. */
  function Emitted(cs: Suite, c: Chain, net: Net, a: Action): seq<Packet>
    requires |c.addrs| > 0 && c.addrs[0] in net.nodes
  {
    match a
    case Say(stream, rcmd, msg) => SendChecked(cs, net.nodes[c.addrs[0]], c.Handle(), stream, rcmd, msg).2
    case Tick(pick) =>
      if net.flight == [] then []
      else
        var m := net.flight[Oldest(net.flight, pick % |net.flight|)];
        if m.dst in net.nodes then HandleCell(cs, net.nodes[m.dst], m.src, m.cell).1 else []
  }

  lemma EmittedFits(cs: Suite, c: Chain, net: Net, p: P.Pipe, inbox: seq<Delivery>, next: u32, a: Action)
    requires Related(cs, c, net, p, inbox, next)
    ensures forall x :: x in Emitted(cs, c, net, a) ==> Fits(x.cell)
  {
    hide HandleCell, FwdCell, BwdCell, Links, Nodes, SealedFwd;
    if a.Say? {
      if |a.msg| <= MSG_MAX {
        var r: P.Sent := P.SendRec(next, a.rcmd, a.stream, a.msg);
        CellsFit(cs, c, 0, r);
        FirstCell(cs, c, r);
        OriginHolds(c, net.nodes, p, inbox, next);
      }
    } else if net.flight != [] {
      var h := Oldest(net.flight, a.pick % |net.flight|);
      var i := LinkOf(cs, c, net.flight, p, h);
      if OnForward(c, net.flight[h], i) {
        TakeForward(cs, c, net.flight, p, i, h);
        HopHolds(c, net.nodes, p, inbox, next, i);
        var r := p.fwd[i][0];
        ForwardAtHop(cs, c, i, p.last[i], net.nodes[c.addrs[i + 1]], r);
        CellsFit(cs, c, i + 1, r);
        CellsFit(cs, c, i, r);
      } else {
        TakeBackward(cs, c, net.flight, p, i, h);
        var r := p.bwd[i][0];
        if i == 0 {
          OriginHolds(c, net.nodes, p, inbox, next);
          BackwardAtOrigin(cs, c, net.nodes[c.addrs[0]], r);
        } else {
          HopHolds(c, net.nodes, p, inbox, next, i - 1);
          BackwardAtRelay(cs, c, i, p.last[i - 1], net.nodes[c.addrs[i]], r);
          CellsFit(cs, c, i - 1, r);
        }
      }
    }
  }

  lemma OriginHolds(c: Chain, nodes: map<SocketAddr, NodeState>, p: P.Pipe, inbox: seq<Delivery>, next: u32)
    requires Shaped(c, p) && Nodes(c, nodes, p, inbox, next)
    ensures c.addrs[0] in nodes && c.cid in nodes[c.addrs[0]].circuits
    ensures nodes[c.addrs[0]].circuits[c.cid] == c.Origin() && nodes[c.addrs[0]].seqOrigin == next
  {
  }

  /** No cell of an honest run is ever too large to encode: not at the origin, not at any hop, in either direction. */
  lemma HonestCellsFit(cs: Suite, c: Chain, net: Net, marks: seq<u32>, acts: seq<Action>, next: Action)
    requires Established(c, net, marks)
    ensures var end := Play(cs, c, net, acts);
            && c.addrs[0] in end.nodes
            && forall x :: x in Emitted(cs, c, end, next) ==> Fits(x.cell)
  {
    hide Links, Play, Emitted, P.Outcome;
    var o := net.nodes[c.addrs[0]];
    EstablishedRelated(cs, c, net, marks);
    var q, drawn := Replay(cs, c, net, P.Pipe(Empties(c.N()), marks, Empties(c.N()), []), o.inbox, o.seqOrigin, acts);
    EmittedFits(cs, c, Play(cs, c, net, acts), q, o.inbox, drawn, next);
  }

  // ---- which sends pass ----

  /**
   Every send gets through exactly when the origin's counter is above every hop's mark
   and does not wrap around during the run.
   */
  lemma {:induction false} AllPassExactly(mark: u32, next: u32, acts: seq<Action>)
    ensures var s := Sends(next, acts);
            P.Passed(mark, s) == s <==> s == [] || (mark < next && next + |s| <= 0x1_0000_0000)
    decreases |acts|
  {
    if acts != [] {
      if acts[0].Say? && |acts[0].msg| <= MSG_MAX {
        var r: P.Sent := P.SendRec(next, acts[0].rcmd, acts[0].stream, acts[0].msg);
        var rest := Sends(Incr(next), acts[1..]);
        assert Sends(next, acts) == [r] + rest && ([r] + rest)[1..] == rest;
        AllPassExactly(next, Incr(next), acts[1..]);
        P.PassedShorter(mark, rest);
      } else {
        AllPassExactly(mark, next, acts[1..]);
      }
    }
  }
}
