/**
 An established circuit over links that lose, duplicate and reorder. Whatever is delivered
 is, unchanged, a message the origin sent as an ECHO. Numbers are checked on the way out
 but not on the way back, so nothing is delivered twice as long as no cell is copied on
 its way back, and any cell that is copied there may be.
 */
module Duplicates {
  import opened Wrappers
  import opened Octets
  import opened Crypto
  import opened Identity
  import opened Onion
  import opened Cells
  import opened Engine
  import opened Network
  import opened Echo

  datatype Fate =
    | Send(stream: u16, rcmd: RCmd, msg: Bytes)
    | Arrive(j: nat)
    | Lose(j: nat)
    | Duplicate(j: nat)

  function Suffer(cs: Suite, c: Chain, net: Net, f: Fate): Net
    requires |c.addrs| > 0 && c.addrs[0] in net.nodes
  {
    match f
    case Send(stream, rcmd, msg) => Act(cs, c, net, Say(stream, rcmd, msg))
    case Arrive(j) => if j < |net.flight| then Deliver(cs, net, j) else net
    case Lose(j) => if j < |net.flight| then Net(net.nodes, Without(net.flight, j)) else net
    case Duplicate(j) => if j < |net.flight| then Net(net.nodes, net.flight + [net.flight[j]]) else net
  }

  function SufferAll(cs: Suite, c: Chain, net: Net, fates: seq<Fate>): Net
    requires |c.addrs| > 0 && c.addrs[0] in net.nodes
    decreases |fates|
  {
    if fates == [] then net else SufferAll(cs, c, Suffer(cs, c, net, fates[0]), fates[1..])
  }

  /** The messages a run sends. */
  function Said(next: u32, fates: seq<Fate>): seq<P.Sent>
    decreases |fates|
  {
    if fates == [] then []
    else if fates[0].Send? && |fates[0].msg| <= MSG_MAX then
      [P.SendRec(next, fates[0].rcmd, fates[0].stream, fates[0].msg)] + Said(Incr(next), fates[1..])
    else Said(next, fates[1..])
  }

  /** A message the origin sent, on its way into hop i, or, if an ECHO, its reply on the way out of hop i. */
  ghost predicate Genuine(cs: Suite, c: Chain, said: seq<P.Sent>, m: Msg) {
    c.Valid() && exists r, i: nat :: r in said && i < c.N() && IsLeg(cs, c, r, i, m)
  }

  ghost predicate IsLeg(cs: Suite, c: Chain, r: P.Sent, i: nat, m: Msg)
    requires c.Valid() && i < c.N()
  {
    || (OnForward(c, m, i) && m.cell == FwdCell(cs, c, i, r))
    || (r.rcmd.Echo? && OnBackward(c, m, i) && m.cell == BwdCell(cs, c, i, r))
  }

  /** The nodes hold the circuit, at whatever marks. */
  ghost predicate Hold(c: Chain, nodes: map<SocketAddr, NodeState>, next: u32) {
    && c.Valid()
    && (forall k :: 0 <= k < |c.addrs| ==> c.addrs[k] in nodes && c.cid in nodes[c.addrs[k]].circuits)
    && nodes[c.addrs[0]].circuits[c.cid] == c.Origin() && nodes[c.addrs[0]].seqOrigin == next
    && (forall k :: 0 < k < |c.addrs| ==> HoldsAt(c, nodes[c.addrs[k]], k - 1))
  }

  ghost predicate HoldsAt(c: Chain, s: NodeState, i: nat)
    requires c.Valid() && i < c.N()
  {
    && c.cid in s.circuits && !s.circuits[c.cid].OriginEntry?
    && s.circuits[c.cid] == c.Hop(i, s.circuits[c.cid].lastFwd)
  }

  ghost predicate AllGenuine(cs: Suite, c: Chain, said: seq<P.Sent>, flight: seq<Msg>) {
    forall k :: 0 <= k < |flight| ==> Genuine(cs, c, said, flight[k])
  }

  /** Replies to ECHO messages among those said. */
  predicate Echoed(said: seq<P.Sent>, got: seq<P.Sent>) {
    forall r :: r in got ==> r in said && r.rcmd.Echo?
  }

  lemma OneGenuine(cs: Suite, c: Chain, said: seq<P.Sent>, r: P.Sent, i: nat, m: Msg)
    requires c.Valid() && r in said && i < c.N() && IsLeg(cs, c, r, i, m)
    ensures AllGenuine(cs, c, said, [m])
  {
    hide IsLeg;
    assert Genuine(cs, c, said, m);
  }

  lemma ForwardLegIs(cs: Suite, c: Chain, said: seq<P.Sent>, r: P.Sent, i: nat)
    requires c.Valid() && r in said && i < c.N()
    ensures AllGenuine(cs, c, said, [Msg(c.addrs[i], c.addrs[i + 1], FwdCell(cs, c, i, r))])
  {
    hide FwdCell, BwdCell;
    OneGenuine(cs, c, said, r, i, Msg(c.addrs[i], c.addrs[i + 1], FwdCell(cs, c, i, r)));
  }

  lemma BackwardLegIs(cs: Suite, c: Chain, said: seq<P.Sent>, r: P.Sent, i: nat)
    requires c.Valid() && r in said && r.rcmd.Echo? && i < c.N()
    ensures AllGenuine(cs, c, said, [Msg(c.addrs[i + 1], c.addrs[i], BwdCell(cs, c, i, r))])
  {
    hide FwdCell, BwdCell;
    OneGenuine(cs, c, said, r, i, Msg(c.addrs[i + 1], c.addrs[i], BwdCell(cs, c, i, r)));
  }

  /** Genuine cells stay genuine as more is said. */
  lemma GenuineGrows(cs: Suite, c: Chain, said: seq<P.Sent>, more: seq<P.Sent>, m: Msg)
    requires Genuine(cs, c, said, m)
    ensures Genuine(cs, c, said + more, m)
  {
    hide IsLeg;
    var r, i: nat :| r in said && i < c.N() && IsLeg(cs, c, r, i, m);
    assert r in said + more;
  }

  // ---- counting replies ----

  /** A cell on its way back. */
  ghost predicate IsReply(c: Chain, m: Msg) {
    exists i: nat | i + 1 < |c.addrs| :: OnBackward(c, m, i)
  }

  /** The number a cell on its way back carries. */
  ghost function Number(c: Chain, m: Msg): Option<u32> {
    var p := ParseRelay(m.cell.payload);
    if IsReply(c, m) && p.Some? then Some(p.value.seqNo) else None
  }

  /** How many cells on their way back carry number q. */
  ghost function Replies(c: Chain, q: u32, flight: seq<Msg>): nat {
    if flight == [] then 0 else (if Number(c, flight[0]) == Some(q) then 1 else 0) + Replies(c, q, flight[1..])
  }

  /** How often number q has been delivered. */
  function Times(q: u32, got: seq<P.Sent>): nat {
    if got == [] then 0 else (if got[0].seqNo == q then 1 else 0) + Times(q, got[1..])
  }

  lemma {:induction false} RepliesAppend(c: Chain, q: u32, a: seq<Msg>, b: seq<Msg>)
    ensures Replies(c, q, a + b) == Replies(c, q, a) + Replies(c, q, b)
  {
    if a == [] {
      assert a + b == b;
    } else {
      assert (a + b)[1..] == a[1..] + b;
      RepliesAppend(c, q, a[1..], b);
    }
  }

  lemma {:induction false} TimesAppend(q: u32, a: seq<P.Sent>, b: seq<P.Sent>)
    ensures Times(q, a + b) == Times(q, a) + Times(q, b)
  {
    if a == [] {
      assert a + b == b;
    } else {
      assert (a + b)[1..] == a[1..] + b;
      TimesAppend(q, a[1..], b);
    }
  }

  lemma RepliesOne(c: Chain, q: u32, m: Msg)
    ensures Replies(c, q, [m]) == if Number(c, m) == Some(q) then 1 else 0
  {
    assert [m][1..] == [];
  }

  lemma RepliesWithout(c: Chain, q: u32, flight: seq<Msg>, j: nat)
    requires j < |flight|
    ensures Replies(c, q, flight) == Replies(c, q, Without(flight, j)) + Replies(c, q, [flight[j]])
  {
    assert flight == flight[..j] + ([flight[j]] + flight[j + 1..]);
    assert Without(flight, j) == flight[..j] + flight[j + 1..];
    RepliesAppend(c, q, flight[..j], [flight[j]] + flight[j + 1..]);
    RepliesAppend(c, q, [flight[j]], flight[j + 1..]);
    RepliesAppend(c, q, flight[..j], flight[j + 1..]);
  }

  /** No link is both a forward and a backward one. */
  lemma ForwardIsNoReply(c: Chain, m: Msg, i: nat)
    requires c.Valid() && i < c.N() && OnForward(c, m, i)
    ensures Number(c, m).None?
  {
  }

  lemma ReplyNumber(cs: Suite, c: Chain, m: Msg, r: P.Sent, i: nat)
    requires c.Valid() && i < c.N() && OnBackward(c, m, i) && m.cell == BwdCell(cs, c, i, r)
    ensures Number(c, m) == Some(r.seqNo)
  {
    hide ParseRelay, RelayBytes, SealedBwd;
    var reply := RelayMsg(r.seqNo, r.rcmd, r.stream, SealedBwd(cs, c.bwd[i..], c.tag, r.seqNo, r.msg));
    ParseRelayExactly(RelayBytes(reply), reply);
  }

  /** The terminal's sequence mark. */
  ghost function LastMark(c: Chain, nodes: map<SocketAddr, NodeState>): u32 {
    if c.Valid() && c.addrs[c.N()] in nodes && c.cid in nodes[c.addrs[c.N()]].circuits
       && !nodes[c.addrs[c.N()]].circuits[c.cid].OriginEntry?
    then nodes[c.addrs[c.N()]].circuits[c.cid].lastFwd
    else 0
  }

  /**
   Handling m makes as many replies and deliveries under a number as m was, and one more at
   most if the terminal's mark has just passed the number.
   */
  ghost predicate Fair(c: Chain, mark: u32, mark': u32, m: Msg, posted: seq<Msg>, got: seq<P.Sent>) {
    && mark <= mark'
    && forall q: u32 ::
         Replies(c, q, posted) + Times(q, got) <= Replies(c, q, [m]) + if mark < q <= mark' then 1 else 0
  }

  lemma FairOne(c: Chain, mark: u32, mark': u32, m: Msg, x: Msg)
    requires mark <= mark'
    requires Number(c, x).None? || Number(c, x) == Number(c, m) || (Number(c, x) == Some(mark') && mark < mark')
    ensures Fair(c, mark, mark', m, [x], [])
  {
    hide Number;
    forall q: u32
      ensures Replies(c, q, [x]) + Times(q, []) <= Replies(c, q, [m]) + if mark < q <= mark' then 1 else 0
    {
      RepliesOne(c, q, x);
      RepliesOne(c, q, m);
    }
  }

  lemma FairNothing(c: Chain, mark: u32, mark': u32, m: Msg)
    requires mark <= mark'
    ensures Fair(c, mark, mark', m, [], [])
  {
  }

  lemma FairHome(c: Chain, mark: u32, m: Msg, r: P.Sent)
    requires Number(c, m) == Some(r.seqNo)
    ensures Fair(c, mark, mark, m, [], [r])
  {
    hide Number;
    forall q: u32
      ensures Replies(c, q, []) + Times(q, [r]) <= Replies(c, q, [m])
    {
      RepliesOne(c, q, m);
      assert [r][1..] == [];
    }
  }

  /** Every number is in flight back home or delivered at most once, and not before the terminal has seen it. */
  ghost predicate Once(c: Chain, net: Net, got: seq<P.Sent>) {
    forall q: u32 :: Replies(c, q, net.flight) + Times(q, got) <= if q <= LastMark(c, net.nodes) then 1 else 0
  }

  lemma OnceArrives(c: Chain, net: Net, got: seq<P.Sent>, j: nat, nodes': map<SocketAddr, NodeState>,
                    posted: seq<Msg>, more: seq<P.Sent>)
    requires Once(c, net, got) && j < |net.flight|
    requires Fair(c, LastMark(c, net.nodes), LastMark(c, nodes'), net.flight[j], posted, more)
    ensures Once(c, Net(nodes', Without(net.flight, j) + posted), got + more)
  {
    hide LastMark, Replies, Times;
    forall q: u32
      ensures Replies(c, q, Without(net.flight, j) + posted) + Times(q, got + more)
              <= if q <= LastMark(c, nodes') then 1 else 0
    {
      RepliesWithout(c, q, net.flight, j);
      RepliesAppend(c, q, Without(net.flight, j), posted);
      TimesAppend(q, got, more);
    }
  }

  lemma OnceLoses(c: Chain, net: Net, got: seq<P.Sent>, j: nat)
    requires Once(c, net, got) && j < |net.flight|
    ensures Once(c, Net(net.nodes, Without(net.flight, j)), got)
  {
    hide LastMark, Replies, Times;
    forall q: u32
      ensures Replies(c, q, Without(net.flight, j)) + Times(q, got) <= if q <= LastMark(c, net.nodes) then 1 else 0
    {
      RepliesWithout(c, q, net.flight, j);
    }
  }

  /** Cells that are not on their way back may be put in flight at will. */
  lemma OncePuts(c: Chain, net: Net, got: seq<P.Sent>, nodes': map<SocketAddr, NodeState>, x: Msg)
    requires Once(c, net, got) && Number(c, x).None? && LastMark(c, nodes') == LastMark(c, net.nodes)
    ensures Once(c, Net(nodes', net.flight + [x]), got)
  {
    hide LastMark, Replies, Times, Number;
    forall q: u32
      ensures Replies(c, q, net.flight + [x]) + Times(q, got) <= if q <= LastMark(c, nodes') then 1 else 0
    {
      RepliesAppend(c, q, net.flight, [x]);
      RepliesOne(c, q, x);
    }
  }

  // ---- one cell arrives ----

  /** A genuine cell makes its receiver post genuine cells, keep the circuit, and deliver at most the message itself. */
  lemma LegArrives(cs: Suite, c: Chain, said: seq<P.Sent>, nodes: map<SocketAddr, NodeState>, next: u32,
                   m: Msg, r: P.Sent, i: nat) returns (got: seq<P.Sent>)
    requires Hold(c, nodes, next) && r in said && i < c.N() && IsLeg(cs, c, r, i, m)
    ensures m.dst in nodes
    ensures var (s', ps) := HandleCell(cs, nodes[m.dst], m.src, m.cell);
            && Hold(c, nodes[m.dst := s'], next)
            && AllGenuine(cs, c, said, Posted(m.dst, ps))
            && Fair(c, LastMark(c, nodes), LastMark(c, nodes[m.dst := s']), m, Posted(m.dst, ps), got)
            && Echoed(said, got)
            && nodes[m.dst := s'][c.addrs[0]].inbox == nodes[c.addrs[0]].inbox + Delivered(c, got)
  {
    HoldsOrigin(c, nodes, next);
    hide HandleCell, FwdCell, BwdCell, Hold, Genuine, LastMark, Fair;
    if OnForward(c, m, i) && m.cell == FwdCell(cs, c, i, r) {
      got := ForwardLeg(cs, c, said, nodes, next, m, r, i);
    } else if i == 0 {
      got := HomeLeg(cs, c, said, nodes, next, m, r);
    } else {
      got := BackwardLeg(cs, c, said, nodes, next, m, r, i);
    }
  }

  lemma NothingDelivered(c: Chain, inbox: seq<Delivery>)
    ensures inbox + Delivered(c, []) == inbox
  {
  }

  lemma ForwardLeg(cs: Suite, c: Chain, said: seq<P.Sent>, nodes: map<SocketAddr, NodeState>, next: u32,
                   m: Msg, r: P.Sent, i: nat) returns (got: seq<P.Sent>)
    requires Hold(c, nodes, next) && r in said && i < c.N() && OnForward(c, m, i) && m.cell == FwdCell(cs, c, i, r)
    ensures m.dst in nodes && got == []
    ensures var (s', ps) := HandleCell(cs, nodes[m.dst], m.src, m.cell);
            && Hold(c, nodes[m.dst := s'], next)
            && AllGenuine(cs, c, said, Posted(m.dst, ps))
            && Fair(c, LastMark(c, nodes), LastMark(c, nodes[m.dst := s']), m, Posted(m.dst, ps), got)
            && nodes[m.dst := s'][c.addrs[0]].inbox == nodes[c.addrs[0]].inbox + Delivered(c, got)
  {
    HopKept(c, nodes, next, i, r.seqNo);
    MarkOfHop(c, nodes, i, r.seqNo);
    hide HandleCell, FwdCell, BwdCell, Hold, Genuine, LastMark, Fair, Delivered, IsReply, Replies, Times;
    got := [];
    var s := nodes[c.addrs[i + 1]];
    var mark := LastMark(c, nodes);
    ForwardAtHop(cs, c, i, s.circuits[c.cid].lastFwd, s, r);
    NothingDelivered(c, nodes[c.addrs[0]].inbox);
    if r.seqNo <= s.circuits[c.cid].lastFwd {
      assert nodes[m.dst := s] == nodes;
      FairNothing(c, mark, mark, m);
    } else {
      OnwardFair(cs, c, said, m, r, i, mark);
      if i + 1 < c.N() {
        CellsFit(cs, c, i + 1, r);
        PostedOne(m.dst, Packet(c.addrs[i + 2], FwdCell(cs, c, i + 1, r)));
      } else if r.rcmd.Echo? {
        CellsFit(cs, c, i, r);
        PostedOne(m.dst, Packet(c.addrs[i], BwdCell(cs, c, i, r)));
      }
    }
  }

  /** What an accepted message becomes is genuine, and counts once if it is now a reply. */
  lemma OnwardFair(cs: Suite, c: Chain, said: seq<P.Sent>, m: Msg, r: P.Sent, i: nat, mark: u32)
    requires c.Valid() && i < c.N() && r in said && (i + 1 == c.N() ==> mark < r.seqNo)
    ensures AllGenuine(cs, c, said, Onward(cs, c, i, r))
    ensures Fair(c, mark, if i + 1 == c.N() then r.seqNo else mark, m, Onward(cs, c, i, r), [])
  {
    hide FwdCell, BwdCell, Genuine, Number, Fair;
    if i + 1 < c.N() {
      var x := Msg(c.addrs[i + 1], c.addrs[i + 2], FwdCell(cs, c, i + 1, r));
      ForwardLegIs(cs, c, said, r, i + 1);
      ForwardIsNoReply(c, x, i + 1);
      FairOne(c, mark, mark, m, x);
    } else if r.rcmd.Echo? {
      var x := Msg(c.addrs[i + 1], c.addrs[i], BwdCell(cs, c, i, r));
      BackwardLegIs(cs, c, said, r, i);
      ReplyNumber(cs, c, x, r, i);
      FairOne(c, mark, r.seqNo, m, x);
    } else {
      FairNothing(c, mark, r.seqNo, m);
    }
  }

  /** Hop i holds its entry, and moving its mark keeps the circuit. */
  lemma HopKept(c: Chain, nodes: map<SocketAddr, NodeState>, next: u32, i: nat, mark: u32)
    requires Hold(c, nodes, next) && i < c.N()
    ensures c.addrs[i + 1] in nodes && HoldsAt(c, nodes[c.addrs[i + 1]], i) && c.addrs[0] in nodes
    ensures var s := nodes[c.addrs[i + 1]];
            var after := nodes[c.addrs[i + 1] := s.(circuits := s.circuits[c.cid := c.Hop(i, mark)])];
            Hold(c, after, next) && after[c.addrs[0]] == nodes[c.addrs[0]]
  {
    assert HoldsAt(c, nodes[c.addrs[i + 1]], (i + 1) - 1);
  }

  /** Only the terminal's own mark is the last mark. */
  lemma MarkOfHop(c: Chain, nodes: map<SocketAddr, NodeState>, i: nat, mark: u32)
    requires c.Valid() && i < c.N() && c.addrs[i + 1] in nodes && HoldsAt(c, nodes[c.addrs[i + 1]], i)
    ensures var s := nodes[c.addrs[i + 1]];
            var after := nodes[c.addrs[i + 1] := s.(circuits := s.circuits[c.cid := c.Hop(i, mark)])];
            && LastMark(c, after) == (if i + 1 == c.N() then mark else LastMark(c, nodes))
            && (i + 1 == c.N() ==> LastMark(c, nodes) == s.circuits[c.cid].lastFwd)
  {
  }

  lemma BackwardLeg(cs: Suite, c: Chain, said: seq<P.Sent>, nodes: map<SocketAddr, NodeState>, next: u32,
                    m: Msg, r: P.Sent, i: nat) returns (got: seq<P.Sent>)
    requires Hold(c, nodes, next) && r in said && r.rcmd.Echo? && 0 < i < c.N()
    requires OnBackward(c, m, i) && m.cell == BwdCell(cs, c, i, r)
    ensures m.dst in nodes && got == []
    ensures var (s', ps) := HandleCell(cs, nodes[m.dst], m.src, m.cell);
            && Hold(c, nodes[m.dst := s'], next)
            && AllGenuine(cs, c, said, Posted(m.dst, ps))
            && Fair(c, LastMark(c, nodes), LastMark(c, nodes[m.dst := s']), m, Posted(m.dst, ps), got)
            && nodes[m.dst := s'][c.addrs[0]].inbox == nodes[c.addrs[0]].inbox + Delivered(c, got)
  {
    hide HandleCell, FwdCell, BwdCell, Genuine, LastMark, Number, Fair;
    got := [];
    var s := nodes[c.addrs[i]];
    assert HoldsAt(c, s, i - 1);
    BackwardAtRelay(cs, c, i, s.circuits[c.cid].lastFwd, s, r);
    assert nodes[m.dst := s] == nodes;
    NothingDelivered(c, nodes[c.addrs[0]].inbox);
    var x := Msg(m.dst, c.addrs[i - 1], BwdCell(cs, c, i - 1, r));
    CellsFit(cs, c, i - 1, r);
    PostedOne(m.dst, Packet(x.dst, x.cell));
    BackwardLegIs(cs, c, said, r, i - 1);
    ReplyNumber(cs, c, m, r, i);
    ReplyNumber(cs, c, x, r, i - 1);
    FairOne(c, LastMark(c, nodes), LastMark(c, nodes), m, x);
  }

  lemma HomeLeg(cs: Suite, c: Chain, said: seq<P.Sent>, nodes: map<SocketAddr, NodeState>, next: u32,
                m: Msg, r: P.Sent) returns (got: seq<P.Sent>)
    requires Hold(c, nodes, next) && r in said && r.rcmd.Echo? && OnBackward(c, m, 0) && m.cell == BwdCell(cs, c, 0, r)
    ensures m.dst in nodes && got == [r]
    ensures var (s', ps) := HandleCell(cs, nodes[m.dst], m.src, m.cell);
            && Hold(c, nodes[m.dst := s'], next) && ps == []
            && AllGenuine(cs, c, said, Posted(m.dst, ps))
            && Fair(c, LastMark(c, nodes), LastMark(c, nodes[m.dst := s']), m, Posted(m.dst, ps), got)
            && nodes[m.dst := s'][c.addrs[0]].inbox == nodes[c.addrs[0]].inbox + Delivered(c, got)
  {
    hide HandleCell, FwdCell, BwdCell, LastMark, Number, Fair;
    got := [r];
    BackwardAtOrigin(cs, c, nodes[c.addrs[0]], r);
    ReplyNumber(cs, c, m, r, 0);
    OriginKeepsMark(c, nodes, HandleCell(cs, nodes[m.dst], m.src, m.cell).0);
    FairHome(c, LastMark(c, nodes), m, r);
  }

  lemma OriginKeepsMark(c: Chain, nodes: map<SocketAddr, NodeState>, o: NodeState)
    requires c.Valid()
    ensures LastMark(c, nodes[c.addrs[0] := o]) == LastMark(c, nodes)
  {
  }

  // ---- runs ----

  /** What is in flight is genuine and what has arrived is echoes of messages said. */
  ghost predicate Sound(cs: Suite, c: Chain, net: Net, said: seq<P.Sent>, next: u32, inbox: seq<Delivery>,
                        got: seq<P.Sent>)
  {
    && Hold(c, net.nodes, next) && AllGenuine(cs, c, said, net.flight)
    && Echoed(said, got) && net.nodes[c.addrs[0]].inbox == inbox + Delivered(c, got)
  }

  /** Sending draws a number and puts one cell on the first link. */
  lemma SendPuts(cs: Suite, c: Chain, net: Net, next: u32, r: P.Sent)
    requires Hold(c, net.nodes, next) && r.seqNo == next
    ensures var o := net.nodes[c.addrs[0]].(seqOrigin := Incr(next));
            && Suffer(cs, c, net, Send(r.stream, r.rcmd, r.msg))
               == Net(net.nodes[c.addrs[0] := o], net.flight + [Msg(c.addrs[0], c.addrs[1], FwdCell(cs, c, 0, r))])
            && Hold(c, net.nodes[c.addrs[0] := o], Incr(next))
  {
    hide FwdCell, BwdCell;
    CellsFit(cs, c, 0, r);
    FirstCell(cs, c, r);
    PostedOne(c.addrs[0], Packet(c.addrs[1], FwdCell(cs, c, 0, r)));
  }

  lemma RefusedChangesNothing(cs: Suite, c: Chain, net: Net, next: u32, stream: u16, rcmd: RCmd, msg: Bytes)
    requires Hold(c, net.nodes, next) && |msg| > MSG_MAX
    ensures Suffer(cs, c, net, Send(stream, rcmd, msg)) == net
  {
    assert net.flight + [] == net.flight && net.nodes[c.addrs[0] := net.nodes[c.addrs[0]]] == net.nodes;
  }

  lemma SendKeepsOnce(cs: Suite, c: Chain, net: Net, next: u32, got: seq<P.Sent>, r: P.Sent)
    requires Hold(c, net.nodes, next)
    ensures var o := net.nodes[c.addrs[0]].(seqOrigin := Incr(next));
            Once(c, net, got) ==>
              Once(c, Net(net.nodes[c.addrs[0] := o], net.flight + [Msg(c.addrs[0], c.addrs[1], FwdCell(cs, c, 0, r))]), got)
  {
    HoldsOrigin(c, net.nodes, next);
    hide FwdCell, Hold, Once, Number, LastMark;
    var x, o := Msg(c.addrs[0], c.addrs[1], FwdCell(cs, c, 0, r)), net.nodes[c.addrs[0]].(seqOrigin := Incr(next));
    ForwardIsNoReply(c, x, 0);
    OriginKeepsMark(c, net.nodes, o);
    if Once(c, net, got) {
      OncePuts(c, net, got, net.nodes[c.addrs[0] := o], x);
    }
  }

  /** What was genuine, and the first cell of a message just said. */
  lemma SaidIsGenuine(cs: Suite, c: Chain, said: seq<P.Sent>, flight: seq<Msg>, r: P.Sent)
    requires c.Valid() && AllGenuine(cs, c, said, flight)
    ensures AllGenuine(cs, c, said + [r], flight + [Msg(c.addrs[0], c.addrs[1], FwdCell(cs, c, 0, r))])
  {
    hide FwdCell, Genuine;
    assert r in said + [r];
    ForwardLegIs(cs, c, said + [r], r, 0);
    forall k | 0 <= k < |flight|
      ensures Genuine(cs, c, said + [r], flight[k])
    {
      GenuineGrows(cs, c, said, [r], flight[k]);
    }
  }

  lemma SendKeeps(cs: Suite, c: Chain, net: Net, said: seq<P.Sent>, next: u32, inbox: seq<Delivery>, got: seq<P.Sent>,
                  r: P.Sent)
    requires Sound(cs, c, net, said, next, inbox, got) && r.seqNo == next
    ensures c.Valid() && c.addrs[0] in net.nodes
    ensures var after := Suffer(cs, c, net, Send(r.stream, r.rcmd, r.msg));
            && Sound(cs, c, after, said + [r], Incr(next), inbox, got)
            && (Once(c, net, got) ==> Once(c, after, got))
  {
    HoldsOrigin(c, net.nodes, next);
    hide FwdCell, Hold, AllGenuine, Suffer, Once, Delivered;
    SendPuts(cs, c, net, next, r);
    SendKeepsOnce(cs, c, net, next, got, r);
    SaidIsGenuine(cs, c, said, net.flight, r);
  }

  lemma ArriveKeeps(cs: Suite, c: Chain, net: Net, said: seq<P.Sent>, next: u32, inbox: seq<Delivery>, got: seq<P.Sent>,
                    j: nat)
    returns (more: seq<P.Sent>)
    requires Sound(cs, c, net, said, next, inbox, got) && j < |net.flight|
    ensures Sound(cs, c, Deliver(cs, net, j), said, next, inbox, got + more)
    ensures Once(c, net, got) ==> Once(c, Deliver(cs, net, j), got + more)
  {
    hide HandleCell, Hold, IsLeg, Once, Fair, LastMark, Deliver;
    var m := net.flight[j];
    assert Genuine(cs, c, said, m);
    var r, i: nat :| r in said && i < c.N() && IsLeg(cs, c, r, i, m);
    hide AllGenuine, Genuine;
    more := LegArrives(cs, c, said, net.nodes, next, m, r, i);
    var (s', ps) := HandleCell(cs, net.nodes[m.dst], m.src, m.cell);
    DeliverIs(cs, net, j, s', ps);
    StillGenuine(cs, c, said, net.flight, j, Posted(m.dst, ps));
    DeliveredAppend(c, got, more);
    assert inbox + Delivered(c, got) + Delivered(c, more) == inbox + Delivered(c, got + more);
    if Once(c, net, got) {
      OnceArrives(c, net, got, j, net.nodes[m.dst := s'], Posted(m.dst, ps), more);
    }
  }

  lemma StillGenuine(cs: Suite, c: Chain, said: seq<P.Sent>, flight: seq<Msg>, j: nat, posted: seq<Msg>)
    requires AllGenuine(cs, c, said, flight) && AllGenuine(cs, c, said, posted) && j < |flight|
    ensures AllGenuine(cs, c, said, Without(flight, j) + posted)
  {
    hide Genuine;
  }

  lemma DeliverIs(cs: Suite, net: Net, j: nat, s': NodeState, ps: seq<Packet>)
    requires j < |net.flight| && net.flight[j].dst in net.nodes
    requires (s', ps) == HandleCell(cs, net.nodes[net.flight[j].dst], net.flight[j].src, net.flight[j].cell)
    ensures var m := net.flight[j];
            Deliver(cs, net, j) == Net(net.nodes[m.dst := s'], Without(net.flight, j) + Posted(m.dst, ps))
  {
  }

  /** No duplication of the run hits a cell on its way back. */
  ghost predicate NoReplyCopied(cs: Suite, c: Chain, net: Net, fates: seq<Fate>)
    requires |c.addrs| > 0 && c.addrs[0] in net.nodes
    decreases |fates|
  {
    fates == [] || (!CopiesReply(c, net, fates[0]) && NoReplyCopied(cs, c, Suffer(cs, c, net, fates[0]), fates[1..]))
  }

  ghost predicate CopiesReply(c: Chain, net: Net, f: Fate) {
    f.Duplicate? && f.j < |net.flight| && IsReply(c, net.flight[f.j])
  }

  /** Losing a cell, or copying one that is not on its way back. */
  lemma QuietKeepsOnce(cs: Suite, c: Chain, net: Net, got: seq<P.Sent>, f: Fate)
    requires |c.addrs| > 0 && c.addrs[0] in net.nodes
    requires Once(c, net, got) && !CopiesReply(c, net, f) && !f.Send? && !(f.Arrive? && f.j < |net.flight|)
    ensures Once(c, Suffer(cs, c, net, f), got)
  {
    hide Once, LastMark;
    if f.Lose? && f.j < |net.flight| {
      OnceLoses(c, net, got, f.j);
    } else if f.Duplicate? && f.j < |net.flight| {
      OncePuts(c, net, got, net.nodes, net.flight[f.j]);
    }
  }

  lemma {:induction false} RunSound(cs: Suite, c: Chain, net: Net, said: seq<P.Sent>, next: u32, inbox: seq<Delivery>,
                                    got: seq<P.Sent>, fates: seq<Fate>) returns (got': seq<P.Sent>, next': u32)
    requires Sound(cs, c, net, said, next, inbox, got)
    ensures c.addrs != [] && c.addrs[0] in net.nodes
    ensures var end := SufferAll(cs, c, net, fates);
            && Sound(cs, c, end, said + Said(next, fates), next', inbox, got')
            && (Once(c, net, got) && NoReplyCopied(cs, c, net, fates) ==> Once(c, end, got'))
    decreases |fates|
  {
    hide Deliver, Hold, Genuine, Act, Once, CopiesReply;
    HoldsOrigin(c, net.nodes, next);
    if fates == [] {
      assert said + [] == said;
      return got, next;
    }
    var f, after := fates[0], Suffer(cs, c, net, fates[0]);
    if f.Send? {
      if |f.msg| <= MSG_MAX {
        var r: P.Sent := P.SendRec(next, f.rcmd, f.stream, f.msg);
        SendKeeps(cs, c, net, said, next, inbox, got, r);
        got', next' := RunSound(cs, c, after, said + [r], Incr(next), inbox, got, fates[1..]);
        assert said + [r] + Said(Incr(next), fates[1..]) == said + Said(next, fates);
      } else {
        RefusedChangesNothing(cs, c, net, next, f.stream, f.rcmd, f.msg);
        got', next' := RunSound(cs, c, after, said, next, inbox, got, fates[1..]);
      }
    } else {
      var more := [];
      if f.Arrive? && f.j < |net.flight| {
        more := ArriveKeeps(cs, c, net, said, next, inbox, got, f.j);
      } else {
        assert got + [] == got;
        if Once(c, net, got) && !CopiesReply(c, net, f) {
          QuietKeepsOnce(cs, c, net, got, f);
        }
      }
      got', next' := RunSound(cs, c, after, said, next, inbox, got + more, fates[1..]);
    }
  }

  lemma StartSound(cs: Suite, c: Chain, net: Net, marks: seq<u32>)
    requires Established(c, net, marks)
    ensures var o := net.nodes[c.addrs[0]];
            Sound(cs, c, net, [], o.seqOrigin, o.inbox, []) && Once(c, net, [])
  {
    forall k | 0 < k < |c.addrs|
      ensures HoldsAt(c, net.nodes[c.addrs[k]], k - 1)
    {
      assert net.nodes[c.addrs[k]].circuits[c.cid] == c.Hop(k - 1, marks[k - 1]);
    }
    NothingDelivered(c, net.nodes[c.addrs[0]].inbox);
  }

  /**
   Whatever is lost, duplicated and reordered on an established circuit, the origin's
   streams receive nothing but, unchanged, messages it has sent as ECHO.
   */
  lemma OnlyEchoesArrive(cs: Suite, c: Chain, net: Net, marks: seq<u32>, fates: seq<Fate>) returns (got: seq<P.Sent>)
    requires Established(c, net, marks)
    ensures var o, end := net.nodes[c.addrs[0]], SufferAll(cs, c, net, fates);
            && c.addrs[0] in end.nodes
            && end.nodes[c.addrs[0]].inbox == o.inbox + Delivered(c, got)
            && Echoed(Said(o.seqOrigin, fates), got)
  {
    var o := net.nodes[c.addrs[0]];
    StartSound(cs, c, net, marks);
    var drawn: u32;
    hide Hold, Genuine, SufferAll, Once, NoReplyCopied;
    assert [] + Said(o.seqOrigin, fates) == Said(o.seqOrigin, fates);
    got, drawn := RunSound(cs, c, net, [], o.seqOrigin, o.inbox, [], fates);
    HoldsOrigin(c, SufferAll(cs, c, net, fates).nodes, drawn);
  }

  // ---- each message once ----

  predicate DistinctNumbers(got: seq<P.Sent>) {
    forall i, j :: 0 <= i < j < |got| ==> got[i].seqNo != got[j].seqNo
  }

  lemma {:induction false} TimesPositive(got: seq<P.Sent>, i: nat)
    requires i < |got|
    ensures Times(got[i].seqNo, got) > 0
  {
    if i > 0 {
      TimesPositive(got[1..], i - 1);
    }
  }

  lemma {:induction false} OnceEach(got: seq<P.Sent>)
    requires forall q: u32 :: Times(q, got) <= 1
    ensures DistinctNumbers(got)
  {
    if got != [] {
      forall q: u32
        ensures Times(q, got[1..]) <= 1
      {
        assert Times(q, got) <= 1;
      }
      OnceEach(got[1..]);
      forall j | 0 < j < |got|
        ensures got[0].seqNo != got[j].seqNo
      {
        TimesPositive(got[1..], j - 1);
        assert Times(got[0].seqNo, got) <= 1;
      }
    }
  }

  /** Different numbers, different messages: none is in `got` more often than it was said. */
  lemma {:induction false} DistinctAreFew(said: seq<P.Sent>, got: seq<P.Sent>)
    requires DistinctNumbers(got) && forall r :: r in got ==> r in said
    ensures multiset(got) <= multiset(said)
  {
    forall r | r in got
      ensures multiset(got)[r] <= multiset(said)[r]
    {
      AtMostOnce(got, r);
      assert r in multiset(said);
    }
  }

  lemma {:induction false} AtMostOnce(got: seq<P.Sent>, r: P.Sent)
    requires DistinctNumbers(got)
    ensures multiset(got)[r] <= 1
  {
    if got != [] {
      AtMostOnce(got[1..], r);
      assert got == [got[0]] + got[1..];
      assert r == got[0] ==> r !in got[1..];
    }
  }

  /**
   If no cell is copied on its way back, then whatever else is lost, duplicated and
   reordered, each sequence number is delivered at most once, so no message is delivered
   more often than it was sent.
   */
  lemma RepliesArriveOnce(cs: Suite, c: Chain, net: Net, marks: seq<u32>, fates: seq<Fate>) returns (got: seq<P.Sent>)
    requires Established(c, net, marks) && NoReplyCopied(cs, c, net, fates)
    ensures var o, end := net.nodes[c.addrs[0]], SufferAll(cs, c, net, fates);
            && c.addrs[0] in end.nodes
            && end.nodes[c.addrs[0]].inbox == o.inbox + Delivered(c, got)
            && Echoed(Said(o.seqOrigin, fates), got)
            && DistinctNumbers(got) && multiset(got) <= multiset(Said(o.seqOrigin, fates))
  {
    var o, end := net.nodes[c.addrs[0]], SufferAll(cs, c, net, fates);
    StartSound(cs, c, net, marks);
    var drawn: u32;
    hide Hold, Genuine, SufferAll, NoReplyCopied, LastMark, Replies, Times;
    assert [] + Said(o.seqOrigin, fates) == Said(o.seqOrigin, fates);
    got, drawn := RunSound(cs, c, net, [], o.seqOrigin, o.inbox, [], fates);
    HoldsOrigin(c, end.nodes, drawn);
    forall q: u32
      ensures Times(q, got) <= 1
    {
      assert Replies(c, q, end.flight) + Times(q, got) <= if q <= LastMark(c, end.nodes) then 1 else 0;
    }
    OnceEach(got);
    DistinctAreFew(Said(o.seqOrigin, fates), got);
  }

  // ---- a copied reply ----

  predicate OnlyArrivals(fates: seq<Fate>) {
    forall k :: 0 <= k < |fates| ==> fates[k].Arrive?
  }

  lemma OriginStays(cs: Suite, c: Chain, net: Net, f: Fate)
    requires |c.addrs| > 0 && c.addrs[0] in net.nodes
    ensures c.addrs[0] in Suffer(cs, c, net, f).nodes
  {
  }

  lemma {:induction false} SufferAppend(cs: Suite, c: Chain, net: Net, a: seq<Fate>, b: seq<Fate>)
    requires |c.addrs| > 0 && c.addrs[0] in net.nodes
    ensures c.addrs[0] in SufferAll(cs, c, net, a).nodes
    ensures SufferAll(cs, c, net, a + b) == SufferAll(cs, c, SufferAll(cs, c, net, a), b)
    decreases |a|
  {
    OriginStays(cs, c, net, if a == [] then Lose(0) else a[0]);
    hide Suffer;
    if a == [] {
      assert a + b == b;
    } else {
      assert (a + b)[1..] == a[1..] + b;
      SufferAppend(cs, c, Suffer(cs, c, net, a[0]), a[1..], b);
    }
  }

  lemma NoFate(cs: Suite, c: Chain, net: Net)
    requires |c.addrs| > 0 && c.addrs[0] in net.nodes
    ensures SufferAll(cs, c, net, []) == net
  {
  }

  lemma ArriveFirst(cs: Suite, c: Chain, net: Net, j: nat, rest: seq<Fate>)
    requires |c.addrs| > 0 && c.addrs[0] in net.nodes && j < |net.flight|
    ensures c.addrs[0] in Deliver(cs, net, j).nodes
    ensures SufferAll(cs, c, net, [Arrive(j)] + rest) == SufferAll(cs, c, Deliver(cs, net, j), rest)
  {
    hide HandleCell;
    assert ([Arrive(j)] + rest)[1..] == rest;
  }

  lemma DuplicateFirst(cs: Suite, c: Chain, net: Net, j: nat, rest: seq<Fate>)
    requires |c.addrs| > 0 && c.addrs[0] in net.nodes && j < |net.flight|
    ensures SufferAll(cs, c, net, [Duplicate(j)] + rest)
            == SufferAll(cs, c, Net(net.nodes, net.flight + [net.flight[j]]), rest)
  {
    assert ([Duplicate(j)] + rest)[1..] == rest;
  }

  /** The origin has received r. */
  function Home(c: Chain, nodes: map<SocketAddr, NodeState>, r: P.Sent): map<SocketAddr, NodeState>
    requires |c.addrs| > 0 && c.addrs[0] in nodes
  {
    var o := nodes[c.addrs[0]];
    nodes[c.addrs[0] := o.(inbox := o.inbox + Delivered(c, [r]))]
  }

  lemma HomeArrives(cs: Suite, c: Chain, net: Net, next: u32, r: P.Sent, j: nat)
    requires Hold(c, net.nodes, next) && j < |net.flight|
    requires net.flight[j] == Msg(c.addrs[1], c.addrs[0], BwdCell(cs, c, 0, r))
    ensures Deliver(cs, net, j) == Net(Home(c, net.nodes, r), Without(net.flight, j))
  {
    hide HandleCell, BwdCell, Hold;
    HoldsOrigin(c, net.nodes, next);
    OriginEntryHeld(c, net.nodes, next);
    BackwardAtOrigin(cs, c, net.nodes[c.addrs[0]], r);
    assert Without(net.flight, j) + [] == Without(net.flight, j);
  }

  lemma OriginEntryHeld(c: Chain, nodes: map<SocketAddr, NodeState>, next: u32)
    requires Hold(c, nodes, next)
    ensures c.Valid() && c.addrs[0] in nodes && c.cid in nodes[c.addrs[0]].circuits
    ensures nodes[c.addrs[0]].circuits[c.cid] == c.Origin()
  {
  }

  lemma HomeHolds(c: Chain, nodes: map<SocketAddr, NodeState>, next: u32, r: P.Sent)
    requires Hold(c, nodes, next)
    ensures c.addrs != [] && c.addrs[0] in nodes && Hold(c, Home(c, nodes, r), next)
  {
  }

  /** A reply on any link, taken out of any flight, passes one hop back. */
  lemma RelayArrives(cs: Suite, c: Chain, net: Net, next: u32, r: P.Sent, i: nat, j: nat)
    requires Hold(c, net.nodes, next) && 0 < i < c.N() && j < |net.flight|
    requires net.flight[j] == Msg(c.addrs[i + 1], c.addrs[i], BwdCell(cs, c, i, r))
    ensures Deliver(cs, net, j)
            == Net(net.nodes, Without(net.flight, j) + [Msg(c.addrs[i], c.addrs[i - 1], BwdCell(cs, c, i - 1, r))])
  {
    hide HandleCell, BwdCell;
    var s := net.nodes[c.addrs[i]];
    assert HoldsAt(c, s, i - 1);
    BackwardAtRelay(cs, c, i, s.circuits[c.cid].lastFwd, s, r);
    assert net.nodes[c.addrs[i] := s] == net.nodes;
    CellsFit(cs, c, i - 1, r);
    PostedOne(c.addrs[i], Packet(c.addrs[i - 1], BwdCell(cs, c, i - 1, r)));
  }

  lemma LastTaken(flight: seq<Msg>, m: Msg)
    ensures Without(flight + [m], |flight|) == flight
  {
  }

  /** Delivering it and what becomes of it, and nothing else, brings a reply home from any link. */
  lemma {:induction false} WalkHome(cs: Suite, c: Chain, net: Net, next: u32, r: P.Sent, i: nat, j: nat)
    returns (trip: seq<Fate>)
    requires Hold(c, net.nodes, next) && i < c.N() && j < |net.flight|
    requires net.flight[j] == Msg(c.addrs[i + 1], c.addrs[i], BwdCell(cs, c, i, r))
    ensures c.addrs != [] && c.addrs[0] in net.nodes && OnlyArrivals(trip)
    ensures SufferAll(cs, c, net, trip) == Net(Home(c, net.nodes, r), Without(net.flight, j))
    decreases i
  {
    HoldsOrigin(c, net.nodes, next);
    hide Deliver, BwdCell, Hold, Home, SufferAll;
    if i == 0 {
      HomeArrives(cs, c, net, next, r, j);
      ArriveFirst(cs, c, net, j, []);
      NoFate(cs, c, Deliver(cs, net, j));
      return [Arrive(j)] + [];
    }
    RelayArrives(cs, c, net, next, r, i, j);
    var rest, x := Without(net.flight, j), Msg(c.addrs[i], c.addrs[i - 1], BwdCell(cs, c, i - 1, r));
    LastTaken(rest, x);
    var tail := WalkHome(cs, c, Net(net.nodes, rest + [x]), next, r, i - 1, |rest|);
    ArriveFirst(cs, c, net, j, tail);
    trip := [Arrive(j)] + tail;
  }

  /** From any state, whatever else is in flight: copy one reply, bring the copy home, then the reply itself. */
  lemma CopyComesHome(cs: Suite, c: Chain, net: Net, next: u32, r: P.Sent, i: nat, j: nat) returns (trip: seq<Fate>)
    requires Hold(c, net.nodes, next) && i < c.N() && j < |net.flight|
    requires net.flight[j] == Msg(c.addrs[i + 1], c.addrs[i], BwdCell(cs, c, i, r))
    ensures c.addrs != [] && c.addrs[0] in net.nodes && OnlyArrivals(trip)
    ensures SufferAll(cs, c, net, [Duplicate(j)] + trip)
            == Net(Home(c, Home(c, net.nodes, r), r), Without(net.flight, j))
  {
    HoldsOrigin(c, net.nodes, next);
    HomeHolds(c, net.nodes, next, r);
    hide Hold, Home, BwdCell, Suffer, SufferAll, Without;
    var twice := Net(net.nodes, net.flight + [net.flight[j]]);
    LastTaken(net.flight, net.flight[j]);
    var first := WalkHome(cs, c, twice, next, r, i, |net.flight|);
    var second := WalkHome(cs, c, Net(Home(c, net.nodes, r), net.flight), next, r, i, j);
    trip := first + second;
    SufferAppend(cs, c, twice, first, second);
    DuplicateFirst(cs, c, net, j, trip);
  }

  /** A genuine cell on its way back is the reply to an ECHO on one of the links. */
  lemma ReplyOf(cs: Suite, c: Chain, said: seq<P.Sent>, m: Msg) returns (r: P.Sent, i: nat)
    requires Genuine(cs, c, said, m) && IsReply(c, m)
    ensures r in said && r.rcmd.Echo? && c.Valid() && i < c.N()
    ensures m == Msg(c.addrs[i + 1], c.addrs[i], BwdCell(cs, c, i, r))
  {
    hide FwdCell, BwdCell;
    r, i :| r in said && i < c.N() && IsLeg(cs, c, r, i, m);
  }

  lemma ReplyInFlight(cs: Suite, c: Chain, net: Net, marks: seq<u32>, fates: seq<Fate>, j: nat)
    returns (r: P.Sent, i: nat, next: u32)
    requires Established(c, net, marks) && j < |SufferAll(cs, c, net, fates).flight|
    requires IsReply(c, SufferAll(cs, c, net, fates).flight[j])
    ensures var mid := SufferAll(cs, c, net, fates);
            && Hold(c, mid.nodes, next) && i < c.N()
            && r in Said(net.nodes[c.addrs[0]].seqOrigin, fates) && r.rcmd.Echo?
            && mid.flight[j] == Msg(c.addrs[i + 1], c.addrs[i], BwdCell(cs, c, i, r))
  {
    var o := net.nodes[c.addrs[0]];
    StartSound(cs, c, net, marks);
    HoldsOrigin(c, net.nodes, o.seqOrigin);
    hide Established, Hold, Genuine, IsReply, SufferAll, NoReplyCopied, Once, BwdCell, Said, Delivered;
    assert [] + Said(o.seqOrigin, fates) == Said(o.seqOrigin, fates);
    var got: seq<P.Sent>;
    got, next := RunSound(cs, c, net, [], o.seqOrigin, o.inbox, [], fates);
    assert Genuine(cs, c, Said(o.seqOrigin, fates), SufferAll(cs, c, net, fates).flight[j]);
    r, i := ReplyOf(cs, c, Said(o.seqOrigin, fates), SufferAll(cs, c, net, fates).flight[j]);
  }

  /**
   And any reply that is copied, after any run, on any link and with anything else in
   flight, can arrive twice: a list of deliveries follows after which the origin's stream
   has received that message two times more.
   */
  lemma CopiedReplyArrivesTwice(cs: Suite, c: Chain, net: Net, marks: seq<u32>, fates: seq<Fate>, j: nat)
    returns (r: P.Sent, trip: seq<Fate>)
    requires Established(c, net, marks) && j < |SufferAll(cs, c, net, fates).flight|
    requires IsReply(c, SufferAll(cs, c, net, fates).flight[j])
    ensures r in Said(net.nodes[c.addrs[0]].seqOrigin, fates) && r.rcmd.Echo? && OnlyArrivals(trip)
    ensures var mid, end := SufferAll(cs, c, net, fates), SufferAll(cs, c, net, fates + [Duplicate(j)] + trip);
            var one := Delivery(c.cid, r.stream, r.msg);
            && c.addrs[0] in mid.nodes && c.addrs[0] in end.nodes
            && end.nodes[c.addrs[0]].inbox
               == mid.nodes[c.addrs[0]].inbox + if r.stream in c.streams then [one, one] else []
  {
    var mid := SufferAll(cs, c, net, fates);
    var i: nat, next: u32;
    r, i, next := ReplyInFlight(cs, c, net, marks, fates, j);
    hide Established, Hold, IsReply, SufferAll, BwdCell, Said, Home, Delivered;
    trip := CopyComesHome(cs, c, mid, next, r, i, j);
    SufferAppend(cs, c, net, fates, [Duplicate(j)] + trip);
    assert fates + [Duplicate(j)] + trip == fates + ([Duplicate(j)] + trip);
    HomeTwice(c, mid.nodes, r);
  }

  lemma HomeTwice(c: Chain, nodes: map<SocketAddr, NodeState>, r: P.Sent)
    requires |c.addrs| > 0 && c.addrs[0] in nodes
    ensures var one := Delivery(c.cid, r.stream, r.msg);
            Home(c, Home(c, nodes, r), r)[c.addrs[0]].inbox
            == nodes[c.addrs[0]].inbox + if r.stream in c.streams then [one, one] else []
  {
    var inbox, one := nodes[c.addrs[0]].inbox, Delivery(c.cid, r.stream, r.msg);
    assert [r][1..] == [];
    if r.stream in c.streams {
      assert Delivered(c, [r]) == [one];
      assert inbox + [one] + [one] == inbox + [one, one];
    } else {
      assert inbox + [] + [] == inbox;
    }
  }

  lemma HoldsOrigin(c: Chain, nodes: map<SocketAddr, NodeState>, next: u32)
    requires Hold(c, nodes, next)
    ensures c.Valid() && c.addrs[0] in nodes
  {
  }
}
