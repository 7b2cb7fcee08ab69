/**
 One circuit among others. The nodes of an established circuit take part in any number of
 other circuits, which are built, used and torn down meanwhile; their cells are in flight
 on the same links and may be lost, repeated, reordered and invented. As long as nobody
 else sends to the circuit's nodes under the circuit's id, its own traffic is carried as if
 it were alone: the origin's streams receive exactly the echoes they are owed.
 */
module Crowd {
  import opened Octets
  import opened Crypto
  import opened Identity
  import opened Onion
  import opened Cells
  import opened Fragments
  import opened SphinxMachine
  import opened Sphinx
  import opened Engine
  import opened Network
  import opened Echo
  import opened Traffic
  import Replay

  // ---- the circuit's share of the network ----

  /** The cells for the circuit's nodes under the circuit's id. */
  function ScopeOf(c: Chain): Scope {
    set a | a in c.addrs :: (a, c.cid)
  }

  function OfCircuit(cid: u32, inbox: seq<Delivery>): seq<Delivery> {
    if inbox == [] then [] else (if inbox[0].cid == cid then [inbox[0]] else []) + OfCircuit(cid, inbox[1..])
  }

  /** The nodes, the origin with what its streams on this circuit have received. */
  function View(c: Chain, nodes: map<SocketAddr, NodeState>): map<SocketAddr, NodeState>
    requires |c.addrs| > 0 && c.addrs[0] in nodes
  {
    var o := nodes[c.addrs[0]];
    nodes[c.addrs[0] := o.(inbox := OfCircuit(c.cid, o.inbox))]
  }

  /** The network as the circuit sees it. */
  function Share(c: Chain, net: Net): Net
    requires |c.addrs| > 0 && c.addrs[0] in net.nodes
  {
    Net(View(c, net.nodes), Mine(ScopeOf(c), net.flight))
  }

  lemma {:induction false} OfCircuitAppend(cid: u32, a: seq<Delivery>, b: seq<Delivery>)
    ensures OfCircuit(cid, a + b) == OfCircuit(cid, a) + OfCircuit(cid, b)
  {
    if a == [] {
      assert a + b == b;
    } else {
      assert (a + b)[1..] == a[1..] + b;
      OfCircuitAppend(cid, a[1..], b);
      Regroup(if a[0].cid == cid then [a[0]] else [], OfCircuit(cid, a[1..]), OfCircuit(cid, b));
    }
  }

  // ---- one cell ----

  /** Handling a cell reads and writes the inbox only to add what its own circuit receives. */
  lemma InboxGrows(cs: Suite, s: NodeState, src: SocketAddr, cell: Cell, inbox: seq<Delivery>) returns (d: seq<Delivery>)
    ensures |d| <= 1 && (d != [] ==> d[0].cid == cell.cid)
    ensures var (s', ps) := HandleCell(cs, s, src, cell);
            && s'.inbox == s.inbox + d && s'.seqOrigin == s.seqOrigin
            && HandleCell(cs, s.(inbox := inbox), src, cell) == (s'.(inbox := inbox + d), ps)
  {
    hide Process, Reassembled, CreateCells, OpenFwd, SealBwd, ParseRelay, OpenedBwd;
    var m := ParseRelay(cell.payload);
    d := [];
    if cell.cmd.Relay? && m.Some? && cell.cid in s.circuits && s.circuits[cell.cid].OriginEntry? {
      var e := s.circuits[cell.cid];
      var data := OpenedBwd(cs, e.bwd, e.tag, m.value.seqNo, m.value.onion);
      if data.Ok? && m.value.stream in e.streams {
        d := [Delivery(cell.cid, m.value.stream, data.value)];
      }
    }
    assert s.inbox + [] == s.inbox && inbox + [] == inbox;
  }

  /** What position k of the circuit sends on a cell of the circuit stays on the circuit. */
  lemma OwnPosts(cs: Suite, c: Chain, s: NodeState, src: SocketAddr, cell: Cell, k: nat, mark: u32)
    requires c.Valid() && k <= c.N() && cell.cmd.Relay? && cell.cid == c.cid && c.cid in s.circuits
    requires s.circuits[c.cid] == if k == 0 then c.Origin() else c.Hop(k - 1, mark)
    ensures forall x :: x in HandleCell(cs, s, src, cell).1 ==> x.cell.cid == c.cid && x.dst in c.addrs
  {
    hide OpenFwd, SealBwd, ParseRelay, OpenedBwd, RelayBytes;
    if k > 0 {
      assert c.addrs[k - 1] in c.addrs;
      assert k < c.N() ==> c.addrs[k + 1] in c.addrs;
    }
  }

  // ---- our cells ----

  /** The circuit's share of the network is a circuit on its own, in the state of pipe p. */
  ghost predicate Carried(cs: Suite, c: Chain, net: Net, p: P.Pipe, inbox: seq<Delivery>, next: u32) {
    && |c.addrs| > 0 && c.addrs[0] in net.nodes
    && Related(cs, c, Share(c, net), p, inbox, next)
  }

  /** All our cells are RELAY cells, and every position holds its entry. */
  lemma OwnCell(cs: Suite, c: Chain, net: Net, p: P.Pipe, inbox: seq<Delivery>, next: u32, k: nat)
    returns (at: nat, mark: u32)
    requires Related(cs, c, net, p, inbox, next) && k < |net.flight| && IsOldest(net.flight, k)
    ensures c.Valid() && at <= c.N() && net.flight[k].dst == c.addrs[at] && c.addrs[at] in net.nodes
    ensures net.flight[k].cell.cmd.Relay? && c.cid in net.nodes[c.addrs[at]].circuits
    ensures net.nodes[c.addrs[at]].circuits[c.cid] == if at == 0 then c.Origin() else c.Hop(at - 1, mark)
  {
    var i := LinkOf(cs, c, net.flight, p, k);
    hide Links, OnChain;
    if OnForward(c, net.flight[k], i) {
      TakeForward(cs, c, net.flight, p, i, k);
      HopHolds(c, net.nodes, p, inbox, next, i);
      return i + 1, p.last[i];
    }
    TakeBackward(cs, c, net.flight, p, i, k);
    if i == 0 {
      OriginHolds(c, net.nodes, p, inbox, next);
      return 0, 0;
    }
    HopHolds(c, net.nodes, p, inbox, next, i - 1);
    return i, p.last[i - 1];
  }

  /** Handling a cell of ours changes our share just as it would change the circuit on its own. */
  lemma ViewHandles(cs: Suite, c: Chain, nodes: map<SocketAddr, NodeState>, m: Msg)
    requires |c.addrs| > 0 && c.addrs[0] in nodes && m.dst in nodes && m.cell.cid == c.cid
    ensures var (s', ps) := HandleCell(cs, nodes[m.dst], m.src, m.cell);
            var (v', qs) := HandleCell(cs, View(c, nodes)[m.dst], m.src, m.cell);
            qs == ps && View(c, nodes)[m.dst := v'] == View(c, nodes[m.dst := s'])
  {
    hide HandleCell, OfCircuit;
    if m.dst == c.addrs[0] {
      var o := nodes[m.dst];
      var d := InboxGrows(cs, o, m.src, m.cell, OfCircuit(c.cid, o.inbox));
      OfCircuitAppend(c.cid, o.inbox, d);
      OfCircuitOwn(c.cid, d);
    }
  }

  lemma OfCircuitOwn(cid: u32, d: seq<Delivery>)
    requires |d| <= 1
    ensures d != [] && d[0].cid == cid ==> OfCircuit(cid, d) == d
    ensures d != [] && d[0].cid != cid ==> OfCircuit(cid, d) == []
    ensures d == [] ==> OfCircuit(cid, d) == []
  {
    assert |d| == 1 ==> d[1..] == [] && d == [d[0]];
  }

  predicate Foremost(flight: seq<Msg>, k: nat) {
    k < |flight| && IsOldest(flight, k)
  }

  lemma OwnArrives(cs: Suite, c: Chain, net: Net, p: P.Pipe, inbox: seq<Delivery>, next: u32, h: nat)
    requires Carried(cs, c, net, p, inbox, next) && h < |net.flight| && Ours(ScopeOf(c), net.flight[h])
    requires Foremost(Mine(ScopeOf(c), net.flight), Rank(ScopeOf(c), net.flight, h))
    ensures c.addrs[0] in Deliver(cs, net, h).nodes
    ensures Share(c, Deliver(cs, net, h)) == Deliver(cs, Share(c, net), Rank(ScopeOf(c), net.flight, h))
  {
    var x, m := ScopeOf(c), net.flight[h];
    var k := Rank(x, net.flight, h);
    MineTake(x, net.flight, h);
    var at, mark := OwnCell(cs, c, Share(c, net), p, inbox, next, k);
    hide HandleCell, Mine, View, Related, Rank;
    ViewKeys(c, net.nodes);
    ViewHandles(cs, c, net.nodes, m);
    OwnPosts(cs, c, View(c, net.nodes)[m.dst], m.src, m.cell, at, mark);
    var ps := HandleCell(cs, net.nodes[m.dst], m.src, m.cell).1;
    PostedOurs(x, m.dst, ps);
    MineAll(x, Posted(m.dst, ps));
    MineAppend(x, Without(net.flight, h), Posted(m.dst, ps));
  }

  lemma ViewKeys(c: Chain, nodes: map<SocketAddr, NodeState>)
    requires |c.addrs| > 0 && c.addrs[0] in nodes
    ensures View(c, nodes).Keys == nodes.Keys
  {
  }

  // ---- everything else ----

  /** The node's entry for the circuit and what the circuit has received there are the same. */
  predicate Untouched(c: Chain, s: NodeState, s': NodeState) {
    && (c.cid in s'.circuits <==> c.cid in s.circuits)
    && (c.cid in s.circuits ==> s'.circuits[c.cid] == s.circuits[c.cid])
    && OfCircuit(c.cid, s'.inbox) == OfCircuit(c.cid, s.inbox)
  }

  lemma ForeignCell(cs: Suite, c: Chain, s: NodeState, src: SocketAddr, cell: Cell)
    requires cell.cid != c.cid
    ensures var s' := HandleCell(cs, s, src, cell).0;
            Untouched(c, s, s') && s'.seqOrigin == s.seqOrigin
  {
    hide HandleCell, OfCircuit;
    Replay.OtherEntryKept(cs, s, src, cell, c.cid);
    var d := InboxGrows(cs, s, src, cell, []);
    OfCircuitAppend(c.cid, s.inbox, d);
    OfCircuitOwn(c.cid, d);
    assert OfCircuit(c.cid, s.inbox) + [] == OfCircuit(c.cid, s.inbox);
  }

  /** An event of a node's life that concerns another circuit, or starts a new one. */
  predicate Elsewhere(c: Chain, e: Ids.Event) {
    e.StartBuild? || Ids.About(e) != c.cid
  }

  lemma ForeignEvent(cs: Suite, c: Chain, s: NodeState, e: Ids.Event)
    requires Elsewhere(c, e)
    ensures Untouched(c, s, Ids.Happen(cs, s, e))
  {
    hide HandleCell, Built, CreateCells, SealedFwd, OfCircuit;
    if e.Receive? {
      ForeignCell(cs, c, s, e.src, e.cell);
    }
  }

  /** Whatever leaves the circuit's entries and cells alone leaves its share of the network as it is. */
  lemma ShareKept(cs: Suite, c: Chain, net: Net, net': Net, p: P.Pipe, inbox: seq<Delivery>, next: u32)
    requires Carried(cs, c, net, p, inbox, next) && Mine(ScopeOf(c), net'.flight) == Mine(ScopeOf(c), net.flight)
    requires forall k :: 0 <= k < |c.addrs| ==>
               && c.addrs[k] in net'.nodes
               && (c.addrs[k] in net.nodes ==> Untouched(c, net.nodes[c.addrs[k]], net'.nodes[c.addrs[k]]))
    ensures Carried(cs, c, net', p, inbox, net'.nodes[c.addrs[0]].seqOrigin)
  {
    hide Mine, Links, OfCircuit;
  }

  // ---- runs ----

  /** The origin sends on the circuit, or something else happens. */
  datatype Doing = Send(stream: u16, rcmd: RCmd, msg: Bytes) | Other(move: Move)

  function Done(cs: Suite, c: Chain, net: Net, v: Doing): (r: Net)
    requires |c.addrs| > 0 && c.addrs[0] in net.nodes
    ensures c.addrs[0] in r.nodes
  {
    match v
    case Send(stream, rcmd, msg) => Act(cs, c, net, Say(stream, rcmd, msg))
    case Other(move) => Moved(cs, net, move)
  }

  function DoneAll(cs: Suite, c: Chain, net: Net, vs: seq<Doing>): (r: Net)
    requires |c.addrs| > 0 && c.addrs[0] in net.nodes
    ensures c.addrs[0] in r.nodes
    decreases |vs|
  {
    if vs == [] then net else DoneAll(cs, c, Done(cs, c, net, vs[0]), vs[1..])
  }

  /**
   Our cells are not lost and arrive in order on each link; nobody else sends to one of the
   circuit's nodes under its id, nor touches the circuit at one of its nodes. Other cells
   arrive in any order, are lost and invented at will.
   */
  predicate Polite(cs: Suite, c: Chain, net: Net, v: Doing) {
    v.Other? ==>
      && Apart(cs, ScopeOf(c), net, v.move)
      && (Delivers(ScopeOf(c), net, v.move) ==>
            Foremost(Mine(ScopeOf(c), net.flight), Rank(ScopeOf(c), net.flight, v.move.h)))
      && (v.move.Operate? && v.move.at in c.addrs ==> Elsewhere(c, v.move.event))
  }

  predicate AllPolite(cs: Suite, c: Chain, net: Net, vs: seq<Doing>)
    requires |c.addrs| > 0 && c.addrs[0] in net.nodes
    decreases |vs|
  {
    vs == [] || (Polite(cs, c, net, vs[0]) && AllPolite(cs, c, Done(cs, c, net, vs[0]), vs[1..]))
  }

  /** The message a move sends on the circuit, under the number the origin draws for it. */
  function Draw(c: Chain, net: Net, v: Doing): seq<P.Sent>
    requires |c.addrs| > 0 && c.addrs[0] in net.nodes
  {
    if v.Send? && |v.msg| <= MSG_MAX then [P.SendRec(net.nodes[c.addrs[0]].seqOrigin, v.rcmd, v.stream, v.msg)] else []
  }

  function Draws(cs: Suite, c: Chain, net: Net, vs: seq<Doing>): seq<P.Sent>
    requires |c.addrs| > 0 && c.addrs[0] in net.nodes
    decreases |vs|
  {
    if vs == [] then [] else Draw(c, net, vs[0]) + Draws(cs, c, Done(cs, c, net, vs[0]), vs[1..])
  }

  /** Sending is seen by our share as it is by the circuit on its own. */
  lemma SendShared(cs: Suite, c: Chain, net: Net, p: P.Pipe, inbox: seq<Delivery>, next: u32, v: Doing)
    requires Carried(cs, c, net, p, inbox, next) && v.Send? && |v.msg| <= MSG_MAX
    ensures Share(c, Done(cs, c, net, v)) == Act(cs, c, Share(c, net), Say(v.stream, v.rcmd, v.msg))
  {
    hide Links, Mine, OfCircuit, SealedFwd, RelayBytes;
    var o := net.nodes[c.addrs[0]];
    var ps := SendChecked(cs, o, c.Handle(), v.stream, v.rcmd, v.msg).2;
    assert View(c, net.nodes)[c.addrs[0]].circuits == o.circuits;
    assert c.addrs[1] in c.addrs;
    PostedOurs(ScopeOf(c), c.addrs[0], ps);
    MineAll(ScopeOf(c), Posted(c.addrs[0], ps));
    MineAppend(ScopeOf(c), net.flight, Posted(c.addrs[0], ps));
  }

  lemma NotSent(cs: Suite, c: Chain, net: Net, v: Doing)
    requires |c.addrs| > 0 && c.addrs[0] in net.nodes && v.Send? && |v.msg| > MSG_MAX
    ensures Done(cs, c, net, v) == net
  {
    assert net.flight + [] == net.flight && net.nodes[c.addrs[0] := net.nodes[c.addrs[0]]] == net.nodes;
  }

  lemma CarriedBasics(cs: Suite, c: Chain, net: Net, p: P.Pipe, inbox: seq<Delivery>, next: u32)
    requires Carried(cs, c, net, p, inbox, next)
    ensures p.Valid() && next == net.nodes[c.addrs[0]].seqOrigin
    ensures forall k :: 0 <= k < |c.addrs| ==> c.addrs[k] in net.nodes
  {
    hide Links, OfCircuit;
  }

  /** Whatever else happens leaves the circuit alone at its nodes. */
  lemma OtherUntouched(cs: Suite, c: Chain, net: Net, v: Doing, a: SocketAddr)
    requires v.Other? && Polite(cs, c, net, v) && !Delivers(ScopeOf(c), net, v.move)
    requires a in c.addrs && a in net.nodes
    ensures a in Moved(cs, net, v.move).nodes && Untouched(c, net.nodes[a], Moved(cs, net, v.move).nodes[a])
  {
    hide HandleCell, Ids.Effect, Mine, OfCircuit, Elsewhere, Apart;
    match v.move {
      case Arrive(h) =>
        if h < |net.flight| && net.flight[h].dst == a {
          var m := net.flight[h];
          assert m.cell.cid != c.cid;
          ForeignCell(cs, c, net.nodes[a], m.src, m.cell);
        }
      case Lose(_) =>
      case Invent(_) =>
      case Operate(at, event) =>
        if at == a {
          ForeignEvent(cs, c, net.nodes[a], event);
        }
    }
  }

  /** So it leaves the circuit's share as it is, but for the origin's counter. */
  lemma OtherShared(cs: Suite, c: Chain, net: Net, p: P.Pipe, inbox: seq<Delivery>, next: u32, v: Doing)
    requires Carried(cs, c, net, p, inbox, next) && v.Other? && Polite(cs, c, net, v)
    requires !Delivers(ScopeOf(c), net, v.move)
    ensures Carried(cs, c, Done(cs, c, net, v), p, inbox, Done(cs, c, net, v).nodes[c.addrs[0]].seqOrigin)
  {
    OthersPass(cs, ScopeOf(c), net, v.move);
    CarriedBasics(cs, c, net, p, inbox, next);
    hide Mine, OfCircuit, Related, Moved, Polite, Untouched, Share, Delivers;
    forall k | 0 <= k < |c.addrs|
      ensures c.addrs[k] in Moved(cs, net, v.move).nodes
      ensures c.addrs[k] in net.nodes && Untouched(c, net.nodes[c.addrs[k]], Moved(cs, net, v.move).nodes[c.addrs[k]])
    {
      OtherUntouched(cs, c, net, v, c.addrs[k]);
    }
    ShareKept(cs, c, net, Moved(cs, net, v.move), p, inbox, next);
  }

  /** Every move is a step of the pipe, or none. */
  lemma DoingShared(cs: Suite, c: Chain, net: Net, p: P.Pipe, inbox: seq<Delivery>, next: u32, v: Doing)
    returns (q: P.Pipe, next': u32)
    requires Carried(cs, c, net, p, inbox, next) && Polite(cs, c, net, v)
    ensures Carried(cs, c, Done(cs, c, net, v), q, inbox, next')
    ensures forall more :: P.Outcome(q, more) == P.Outcome(p, Draw(c, net, v) + more)
  {
    q, next' := p, next;
    CarriedBasics(cs, c, net, p, inbox, next);
    hide Related, View, Mine, Deliver, P.Outcome, P.Say, Ids.Effect;
    if v.Send? && |v.msg| <= MSG_MAX {
      var r: P.Sent := P.SendRec(next, v.rcmd, v.stream, v.msg);
      SendShared(cs, c, net, p, inbox, next, v);
      StepSay(cs, c, Share(c, net), p, inbox, next, Say(v.stream, v.rcmd, v.msg));
      q, next' := P.Say(p, r), Incr(next);
      assert Draw(c, net, v) == [r];
      forall more
        ensures P.Outcome(q, more) == P.Outcome(p, Draw(c, net, v) + more)
      {
        P.SayKeeps(p, r, more);
      }
      return;
    }
    forall more: seq<P.Sent>
      ensures Draw(c, net, v) + more == more
    {
    }
    if v.Send? {
      NotSent(cs, c, net, v);
    } else if Delivers(ScopeOf(c), net, v.move) {
      OwnArrives(cs, c, net, p, inbox, next, v.move.h);
      q := StepTick(cs, c, Share(c, net), p, inbox, next, Rank(ScopeOf(c), net.flight, v.move.h));
    } else {
      OtherShared(cs, c, net, p, inbox, next, v);
      next' := Done(cs, c, net, v).nodes[c.addrs[0]].seqOrigin;
    }
  }

  lemma {:induction false} RunShared(cs: Suite, c: Chain, net: Net, p: P.Pipe, inbox: seq<Delivery>, next: u32,
                                     vs: seq<Doing>)
    returns (q: P.Pipe, next': u32)
    requires Carried(cs, c, net, p, inbox, next) && AllPolite(cs, c, net, vs)
    ensures Carried(cs, c, DoneAll(cs, c, net, vs), q, inbox, next')
    ensures P.Outcome(q, []) == P.Outcome(p, Draws(cs, c, net, vs))
    decreases |vs|
  {
    hide Related, Share, Done, P.Outcome, Draw, Polite;
    if vs == [] {
      return p, next;
    }
    q, next' := DoingShared(cs, c, net, p, inbox, next, vs[0]);
    q, next' := RunShared(cs, c, Done(cs, c, net, vs[0]), q, inbox, next', vs[1..]);
  }

  /** The origin's sequence counter, which all its circuits draw from, does not wrap around. */
  predicate CounterHolds(cs: Suite, c: Chain, net: Net, vs: seq<Doing>)
    requires |c.addrs| > 0 && c.addrs[0] in net.nodes
    decreases |vs|
  {
    vs == [] ||
    (net.nodes[c.addrs[0]].seqOrigin <= Done(cs, c, net, vs[0]).nodes[c.addrs[0]].seqOrigin
     && CounterHolds(cs, c, Done(cs, c, net, vs[0]), vs[1..]))
  }

  lemma SendDraws(cs: Suite, c: Chain, net: Net, v: Doing)
    requires |c.addrs| > 0 && c.addrs[0] in net.nodes && v.Send? && |v.msg| <= MSG_MAX
    ensures Done(cs, c, net, v).nodes[c.addrs[0]].seqOrigin == Incr(net.nodes[c.addrs[0]].seqOrigin)
  {
  }

  /** Numbers drawn for other circuits leave gaps, which the sequence checks let pass. */
  lemma {:induction false} DrawsPass(cs: Suite, c: Chain, net: Net, vs: seq<Doing>, mark: u32)
    requires |c.addrs| > 0 && c.addrs[0] in net.nodes
    requires mark < net.nodes[c.addrs[0]].seqOrigin && CounterHolds(cs, c, net, vs)
    ensures P.Passed(mark, Draws(cs, c, net, vs)) == Draws(cs, c, net, vs)
    decreases |vs|
  {
    hide Done;
    if vs != [] {
      var v, after := vs[0], Done(cs, c, net, vs[0]);
      var rest := Draws(cs, c, after, vs[1..]);
      if v.Send? && |v.msg| <= MSG_MAX {
        SendDraws(cs, c, net, v);
        var r := Draw(c, net, v)[0];
        DrawsPass(cs, c, after, vs[1..], r.seqNo);
        assert Draws(cs, c, net, vs) == [r] + rest && ([r] + rest)[1..] == rest;
      } else {
        DrawsPass(cs, c, after, vs[1..], mark);
        assert [] + rest == rest;
      }
    }
  }

  /** A circuit that its nodes hold is established in a crowd if none of its cells is in flight. */
  lemma EstablishedShare(c: Chain, net: Net, marks: seq<u32>)
    requires Established(c, Net(net.nodes, []), marks) && Mine(ScopeOf(c), net.flight) == []
    ensures c.addrs != [] && c.addrs[0] in net.nodes && Established(c, Share(c, net), marks)
  {
    hide OfCircuit;
  }

  /**
   Echo delivery in a crowd: on an established circuit, whatever its nodes do on other
   circuits meanwhile and whatever becomes of other circuits' cells, the origin's streams
   have at every moment received a prefix of the replies this circuit's sends are owed, and
   once none of its cells is in flight exactly those; and these are all its ECHO messages,
   unchanged and in order, if the origin's counter is above the hops' marks and does not wrap.
   */
  lemma CrowdedEcho(cs: Suite, c: Chain, net: Net, marks: seq<u32>, vs: seq<Doing>)
    requires |c.addrs| > 0 && c.addrs[0] in net.nodes
    requires Established(c, Share(c, net), marks) && AllPolite(cs, c, net, vs)
    ensures var start, end := net.nodes[c.addrs[0]], DoneAll(cs, c, net, vs);
            var got := OfCircuit(c.cid, end.nodes[c.addrs[0]].inbox);
            var owed := OfCircuit(c.cid, start.inbox) + Owed(c, marks, Draws(cs, c, net, vs));
            got <= owed && (Mine(ScopeOf(c), end.flight) == [] ==> got == owed)
    ensures P.MaxOf(marks) < net.nodes[c.addrs[0]].seqOrigin && CounterHolds(cs, c, net, vs) ==>
              Owed(c, marks, Draws(cs, c, net, vs)) == Delivered(c, P.Echoes(Draws(cs, c, net, vs)))
  {
    if P.MaxOf(marks) < net.nodes[c.addrs[0]].seqOrigin && CounterHolds(cs, c, net, vs) {
      DrawsPass(cs, c, net, vs, P.MaxOf(marks));
    }
    var o := Share(c, net).nodes[c.addrs[0]];
    var p := P.Pipe(Empties(c.N()), marks, Empties(c.N()), []);
    EstablishedRelated(cs, c, Share(c, net), marks);
    var q, next := RunShared(cs, c, net, p, o.inbox, o.seqOrigin, vs);
    OwedArrives(cs, c, Share(c, DoneAll(cs, c, net, vs)), marks, p, q, o.inbox, next, Draws(cs, c, net, vs));
  }
}
