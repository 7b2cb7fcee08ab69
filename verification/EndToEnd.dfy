/**
 From nothing to an answered ECHO: a circuit built over any delivery order is an
 established chain, so the messages sent on it afterwards come back unchanged, in order.
 */
module EndToEnd {
  import opened Wrappers
  import opened Octets
  import opened Crypto
  import opened Identity
  import opened Sphinx
  import opened SphinxMachine
  import opened Engine
  import opened Network
  import opened Construction
  import Bystanders
  import Crowd
  import Echo
  import Ids
  import P = Pipeline
  import R = Replay
  import Traffic

  ghost function Positions(w: World, n: nat): (a: seq<SocketAddr>)
    requires n <= w.Hops() + 1
    ensures |a| == n && forall i :: 0 <= i < n ==> a[i] == w.Addr(i)
  {
    seq(n, i requires 0 <= i < n => w.Addr(i))
  }

  /** The circuit the origin means to build, in the terms of the echo theorem. */
  ghost function ChainOf(cs: Suite, w: World, streams: set<u16>): Echo.Chain
    requires Fresh(cs, w)
  {
    Echo.Chain(Positions(w, w.Hops() + 1), w.Cid(0), w.plan.tag, FwdKeys(cs, w.plan), BwdKeys(cs, w.plan), streams)
  }

  function Registered(s: NodeState, cid: u32, streams: seq<u16>): NodeState {
    if streams == [] then s else RegisterStream(Registered(s, cid, streams[..|streams| - 1]), cid, streams[|streams| - 1])
  }

  function Members(streams: seq<u16>): set<u16> {
    set x | x in streams
  }

  /** The origin resumes `build_circuit` and opens its streams. */
  ghost function TakenUp(cs: Suite, w: World, net: Net, streams: seq<u16>): (Net, Result<CircuitHandle, Cells.NetError>)
    requires Fresh(cs, w) && w.origin in net.nodes
  {
    var built := BuiltHeader(Header(cs, w, 0), w.plan.tag, FwdKeys(cs, w.plan), BwdKeys(cs, w.plan), w.Addr(1));
    var (o, h) := BuildFinish(net.nodes[w.origin], w.Cid(0), built);
    (Net(net.nodes[w.origin := Registered(o, w.Cid(0), streams)], net.flight), h)
  }

  lemma {:induction false} RegisteredStreams(s: NodeState, cid: u32, streams: seq<u16>)
    requires cid in s.circuits && s.circuits[cid].OriginEntry? && s.circuits[cid].streams == {}
    ensures var e := s.circuits[cid];
            Registered(s, cid, streams)
            == s.(circuits := s.circuits[cid := OriginEntry(e.fwd, e.bwd, e.tag, e.next, Members(streams))])
  {
    var e := s.circuits[cid];
    if streams == [] {
      assert s.circuits[cid := e] == s.circuits;
      assert Members(streams) == {};
    } else {
      var n := |streams| - 1;
      RegisteredStreams(s, cid, streams[..n]);
      assert streams == streams[..n] + [streams[n]];
      assert Members(streams) == Members(streams[..n]) + {streams[n]};
    }
  }

  lemma {:induction false} MaxOfZeros(marks: seq<u32>)
    requires forall i :: 0 <= i < |marks| ==> marks[i] == 0
    ensures P.MaxOf(marks) == 0
  {
    if marks != [] {
      MaxOfZeros(marks[1..]);
    }
  }

  function ZeroMarks(n: nat): (m: seq<u32>)
    ensures |m| == n && forall i :: 0 <= i < n ==> m[i] == 0
  {
    seq(n, _ => 0)
  }

  /** A settled construction with agreeing ids is an established circuit once the origin takes it up. */
  lemma TakenUpEstablished(cs: Suite, w: World, net: Net, streams: seq<u16>)
    requires Fresh(cs, w) && Agreeing(w) && Settled(cs, w, net)
    ensures var (start, h) := TakenUp(cs, w, net, streams);
            var c := ChainOf(cs, w, Members(streams));
            && h == Ok(c.Handle())
            && Echo.Established(c, start, ZeroMarks(w.Hops()))
            && start.nodes[w.origin].inbox == w.nodes[w.origin].inbox
            && start.nodes[w.origin].seqOrigin == w.nodes[w.origin].seqOrigin
  {
    hide Fresh, Settled, Agreeing, TakenUp, ChainOf, Echo.Established;
    SettledNodes(cs, w, net);
    OriginReady(cs, w, net, streams);
    HopsReady(cs, w, net, streams);
    ChainShape(cs, w, streams);
    ChainEstablished(cs, w, net, streams);
  }

  /** The pieces put together: origin and hops hold the circuit's entries. */
  lemma ChainEstablished(cs: Suite, w: World, net: Net, streams: seq<u16>)
    requires Fresh(cs, w) && w.origin in net.nodes && net.flight == [] && ChainOf(cs, w, Members(streams)).Valid()
    requires w.Addr(0) == w.origin
    requires var c, o := ChainOf(cs, w, Members(streams)), TakenUp(cs, w, net, streams).0.nodes[w.origin];
             c.cid in o.circuits && o.circuits[c.cid] == c.Origin()
    requires forall k :: 0 < k <= w.Hops() ==> HopReady(cs, w, net, streams, k)
    ensures Echo.Established(ChainOf(cs, w, Members(streams)), TakenUp(cs, w, net, streams).0, ZeroMarks(w.Hops()))
  {
    hide Fresh, Registered, Header, KeysAt, FwdKeys, BwdKeys, BuildFinish, Echo.Chain.Hop, Echo.Chain.Origin;
    var c := ChainOf(cs, w, Members(streams));
    var start := TakenUp(cs, w, net, streams).0;
    forall k | 0 < k < |c.addrs|
      ensures c.addrs[k] in start.nodes && c.cid in start.nodes[c.addrs[k]].circuits
      ensures start.nodes[c.addrs[k]].circuits[c.cid] == c.Hop(k - 1, 0)
    {
      assert HopReady(cs, w, net, streams, k);
      assert c.addrs[k] != c.addrs[0];
    }
  }

  /** Position k holds its hop's entry, under the circuit's one id. */
  ghost predicate HopReady(cs: Suite, w: World, net: Net, streams: seq<u16>, k: nat)
    requires Fresh(cs, w) && 0 < k <= w.Hops()
  {
    var c := ChainOf(cs, w, Members(streams));
    && w.Addr(k) in net.nodes && c.cid in net.nodes[w.Addr(k)].circuits
    && |c.fwd| == |c.bwd| == w.Hops() && |c.addrs| == w.Hops() + 1
    && net.nodes[w.Addr(k)].circuits[c.cid] == c.Hop(k - 1, 0)
  }

  lemma HopsReady(cs: Suite, w: World, net: Net, streams: seq<u16>)
    requires Fresh(cs, w) && Agreeing(w) && Settled(cs, w, net)
    ensures forall k :: 0 < k <= w.Hops() ==> HopReady(cs, w, net, streams, k)
  {
    hide Fresh, Settled, Agreeing, Entry, Echo.Chain.Hop, KeysAt;
    forall k | 0 < k <= w.Hops()
      ensures HopReady(cs, w, net, streams, k)
    {
      HopsHold(cs, w, net, k - 1);
      HopMatches(cs, w, streams, k - 1);
    }
  }

  lemma ChainShape(cs: Suite, w: World, streams: seq<u16>)
    requires Fresh(cs, w)
    ensures ChainOf(cs, w, Members(streams)).Valid() && w.Addr(0) == w.origin && w.origin in w.nodes
  {
    hide FreshHop, Encapsulated, KeysAt;
  }

  lemma SettledNodes(cs: Suite, w: World, net: Net)
    requires Fresh(cs, w) && Agreeing(w) && Settled(cs, w, net)
    ensures net.flight == [] && w.origin in net.nodes && net.nodes[w.origin] == OriginWoken(w)
  {
    hide FreshHop, Encapsulated, HopDone;
    assert w.Addr(0) == w.origin;
    assert AgreeFrom(w, 0);
  }

  lemma HopsHold(cs: Suite, w: World, net: Net, i: nat)
    requires Fresh(cs, w) && Settled(cs, w, net) && i < w.Hops()
    ensures EntryAdded(cs, w, net, i)
  {
    hide FreshHop, Encapsulated, Entry;
    var p := i + 1;
    assert net.nodes[w.Addr(p)] == HopDone(cs, w, p - 1);
  }

  lemma OriginReady(cs: Suite, w: World, net: Net, streams: seq<u16>)
    requires Fresh(cs, w) && w.origin in net.nodes && w.Cid(0) in net.nodes[w.origin].ready
    ensures var (start, h) := TakenUp(cs, w, net, streams);
            var c := ChainOf(cs, w, Members(streams));
            var o := start.nodes[w.origin];
            && h == Ok(c.Handle()) && c.cid in o.circuits && o.circuits[c.cid] == c.Origin()
            && o.inbox == net.nodes[w.origin].inbox && o.seqOrigin == net.nodes[w.origin].seqOrigin
  {
    hide FreshHop, Encapsulated, Registered, Header, KeysAt;
    var built := BuiltHeader(Header(cs, w, 0), w.plan.tag, FwdKeys(cs, w.plan), BwdKeys(cs, w.plan), w.Addr(1));
    var o := BuildFinish(net.nodes[w.origin], w.Cid(0), built).0;
    RegisteredStreams(o, w.Cid(0), streams);
  }

  lemma HopMatches(cs: Suite, w: World, streams: seq<u16>, i: nat)
    requires Fresh(cs, w) && Agreeing(w) && i < w.Hops()
    ensures var c := ChainOf(cs, w, Members(streams));
            c.cid == w.Cid(i) && Entry(cs, w, i) == c.Hop(i, 0)
  {
    hide FreshHop, Encapsulated, KeysAt;
    assert w.Cid(i) == w.Cid(0);
    if i + 1 < w.Hops() {
      assert w.Cid(i + 1) == w.Cid(0);
    }
  }

  /** Without agreement the origin gives up: the build times out. */
  lemma NotTakenUp(cs: Suite, w: World, net: Net, streams: seq<u16>)
    requires Fresh(cs, w) && !Agreeing(w) && Settled(cs, w, net)
    ensures w.origin in net.nodes && TakenUp(cs, w, net, streams).1 == Err(Cells.Timeout)
  {
    hide FreshHop, Encapsulated, Registered, Header, KeysAt, FwdKeys, BwdKeys, Entry;
    assert w.Addr(0) == w.origin;
    assert w.Cid(0) !in OriginWaiting(w).ready;
  }

  /** The sequence numbers the run draws neither start at zero nor wrap around. */
  predicate NoWrap(s: NodeState, acts: seq<Echo.Action>) {
    0 < s.seqOrigin && s.seqOrigin + |Echo.Sends(s.seqOrigin, acts)| <= 0x1_0000_0000
  }

  /** A run of sends and deliveries on circuit c, as the origin's streams see it. */
  ghost predicate Echoed(cs: Suite, c: Echo.Chain, start: Net, o: NodeState, acts: seq<Echo.Action>)
    requires |c.addrs| > 0 && c.addrs[0] in start.nodes
  {
    var end := Echo.Play(cs, c, start, acts);
    && c.addrs[0] in end.nodes
    && var got, owed := end.nodes[c.addrs[0]].inbox,
                        o.inbox + Echo.Delivered(c, P.Echoes(Echo.Sends(o.seqOrigin, acts)));
       got <= owed && (end.flight == [] ==> got == owed)
  }

  lemma FreshAddrs(cs: Suite, w: World)
    requires Fresh(cs, w)
    ensures w.Hops() > 0 && w.Known()
    ensures forall i, j :: 0 <= i < j <= w.Hops() ==> w.Addr(i) != w.Addr(j)
  {
  }

  lemma EchoedWhenTakenUp(cs: Suite, w: World, mid: Net, streams: seq<u16>, acts: seq<Echo.Action>)
    requires Fresh(cs, w) && Agreeing(w) && Settled(cs, w, mid)
    requires w.origin in w.nodes && NoWrap(w.nodes[w.origin], acts)
    ensures var c, (start, h) := ChainOf(cs, w, Members(streams)), TakenUp(cs, w, mid, streams);
            && w.origin == c.addrs[0] && w.origin in start.nodes
            && h == Ok(c.Handle()) && Echoed(cs, c, start, w.nodes[w.origin], acts)
  {
    hide TakenUp, Header, FwdKeys, BwdKeys, Fresh, Settled,
      Echo.Play, Echo.Sends, Echo.Delivered, P.Echoes, P.Passed, P.MaxOf, Registered, Agreeing;
    ChainShape(cs, w, streams);
    SettledNodes(cs, w, mid);
    TakenUpEstablished(cs, w, mid, streams);
    var c := ChainOf(cs, w, Members(streams));
    Echo.EchoDelivery(cs, c, TakenUp(cs, w, mid, streams).0, ZeroMarks(w.Hops()), acts);
    MaxOfZeros(ZeroMarks(w.Hops()));
    Echo.AllPassExactly(0, w.nodes[w.origin].seqOrigin, acts);
  }

  /**
   End to end: build a circuit under any delivery order of its CREATE fragments. The build
   succeeds if and only if the route's nodes drew the same circuit id, and then any FIFO
   interleaving of sends and deliveries gives the origin's streams, at every moment, a
   prefix of what the ECHO messages are owed, and exactly that once nothing is in flight:
   every ECHO on a registered stream, unchanged, in order, and nothing for DATA or DROP.
   */
  lemma BuiltCircuitsEcho(cs: Suite, w: World, schedule: seq<nat>, streams: seq<u16>, acts: seq<Echo.Action>)
    requires Fresh(cs, w)
    ensures |schedule| >= Work(cs, w, 0) ==>
              var c := ChainOf(cs, w, Members(streams));
              var mid := Exec(cs, Started(cs, w), schedule);
              && w.origin in mid.nodes && w.origin == c.addrs[0]
              && var (start, h) := TakenUp(cs, w, mid, streams);
                 && (h.Ok? <==> Agreeing(w))
                 && (h.Ok? ==> h.value == c.Handle())
                 && (h.Ok? && NoWrap(w.nodes[w.origin], acts) ==> Echoed(cs, c, start, w.nodes[w.origin], acts))
  {
    FreshAddrs(cs, w);
    hide Started, Assembling, Exec, Work, TakenUp, Header, FwdKeys, BwdKeys, Fresh, Settled, Agreeing, Echoed, NoWrap;
    if |schedule| >= Work(cs, w, 0) {
      StartedAssembles(cs, w);
      RunStarted(cs, w, Started(cs, w), schedule);
      ChainShape(cs, w, streams);
      var mid := Exec(cs, Started(cs, w), schedule);
      if Agreeing(w) {
        SettledNodes(cs, w, mid);
        TakenUpEstablished(cs, w, mid, streams);
        if NoWrap(w.nodes[w.origin], acts) {
          EchoedWhenTakenUp(cs, w, mid, streams, acts);
        }
      } else {
        NotTakenUp(cs, w, mid, streams);
      }
    }
  }

  /** What the streams of circuit c get from a run in a crowd: every ECHO on a registered stream, in order. */
  ghost predicate EchoedInCrowd(cs: Suite, c: Echo.Chain, start: Net, vs: seq<Crowd.Doing>)
    requires |c.addrs| > 0 && c.addrs[0] in start.nodes
  {
    var end := Crowd.DoneAll(cs, c, start, vs);
    var got := Crowd.OfCircuit(c.cid, end.nodes[c.addrs[0]].inbox);
    var owed := Crowd.OfCircuit(c.cid, start.nodes[c.addrs[0]].inbox)
                + Echo.Delivered(c, P.Echoes(Crowd.Draws(cs, c, start, vs)));
    got <= owed && (Traffic.Mine(Crowd.ScopeOf(c), end.flight) == [] ==> got == owed)
  }

  /** The ids agree, so the scope of the construction is the scope of the circuit. */
  lemma SameScope(cs: Suite, w: World, streams: set<u16>)
    requires Fresh(cs, w) && Agreeing(w)
    ensures w.Known() && Crowd.ScopeOf(ChainOf(cs, w, streams)) == Bystanders.ScopeOf(w)
  {
    hide FreshHop, Encapsulated, FwdKeys, BwdKeys;
    var c := ChainOf(cs, w, streams);
    forall a | a in c.addrs
      ensures (a, c.cid) in Bystanders.ScopeOf(w)
    {
      var i :| 0 <= i < |c.addrs| && c.addrs[i] == a;
      var k := if i == 0 then 0 else i - 1;
      Bystanders.InScope(w, k);
      assert w.Cid(k) == w.Cid(0);
    }
    forall p | p in Bystanders.ScopeOf(w)
      ensures p in Crowd.ScopeOf(c)
    {
      var i :| 0 <= i < w.Hops() && (p == (w.Addr(i + 1), w.Cid(i)) || p == (w.Addr(i), w.Cid(i)));
      assert c.addrs[i] == w.Addr(i) && c.addrs[i + 1] == w.Addr(i + 1) && w.Cid(i) == c.cid;
    }
  }

  /** A construction among others, taken up by the origin, is an established circuit in a crowd. */
  lemma TakenUpAmong(cs: Suite, w: World, mid: Net, streams: seq<u16>)
    requires Fresh(cs, w) && Agreeing(w) && Bystanders.ConstructedAmong(cs, w, mid)
    ensures w.origin in mid.nodes
    ensures var (start, h) := TakenUp(cs, w, mid, streams);
            var c := ChainOf(cs, w, Members(streams));
            && h == Ok(c.Handle()) && c.addrs != [] && c.addrs[0] == w.origin && w.origin in start.nodes
            && Echo.Established(c, Crowd.Share(c, start), ZeroMarks(w.Hops()))
            && start.nodes[w.origin].seqOrigin == mid.nodes[w.origin].seqOrigin
  {
    SameScope(cs, w, Members(streams));
    hide Fresh, Agreeing, TakenUp, ChainOf, Echo.Established, Traffic.Mine, Bystanders.HoldsEntry, Bystanders.ScopeOf,
      Crowd.ScopeOf;
    var quiet := Net(mid.nodes, []);
    OriginReady(cs, w, quiet, streams);
    HopsAmong(cs, w, mid, streams);
    ChainShape(cs, w, streams);
    ChainEstablished(cs, w, quiet, streams);
    TakenUpNodes(cs, w, mid, streams);
    Crowd.EstablishedShare(ChainOf(cs, w, Members(streams)), TakenUp(cs, w, mid, streams).0, ZeroMarks(w.Hops()));
  }

  lemma TakenUpNodes(cs: Suite, w: World, mid: Net, streams: seq<u16>)
    requires Fresh(cs, w) && w.origin in mid.nodes
    ensures var (start, h), (quiet, q) := TakenUp(cs, w, mid, streams), TakenUp(cs, w, Net(mid.nodes, []), streams);
            start == Net(quiet.nodes, mid.flight) && quiet == Net(quiet.nodes, []) && h == q
  {
  }

  lemma HopsAmong(cs: Suite, w: World, mid: Net, streams: seq<u16>)
    requires Fresh(cs, w) && Agreeing(w) && Bystanders.ConstructedAmong(cs, w, mid)
    ensures forall k :: 0 < k <= w.Hops() ==> HopReady(cs, w, Net(mid.nodes, []), streams, k)
  {
    hide Fresh, Agreeing, Entry, Echo.Chain.Hop, KeysAt;
    forall k | 0 < k <= w.Hops()
      ensures HopReady(cs, w, Net(mid.nodes, []), streams, k)
    {
      assert Bystanders.HoldsEntry(cs, w, mid, k - 1);
      HopMatches(cs, w, streams, k - 1);
    }
  }

  lemma NotTakenUpAmong(cs: Suite, w: World, mid: Net, streams: seq<u16>)
    requires Fresh(cs, w) && !Agreeing(w) && Bystanders.ConstructedAmong(cs, w, mid)
    ensures w.origin in mid.nodes && TakenUp(cs, w, mid, streams).1 == Err(Cells.Timeout)
  {
    hide FreshHop, Encapsulated, Registered, Header, KeysAt, FwdKeys, BwdKeys;
  }

  lemma EchoedAmong(cs: Suite, c: Echo.Chain, start: Net, marks: seq<u32>, vs: seq<Crowd.Doing>)
    requires |c.addrs| > 0 && c.addrs[0] in start.nodes && Echo.Established(c, Crowd.Share(c, start), marks)
    requires P.MaxOf(marks) == 0 && 0 < start.nodes[c.addrs[0]].seqOrigin
    requires Crowd.AllPolite(cs, c, start, vs) && Crowd.CounterHolds(cs, c, start, vs)
    ensures EchoedInCrowd(cs, c, start, vs)
  {
    hide Crowd.AllPolite, Crowd.CounterHolds, Crowd.DoneAll, Crowd.Draws, Traffic.Mine, Crowd.OfCircuit, Crowd.Share,
      Echo.Established, Echo.Delivered, P.Echoes, P.Passed, P.MaxOf;
    Crowd.CrowdedEcho(cs, c, start, marks, vs);
  }

  /**
   End to end in a crowd: build a circuit while its nodes carry any other traffic, its own
   CREATE fragments arriving in any order; the build succeeds if and only if the ids agree;
   and then its streams get exactly the echoes of its own sends while its nodes go on
   building, using and losing any other circuits.
   */
  lemma CrowdedEndToEnd(cs: Suite, w: World, others: seq<Msg>, before: seq<Traffic.Move>, streams: seq<u16>,
                        afterwards: seq<Crowd.Doing>)
    requires Fresh(cs, w) && w.Known() && Traffic.NoneOurs(Bystanders.ScopeOf(w), others)
    requires Bystanders.AllDiscreet(cs, Bystanders.ScopeOf(w), Bystanders.StartedAmong(cs, w, others), before)
    ensures var net := Bystanders.StartedAmong(cs, w, others);
            Bystanders.Deliveries(cs, Bystanders.ScopeOf(w), net, before) >= Work(cs, w, 0) ==>
              var c := ChainOf(cs, w, Members(streams));
              var mid := Bystanders.MovedAll(cs, net, before);
              && w.origin in mid.nodes
              && var (start, h) := TakenUp(cs, w, mid, streams);
                 && (h.Ok? <==> Agreeing(w)) && (h.Ok? ==> h.value == c.Handle())
                 && |c.addrs| > 0 && c.addrs[0] in start.nodes
                 && (h.Ok? && 0 < mid.nodes[w.origin].seqOrigin
                     && Crowd.AllPolite(cs, c, start, afterwards) && Crowd.CounterHolds(cs, c, start, afterwards) ==>
                       EchoedInCrowd(cs, c, start, afterwards))
  {
    hide Work, TakenUp, Fresh, Agreeing, EchoedInCrowd, Crowd.AllPolite, Crowd.CounterHolds, P.MaxOf, Echo.Established,
      Bystanders.StartedAmong, Bystanders.AllDiscreet, Bystanders.MovedAll, Bystanders.Deliveries,
      Bystanders.ConstructedAmong;
    var net := Bystanders.StartedAmong(cs, w, others);
    if Bystanders.Deliveries(cs, Bystanders.ScopeOf(w), net, before) >= Work(cs, w, 0) {
      Bystanders.ConstructionAmong(cs, w, others, before);
      var mid := Bystanders.MovedAll(cs, net, before);
      if Agreeing(w) {
        TakenUpAmong(cs, w, mid, streams);
        var c, start := ChainOf(cs, w, Members(streams)), TakenUp(cs, w, mid, streams).0;
        MaxOfZeros(ZeroMarks(w.Hops()));
        if 0 < mid.nodes[w.origin].seqOrigin
           && Crowd.AllPolite(cs, c, start, afterwards) && Crowd.CounterHolds(cs, c, start, afterwards) {
          EchoedAmong(cs, c, start, ZeroMarks(w.Hops()), afterwards);
        }
      } else {
        NotTakenUpAmong(cs, w, mid, streams);
        TakenUpKeys(cs, w, mid, streams);
      }
    }
  }

  lemma TakenUpKeys(cs: Suite, w: World, mid: Net, streams: seq<u16>)
    requires Fresh(cs, w) && w.origin in mid.nodes
    ensures var c := ChainOf(cs, w, Members(streams));
            |c.addrs| > 0 && c.addrs[0] in TakenUp(cs, w, mid, streams).0.nodes
  {
    hide FreshHop, Encapsulated, Registered, BuildFinish;
    ChainShape(cs, w, streams);
  }

  /** The places of the circuit's entries, hop by hop. */
  ghost function Places(w: World): (r: seq<R.Place>)
    requires w.Known()
    ensures |r| == w.Hops() && forall i :: 0 <= i < |r| ==> r[i] == (w.Addr(i + 1), w.Cid(i))
  {
    seq(w.Hops(), i requires 0 <= i < w.Hops() => (w.Addr(i + 1), w.Cid(i)))
  }

  /** No other circuit of a hop runs over a link of this one: no old entry there names the next place. */
  ghost predicate Unshared(w: World)
    requires w.Known()
  {
    forall i :: 0 <= i < w.Hops() - 1 ==> R.SoleSource(w.nodes[w.Addr(i + 1)], R.LinkAt(Places(w), i))
  }

  /** The hops' tables are as any life of theirs in which the id counter has not wrapped leaves them. */
  ghost predicate Orderly(w: World)
    requires w.Known()
  {
    forall i :: 0 < i <= w.Hops() ==> Ids.InOrder(w.nodes[w.Addr(i)])
  }

  /** A freshly drawn id is in no link of the node that draws it, so no old circuit shares the new one's links. */
  lemma OrderlyUnshared(cs: Suite, w: World)
    requires Fresh(cs, w) && Orderly(w)
    ensures Unshared(w)
  {
    hide Encapsulated, HeaderAt, Fragments.Total, Owns;
    forall i | 0 <= i < w.Hops() - 1
      ensures R.SoleSource(w.nodes[w.Addr(i + 1)], R.LinkAt(Places(w), i))
    {
      assert FreshHop(cs, w, i) && Ids.InOrder(w.nodes[w.Addr(i + 1)]);
      assert R.LinkAt(Places(w), i).down == (w.Addr(i + 2), w.Cid(i + 1));
    }
  }

  /** Two nodes that gained entries pointing at each other are linked. */
  lemma GainedLinked(net: Net, l: R.Link, s: NodeState, up: CircuitEntry, down: CircuitEntry)
    requires l.up.0 in net.nodes && net.nodes[l.up.0].circuits == s.circuits[l.up.1 := up] && R.SoleSource(s, l)
    requires l.down.0 in net.nodes && l.down.1 in net.nodes[l.down.0].circuits
    requires net.nodes[l.down.0].circuits[l.down.1] == down && !down.OriginEntry?
    requires up.RelayEntry? && up.prev.peer != l.down.0 && down.prev.peer == l.up.0 && l.up.0 != l.down.0
    requires net.flight == []
    ensures R.Ready(R.Sys(net, map[]), l)
  {
  }

  lemma SettledQuiet(cs: Suite, w: World, net: Net)
    requires Fresh(cs, w) && Settled(cs, w, net)
    ensures net.flight == []
  {
  }

  lemma LinksReady(cs: Suite, w: World, net: Net, i: nat)
    requires Fresh(cs, w) && Unshared(w) && Settled(cs, w, net) && i + 1 < w.Hops()
    ensures R.Ready(R.Sys(net, map[]), R.LinkAt(Places(w), i))
  {
    hide Fresh, Settled, KeysAt, R.Ready, R.SoleSource;
    FreshAddrs(cs, w);
    SettledQuiet(cs, w, net);
    HopsHold(cs, w, net, i);
    HopsHold(cs, w, net, i + 1);
    var l, up, down := R.LinkAt(Places(w), i), Entry(cs, w, i), Entry(cs, w, i + 1);
    assert l.up == (w.Addr(i + 1), w.Cid(i)) && l.down == (w.Addr(i + 2), w.Cid(i + 1));
    GainedLinked(net, l, w.nodes[w.Addr(i + 1)], up, down);
  }

  lemma BuiltIsChained(cs: Suite, w: World, net: Net)
    requires Fresh(cs, w) && Unshared(w) && Settled(cs, w, net)
    ensures R.Chained(R.Sys(net, map[]), Places(w))
  {
    hide Fresh, Settled, R.Ready, Unshared, Entry;
    FreshAddrs(cs, w);
    forall h | 0 <= h < w.Hops() - 1
      ensures R.Ready(R.Sys(net, map[]), R.LinkAt(Places(w), h))
    {
      LinksReady(cs, w, net, h);
    }
    forall i | 0 <= i < w.Hops()
      ensures R.Holds(R.Sys(net, map[]), Places(w)[i])
    {
      HopsHold(cs, w, net, i);
      EntryIsHop(cs, w, i);
    }
  }

  lemma EntryIsHop(cs: Suite, w: World, i: nat)
    requires Fresh(cs, w) && i < w.Hops()
    ensures !Entry(cs, w, i).OriginEntry?
  {
    hide KeysAt;
  }

  /** The built circuit with empty histories, about to carry traffic. */
  ghost function Finished(cs: Suite, w: World, schedule: seq<nat>): R.Sys
    requires Fresh(cs, w)
  {
    R.Sys(Exec(cs, Started(cs, w), schedule), map[])
  }

  /**
   Replay safety of what was built among nodes in any reachable state: after a construction
   in any delivery order, on any schedule that loses, duplicates, reorders and, off the
   links, invents cells, while the route's nodes may build and lose any other circuits and
   this one's entries live, the numbers every hop accepts increase and are a subsequence of
   those of every hop before it.
   */
  lemma BuiltCircuitsAreReplaySafe(cs: Suite, w: World, schedule: seq<nat>, acts: seq<R.Action>, i: nat, j: nat)
    requires Fresh(cs, w) && Orderly(w) && i <= j < w.Hops()
    ensures |schedule| >= Work(cs, w, 0) && R.Calm(cs, Finished(cs, w, schedule), acts, Places(w)) ==>
              var end := R.Run(cs, Finished(cs, w, schedule), acts);
              var early, late := R.History(end, Places(w)[i]), R.History(end, Places(w)[j]);
              R.Increasing(early) && R.Increasing(late) && R.IsSubseq(late, early)
  {
    hide Started, Assembling, Exec, Work, Header, Fresh, Settled, Unshared, Orderly,
      R.Run, R.History, R.Calm, R.IsSubseq, R.Increasing, R.Chained;
    FreshAddrs(cs, w);
    if |schedule| >= Work(cs, w, 0) && R.Calm(cs, Finished(cs, w, schedule), acts, Places(w)) {
      StartedAssembles(cs, w);
      RunStarted(cs, w, Started(cs, w), schedule);
      OrderlyUnshared(cs, w);
      BuiltIsChained(cs, w, Exec(cs, Started(cs, w), schedule));
      R.ReplaySafety(cs, Finished(cs, w, schedule), Places(w), acts, i, j);
    }
  }

  /** A spawned node with the secrets of its record in the transparent suite. */
  function Newcomer(): NodeState {
    Spawned(NodeIdentity(Zeros(32), Zeros(32), Zeros(32), []))
  }

  function RecordAt(port: u16): Descriptor {
    Descriptor(Zeros(20), Zeros(32), Zeros(32), Zeros(32), Zeros(KEM_PK_LEN), V4(Zeros(4), port), 0, 0, Zeros(64))
  }

  /** A route of two hops, the first of them having drawn `used` ids already. */
  function TwoHops(used: u32): World {
    var kem: (KemCt, Bytes32) := (Zeros(CT_LEN), Zeros(32));
    var plan := Plan([RecordAt(1), RecordAt(2)], Zeros(16), [1, 1], [kem, kem]);
    World(plan, [[], []], V4(Zeros(4), 0),
          map[V4(Zeros(4), 0) := Newcomer(), V4(Zeros(4), 1) := Newcomer().(nextCid := used), V4(Zeros(4), 2) := Newcomer()])
  }

  lemma TwoHopsFresh(used: u32)
    requires used > 0
    ensures Fresh(Toy(), TwoHops(used)) && TwoHops(used).Hops() == 2 && Orderly(TwoHops(used))
    ensures TwoHops(used).Cid(0) == 1 && TwoHops(used).Cid(1) == used
  {
    hide HeaderAt, Fragments.Total;
    var w := TwoHops(used);
    assert w.Addr(0) == V4(Zeros(4), 0) && w.Addr(1) == V4(Zeros(4), 1) && w.Addr(2) == V4(Zeros(4), 2);
    assert TERMINAL_ID[0] == 0xFF && RecordAt(2).nodeId[0] == 0;
    assert FreshHop(Toy(), w, 0) && FreshHop(Toy(), w, 1);
  }

  /** The hypotheses can be met: freshly spawned nodes, a route of two hops, and the build succeeds. */
  lemma FreshIsPossible(schedule: seq<nat>)
    ensures var cs: Suite, w: World := Toy(), TwoHops(1);
            && Fresh(cs, w) && Agreeing(w) && NoWrap(w.nodes[w.origin], [])
            && (|schedule| >= Work(cs, w, 0) ==>
                  var mid := Exec(cs, Started(cs, w), schedule);
                  w.origin in mid.nodes && TakenUp(cs, w, mid, []).1.Ok?)
  {
    hide Fresh, Exec, Started, Work, TakenUp, Echoed, ChainOf;
    TwoHopsFresh(1);
    BuiltCircuitsEcho(Toy(), TwoHops(1), schedule, [], []);
  }

  /**
   And it can fail: let the first hop have drawn one id before, for a circuit it has built
   and closed since. Every cell is delivered, every hop installs its entry, and yet on
   every schedule CREATED is lost and the build times out.
   */
  lemma DisagreeingTimesOut(schedule: seq<nat>)
    ensures var cs: Suite, w: World := Toy(), TwoHops(2);
            && Fresh(cs, w) && !Agreeing(w)
            && (|schedule| >= Work(cs, w, 0) ==>
                  var mid := Exec(cs, Started(cs, w), schedule);
                  w.origin in mid.nodes && TakenUp(cs, w, mid, []).1 == Err(Cells.Timeout))
  {
    hide Fresh, Exec, Started, Work, TakenUp, Header, Assembling, Settled;
    var cs: Suite, w: World := Toy(), TwoHops(2);
    TwoHopsFresh(2);
    assert w.Cid(1) != w.Cid(0);
    if |schedule| >= Work(cs, w, 0) {
      StartedAssembles(cs, w);
      RunStarted(cs, w, Started(cs, w), schedule);
      NotTakenUp(cs, w, Exec(cs, Started(cs, w), schedule), []);
    }
  }
}
