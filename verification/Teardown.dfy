/**
 DESTROY. From any network whatever, a run of DESTROY cells dies out: a handled DESTROY
 sends at most one more, and only after removing an entry. On an established circuit
 a DESTROY travels towards the origin only, so closing a circuit clears the origin and
 its first hop and leaves every later hop's entry in place.
 */
module Teardown {
  import opened Octets
  import opened Crypto
  import opened Identity
  import opened Cells
  import opened Engine
  import opened Network
  import Echo

  /** All circuit entries of all nodes. */
  ghost function Entries(nodes: map<SocketAddr, NodeState>): nat {
    if nodes == map[] then 0
    else
      var a :| a in nodes;
      |nodes[a].circuits| + Entries(nodes - {a})
  }

  lemma {:induction false} EntriesSplit(nodes: map<SocketAddr, NodeState>, a: SocketAddr)
    requires a in nodes
    ensures Entries(nodes) == |nodes[a].circuits| + Entries(nodes - {a})
    decreases |nodes|
  {
    var b :| b in nodes && Entries(nodes) == |nodes[b].circuits| + Entries(nodes - {b});
    if b != a {
      assert nodes - {a} - {b} == nodes - {b} - {a};
      EntriesSplit(nodes - {b}, a);
      EntriesSplit(nodes - {a}, b);
    }
  }

  lemma EntriesChange(nodes: map<SocketAddr, NodeState>, a: SocketAddr, s: NodeState)
    requires a in nodes
    ensures Entries(nodes[a := s]) + |nodes[a].circuits| == Entries(nodes) + |s.circuits|
  {
    EntriesSplit(nodes, a);
    EntriesSplit(nodes[a := s], a);
    assert nodes[a := s] - {a} == nodes - {a};
  }

  predicate DestroyOnly(flight: seq<Msg>) {
    forall k :: 0 <= k < |flight| ==> flight[k].cell.cmd.Destroy?
  }

  ghost function Measure(net: Net): nat {
    2 * Entries(net.nodes) + |net.flight|
  }

  /** At most one answer, itself a DESTROY, and only for an entry removed. */
  lemma DestroyAnswers(cs: Suite, s: NodeState, src: SocketAddr, cell: Cell)
    requires cell.cmd.Destroy?
    ensures var (s', ps) := HandleCell(cs, s, src, cell);
            && s'.circuits == s.circuits - {cell.cid}
            && |s'.circuits| + |Posted(src, ps)| <= |s.circuits|
            && forall a :: |Posted(a, ps)| == |ps| && DestroyOnly(Posted(a, ps))
  {
    var (s', ps) := HandleCell(cs, s, src, cell);
    if cell.cid in s.circuits {
      RemovedOne(s.circuits, cell.cid);
    } else {
      assert s.circuits - {cell.cid} == s.circuits;
    }
    forall a
      ensures |Posted(a, ps)| == |ps| && DestroyOnly(Posted(a, ps))
    {
      PostedAll(a, ps);
    }
  }

  lemma RemovedOne<K, V>(m: map<K, V>, k: K)
    requires k in m
    ensures |m - {k}| == |m| - 1
  {
    assert (m - {k}).Keys == m.Keys - {k};
    assert |(m - {k}).Keys| == |m - {k}| && |m.Keys| == |m|;
  }

  lemma StepDecreases(cs: Suite, net: Net, j: nat)
    requires DestroyOnly(net.flight) && j < |net.flight|
    ensures var after := Deliver(cs, net, j);
            DestroyOnly(after.flight) && Measure(after) < Measure(net)
  {
    hide HandleCell;
    var m := net.flight[j];
    if m.dst in net.nodes {
      var (s', ps) := HandleCell(cs, net.nodes[m.dst], m.src, m.cell);
      DestroyAnswers(cs, net.nodes[m.dst], m.src, m.cell);
      EntriesChange(net.nodes, m.dst, s');
      assert |Posted(m.dst, ps)| == |ps| == |Posted(m.src, ps)|;
    }
  }

  /** No DESTROY storm: from any state the cells are gone after at most Measure deliveries, in any order. */
  lemma {:induction false} DestroyDiesOut(cs: Suite, net: Net, schedule: seq<nat>)
    requires DestroyOnly(net.flight)
    ensures var end := Exec(cs, net, schedule);
            && DestroyOnly(end.flight) && Entries(end.nodes) <= Entries(net.nodes)
            && (|schedule| >= Measure(net) ==> end.flight == [])
    decreases |schedule|
  {
    hide Deliver;
    if schedule != [] {
      if net.flight == [] {
        Idle(cs, net, schedule);
      } else {
        var j := schedule[0] % |net.flight|;
        StepDecreases(cs, net, j);
        EntriesShrink(cs, net, j);
        DestroyDiesOut(cs, Deliver(cs, net, j), schedule[1..]);
      }
    }
  }

  lemma EntriesShrink(cs: Suite, net: Net, j: nat)
    requires DestroyOnly(net.flight) && j < |net.flight|
    ensures Entries(Deliver(cs, net, j).nodes) <= Entries(net.nodes)
  {
    hide HandleCell;
    var m := net.flight[j];
    if m.dst in net.nodes {
      DestroyAnswers(cs, net.nodes[m.dst], m.src, m.cell);
      EntriesChange(net.nodes, m.dst, HandleCell(cs, net.nodes[m.dst], m.src, m.cell).0);
    }
  }

  // ---- a circuit ----

  function Forgets(s: NodeState, cid: u32): NodeState {
    s.(circuits := s.circuits - {cid})
  }

  /** Positions 0 .. i of the circuit without their entries. */
  function ClearedUpTo(c: Echo.Chain, nodes: map<SocketAddr, NodeState>, i: nat): (r: map<SocketAddr, NodeState>)
    requires i < |c.addrs| && forall k :: 0 <= k <= i ==> c.addrs[k] in nodes
    ensures r.Keys == nodes.Keys
  {
    var cut := nodes[c.addrs[i] := Forgets(nodes[c.addrs[i]], c.cid)];
    if i == 0 then cut else ClearedUpTo(c, cut, i - 1)
  }

  /** Position k holds its hop entry, whatever its sequence mark. */
  predicate HoldsHop(c: Echo.Chain, s: NodeState, k: nat)
    requires 0 < k < |c.addrs|
  {
    && c.cid in s.circuits && !s.circuits[c.cid].OriginEntry?
    && s.circuits[c.cid].prev == HopLink(c.cid, c.addrs[k - 1])
  }

  /** The origin still holds its entry, or has closed the circuit already. */
  predicate OriginOrNone(c: Echo.Chain, s: NodeState) {
    c.cid in s.circuits ==> s.circuits[c.cid].OriginEntry?
  }

  /** A DESTROY that reaches position i clears positions i, i - 1, ..., 0 and nothing else. */
  lemma {:induction false} DestroyTravelsHome(cs: Suite, c: Echo.Chain, net: Net, i: nat, src: SocketAddr, schedule: seq<nat>)
    requires c.Valid() && i < |c.addrs| && |schedule| > i
    requires forall k :: 0 <= k <= i ==> c.addrs[k] in net.nodes
    requires OriginOrNone(c, net.nodes[c.addrs[0]])
    requires forall k :: 0 < k <= i ==> HoldsHop(c, net.nodes[c.addrs[k]], k)
    requires net.flight == [Msg(src, c.addrs[i], Signal(c.cid, Destroy))]
    ensures Exec(cs, net, schedule) == Net(ClearedUpTo(c, net.nodes, i), [])
    decreases i
  {
    assert schedule[0] % |net.flight| == 0;
    var s := net.nodes[c.addrs[i]];
    var after := Deliver(cs, net, 0);
    if i == 0 {
      assert s.circuits - {c.cid} == (if c.cid in s.circuits then s.circuits - {c.cid} else s.circuits);
      DeliverOnly(cs, net, Forgets(s, c.cid), []);
      Idle(cs, after, schedule[1..]);
    } else {
      var p := Packet(c.addrs[i - 1], Signal(c.cid, Destroy));
      DeliverOnly(cs, net, Forgets(s, c.cid), [p]);
      PostedOne(c.addrs[i], p);
      DestroyTravelsHome(cs, c, after, i - 1, c.addrs[i], schedule[1..]);
    }
  }

  /** The network right after the origin closes an idle circuit. */
  function Closed(c: Echo.Chain, net: Net): Net
    requires |c.addrs| > 0 && c.addrs[0] in net.nodes
  {
    var (o, ps) := Close(net.nodes[c.addrs[0]], c.Handle());
    Net(net.nodes[c.addrs[0] := o], net.flight + Posted(c.addrs[0], ps))
  }

  lemma {:induction false} ClearedAt(c: Echo.Chain, nodes: map<SocketAddr, NodeState>, i: nat, a: SocketAddr)
    requires c.Valid() && i < |c.addrs| && (forall k :: 0 <= k <= i ==> c.addrs[k] in nodes) && a in nodes
    ensures ClearedUpTo(c, nodes, i)[a] == if a in c.addrs[..i + 1] then Forgets(nodes[a], c.cid) else nodes[a]
  {
    if i > 0 {
      ClearedAt(c, nodes[c.addrs[i] := Forgets(nodes[c.addrs[i]], c.cid)], i - 1, a);
      assert c.addrs[..i + 1] == c.addrs[..i] + [c.addrs[i]];
    } else {
      assert c.addrs[..1] == [c.addrs[0]];
    }
  }

  /**
   Closing an established, idle circuit: on every schedule the network falls silent, the
   origin and its first hop no longer hold the circuit, and every other node, later hops
   included, is exactly as it was.
   */
  lemma CloseReachesOneHop(cs: Suite, c: Echo.Chain, net: Net, marks: seq<u32>, schedule: seq<nat>, a: SocketAddr)
    requires Echo.Established(c, net, marks) && |schedule| >= 2 && a in net.nodes
    ensures var end := Exec(cs, Closed(c, net), schedule);
            && end.flight == [] && end.nodes.Keys == net.nodes.Keys
            && end.nodes[a] == if a == c.addrs[0] || a == c.addrs[1] then Forgets(net.nodes[a], c.cid) else net.nodes[a]
  {
    hide Exec, HandleCell, ClearedUpTo;
    var net' := Closed(c, net);
    PostedOne(c.addrs[0], Packet(c.addrs[1], Signal(c.cid, Destroy)));
    assert net'.flight == [Msg(c.addrs[0], c.addrs[1], Signal(c.cid, Destroy))];
    assert net.nodes[c.addrs[1]].circuits[c.cid] == c.Hop(1 - 1, marks[1 - 1]);
    DestroyTravelsHome(cs, c, net', 1, c.addrs[0], schedule);
    ClearedAt(c, net'.nodes, 1, a);
    assert c.addrs[..2] == [c.addrs[0], c.addrs[1]];
    ForgetsTwice(net.nodes[c.addrs[0]], c.cid);
  }

  lemma ForgetsTwice(s: NodeState, cid: u32)
    ensures Forgets(Forgets(s, cid), cid) == Forgets(s, cid)
  {
    assert s.circuits - {cid} - {cid} == s.circuits - {cid};
  }
}
