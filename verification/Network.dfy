/**
 The network as a step machine: node states by address and the cells in flight. Each
 step takes one cell out of flight, in an order chosen by a schedule, and lets its
 receiver handle it atomically.
 */
module Network {
  import opened Crypto
  import opened Identity
  import opened Cells
  import opened Engine

  datatype Msg = Msg(src: SocketAddr, dst: SocketAddr, cell: Cell)

  datatype Net = Net(nodes: map<SocketAddr, NodeState>, flight: seq<Msg>)

  /** Cells put on the wire; one whose payload does not fit makes `encode` panic instead. */
  function Posted(src: SocketAddr, ps: seq<Packet>): seq<Msg> {
    if ps == [] then []
    else (if Fits(ps[0].cell) then [Msg(src, ps[0].dst, ps[0].cell)] else []) + Posted(src, ps[1..])
  }

  function Without<T>(s: seq<T>, j: nat): (r: seq<T>)
    requires j < |s|
    ensures |r| == |s| - 1
    ensures forall k :: 0 <= k < |r| ==> r[k] == if k < j then s[k] else s[k + 1]
  {
    s[..j] + s[j + 1..]
  }

  /** Cell j reaches its destination; a cell for nobody vanishes. */
  function Deliver(cs: Suite, net: Net, j: nat): Net
    requires j < |net.flight|
  {
    var m := net.flight[j];
    var rest := Without(net.flight, j);
    if m.dst !in net.nodes then Net(net.nodes, rest)
    else
      var r := HandleCell(cs, net.nodes[m.dst], m.src, m.cell);
      Net(net.nodes[m.dst := r.0], rest + Posted(m.dst, r.1))
  }

  /** A schedule is a list of numbers; each picks one of the cells in flight. */
  function Exec(cs: Suite, net: Net, schedule: seq<nat>): Net
    decreases |schedule|
  {
    if schedule == [] then net
    else if net.flight == [] then Exec(cs, net, schedule[1..])
    else Exec(cs, Deliver(cs, net, schedule[0] % |net.flight|), schedule[1..])
  }

  /** A network with nothing in flight stays as it is. */
  lemma {:induction false} Idle(cs: Suite, net: Net, schedule: seq<nat>)
    requires net.flight == []
    ensures Exec(cs, net, schedule) == net
    decreases |schedule|
  {
    if schedule != [] {
      Idle(cs, net, schedule[1..]);
    }
  }

  lemma {:induction false} PostedAll(src: SocketAddr, ps: seq<Packet>)
    requires forall i :: 0 <= i < |ps| ==> Fits(ps[i].cell)
    ensures |Posted(src, ps)| == |ps|
    ensures forall i :: 0 <= i < |ps| ==> Posted(src, ps)[i] == Msg(src, ps[i].dst, ps[i].cell)
  {
    if ps != [] {
      PostedAll(src, ps[1..]);
    }
  }

  /** Everything in flight fits a cell if it did before: posting filters. */
  lemma {:induction false} PostedFits(src: SocketAddr, ps: seq<Packet>)
    ensures forall m :: m in Posted(src, ps) ==> Fits(m.cell) && m.src == src
  {
    if ps != [] {
      PostedFits(src, ps[1..]);
    }
  }

  /** The only cell in flight is handled: what is in flight next is what its receiver posted. */
  lemma DeliverOnly(cs: Suite, net: Net, s: NodeState, ps: seq<Packet>)
    requires |net.flight| == 1 && net.flight[0].dst in net.nodes
    requires var m := net.flight[0]; HandleCell(cs, net.nodes[m.dst], m.src, m.cell) == (s, ps)
    ensures var m := net.flight[0];
            Deliver(cs, net, 0) == Net(net.nodes[m.dst := s], Posted(m.dst, ps))
  {
    assert Without(net.flight, 0) == [];
  }

  lemma PostedOne(src: SocketAddr, p: Packet)
    requires Fits(p.cell)
    ensures Posted(src, [p]) == [Msg(src, p.dst, p.cell)]
  {
    assert [p][1..] == [];
  }
}
