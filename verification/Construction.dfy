/**
 Building a circuit, over every delivery order. One CREATE carries the whole route: the
 origin's header is fragmented, reassembled and peeled hop by hop, and CREATED travels
 back. The theorem: every schedule ends with every hop holding the entry the origin
 meant for it, and the origin is woken exactly when all the circuit ids involved agree.
 */
module Construction {
  import opened Wrappers
  import opened Octets
  import opened Crypto
  import opened Identity
  import opened Sphinx
  import opened SphinxMachine
  import opened Cells
  import opened Fragments
  import opened Engine
  import opened Network

  /** A route to be built: the origin's plan and every node before it starts. */
  datatype World = World(plan: Plan, coins: seq<Bytes>, origin: SocketAddr, nodes: map<SocketAddr, NodeState>)
  {
    function Hops(): nat {
      |plan.route|
    }

    /** Position 0 is the origin, position i + 1 is hop i. */
    function Addr(i: nat): SocketAddr
      requires i <= Hops()
    {
      if i == 0 then origin else plan.route[i - 1].cellAddr
    }

    /** The id position i draws for the link to position i + 1. */
    function Cid(i: nat): u32
      requires i <= Hops() && Addr(i) in nodes
    {
      nodes[Addr(i)].nextCid
    }

    ghost predicate Known() {
      forall i :: 0 <= i <= Hops() ==> Addr(i) in nodes
    }

    ghost predicate OnRoute(a: SocketAddr) {
      exists i :: 0 <= i <= Hops() && a == Addr(i)
    }
  }

  /** Distinct IPv4 addresses, hops that own their descriptors and do not know the ids in use yet. */
  ghost predicate Fresh(cs: Suite, w: World) {
    && w.plan.Valid() && w.Hops() <= MAX_HOPS
    && Encapsulated(cs, w.plan, w.coins)
    && (forall i, j :: 0 <= i < j <= w.Hops() ==> w.Addr(i) != w.Addr(j))
    && w.Known()
    && (forall i :: 0 <= i < w.Hops() ==> FreshHop(cs, w, i))
    && w.Cid(0) !in w.nodes[w.origin].ready
  }

  /**
   Hop i may hold any number of other circuits, waiters and fragments. Only the id it will
   draw must not be in use there, and under the id it is given it must not be collecting a
   header of the same fragment count; leftovers of another count do no harm.
   */
  ghost predicate FreshHop(cs: Suite, w: World, i: nat)
    requires w.plan.Valid() && w.Known() && i < w.Hops()
  {
    var d, s := w.plan.route[i], w.nodes[w.Addr(i + 1)];
    && d.cellAddr.V4? && (i > 0 ==> d.nodeId != TERMINAL_ID)
    && Owns(cs, s.identity, d)
    && Stale(s.createFrags, w.Cid(i), HeaderAt(cs, w.plan, i))
    && (i + 1 < w.Hops() ==> w.Cid(i + 1) !in s.circuits && w.Cid(i + 1) !in s.pending)
  }

  /** The entry the origin means hop i to have, linked to its neighbours. */
  ghost function Entry(cs: Suite, w: World, i: nat): CircuitEntry
    requires Fresh(cs, w) && i < w.Hops()
  {
    var keys := KeysAt(cs, w.plan, i);
    var prev := HopLink(w.Cid(i), w.Addr(i));
    if i + 1 == w.Hops() then TerminalEntry(w.plan.tag, keys.0, keys.1, prev, 0)
    else RelayEntry(w.plan.tag, keys.0, keys.1, prev, HopLink(w.Cid(i + 1), w.Addr(i + 2)), 0)
  }

  ghost function HopDone(cs: Suite, w: World, i: nat): NodeState
    requires Fresh(cs, w) && i < w.Hops()
  {
    var s := w.nodes[w.Addr(i + 1)];
    s.(createFrags := s.createFrags - {w.Cid(i)},
       circuits := s.circuits[w.Cid(i) := Entry(cs, w, i)],
       nextCid := if i + 1 == w.Hops() then s.nextCid else Incr(s.nextCid))
  }

  ghost function OriginWaiting(w: World): NodeState
    requires w.Addr(0) in w.nodes
  {
    var s := w.nodes[w.Addr(0)];
    s.(nextCid := Incr(s.nextCid), pending := s.pending + {w.Cid(0)})
  }

  ghost function OriginWoken(w: World): NodeState
    requires w.Addr(0) in w.nodes
  {
    var s := OriginWaiting(w);
    s.(pending := s.pending - {w.Cid(0)}, ready := s.ready + {w.Cid(0)})
  }

  ghost function Header(cs: Suite, w: World, t: nat): Bytes
    requires Fresh(cs, w) && t < w.Hops()
  {
    HeaderAt(cs, w.plan, t)
  }

  ghost function FragMsg(cs: Suite, w: World, t: nat, k: u16): Msg
    requires Fresh(cs, w) && t < w.Hops()
  {
    Msg(w.Addr(t), w.Addr(t + 1), Cell(w.Cid(t), Create, 0, FragmentAt(Header(cs, w, t), k)))
  }

  // ---- the phases of a run ----

  /** All nodes as they are once hops 0 .. t - 1 are done, except hop t itself. */
  ghost predicate Around(cs: Suite, w: World, nodes: map<SocketAddr, NodeState>, t: nat, o: NodeState)
    requires Fresh(cs, w) && t <= w.Hops()
  {
    && nodes.Keys == w.nodes.Keys
    && nodes[w.origin] == o
    && (forall p :: 0 < p <= t ==> nodes[w.Addr(p)] == HopDone(cs, w, p - 1))
    && (forall p :: t + 1 < p <= w.Hops() ==> nodes[w.Addr(p)] == w.nodes[w.Addr(p)])
    && (forall a :: a in nodes && !w.OnRoute(a) ==> nodes[a] == w.nodes[a])
  }

  ghost predicate Distinct(rem: seq<u16>) {
    forall i, j :: 0 <= i < j < |rem| ==> rem[i] != rem[j]
  }

  /** The fragments of a header of `n` chunks that have already arrived. */
  ghost function Arrived(n: nat, rem: seq<u16>): set<nat> {
    set k | k in Idx(n) && k !in rem
  }

  /** A hop that lacks only the fragments `rem` of its header and has otherwise not changed. */
  ghost predicate Gathering(cs: Suite, w: World, s: NodeState, t: nat, rem: seq<u16>)
    requires Fresh(cs, w) && t < w.Hops()
  {
    var header, s0 := Header(cs, w, t), w.nodes[w.Addr(t + 1)];
    && rem != [] && Distinct(rem) && (forall k :: k in rem ==> k < Chunks(|header|))
    && s == s0.(createFrags := s.createFrags)
    && s.createFrags - {w.Cid(t)} == s0.createFrags - {w.Cid(t)}
    && Collected(s.createFrags, w.Cid(t), header, Arrived(Chunks(|header|), rem))
  }

  /** The fragments `rem`, and nothing else, are in flight to hop t, in any order. */
  ghost predicate Flying(cs: Suite, w: World, flight: seq<Msg>, t: nat, rem: seq<u16>)
    requires Fresh(cs, w) && t < w.Hops()
  {
    |flight| == |rem| && forall k :: 0 <= k < |rem| ==> flight[k] == FragMsg(cs, w, t, rem[k])
  }

  /** Hop t is collecting its header; the fragments `rem` are still in flight, in any order. */
  ghost predicate Assembling(cs: Suite, w: World, net: Net, t: nat, rem: seq<u16>)
    requires Fresh(cs, w)
  {
    && t < w.Hops()
    && Around(cs, w, net.nodes, t, OriginWaiting(w))
    && Gathering(cs, w, net.nodes[w.Addr(t + 1)], t, rem)
    && Flying(cs, w, net.flight, t, rem)
  }

  ghost predicate AllDone(cs: Suite, w: World, nodes: map<SocketAddr, NodeState>, o: NodeState)
    requires Fresh(cs, w)
  {
    Around(cs, w, nodes, w.Hops(), o)
  }

  /** Positions i .. n - 1 drew the same id. */
  ghost predicate AgreeFrom(w: World, i: nat)
    requires forall k :: 0 <= k <= w.Hops() ==> w.Addr(k) in w.nodes
  {
    forall k :: i <= k < w.Hops() ==> w.Cid(k) == w.Cid(w.Hops() - 1)
  }

  /** CREATED is on its way from position i + 1 to position i. */
  ghost predicate Returning(cs: Suite, w: World, net: Net, i: nat)
    requires Fresh(cs, w)
  {
    && i < w.Hops()
    && AllDone(cs, w, net.nodes, OriginWaiting(w))
    && AgreeFrom(w, i)
    && net.flight == [Msg(w.Addr(i + 1), w.Addr(i), Signal(w.Cid(i), Created))]
  }

  /** Nothing is in flight: the origin was woken, or CREATED was dropped at a relay that does not know its id. */
  ghost predicate Settled(cs: Suite, w: World, net: Net)
    requires Fresh(cs, w)
  {
    && net.flight == []
    && AllDone(cs, w, net.nodes, if AgreeFrom(w, 0) then OriginWoken(w) else OriginWaiting(w))
  }

  // ---- one node ----

  /**
   A node collecting a header gets one more fragment: either it still waits, or the header
   is complete and is processed, whatever the order of arrival was.
   */
  lemma FeedCreate(cs: Suite, s: NodeState, src: SocketAddr, cid: u32, header: Bytes, d: set<nat>, k: u16)
    requires |header| <= MAX_FRAGMENTED
    requires d < Idx(Chunks(|header|)) && k < Chunks(|header|)
    requires Collected(s.createFrags, cid, header, d)
    ensures var r := HandleCell(cs, s, src, Cell(cid, Create, 0, FragmentAt(header, k)));
            var frags := r.0.createFrags;
            if d + {k} == Idx(Chunks(|header|)) then
              var s1 := s.(createFrags := s.createFrags - {cid});
              var o := Process(cs, s.identity, header);
              r == if o.Err? then (s1, []) else Extend(s1, src, cid, o.value)
            else
              && r == (s.(createFrags := frags), [])
              && Collected(frags, cid, header, d + {k}) && frags - {cid} == s.createFrags - {cid}
  {
    hide Process, Extend, Reassembled, Collected, FragmentAt, ChunkAt, Chunks, Idx;
    ParseFragment(header, k);
    FeedFragment(s.createFrags, cid, header, d, k);
  }

  lemma HeaderFragments(cs: Suite, w: World, t: nat)
    requires Fresh(cs, w) && t < w.Hops()
    ensures var h := Header(cs, w, t);
            |h| <= MAX_FRAGMENTED && Total(h) == Chunks(|h|)
  {
    AssembledFront(|w.plan.route| - t, w.plan.tag, Sphinx.Slots(w.plan.xs[t..], Acc(cs, w.plan, t)), Blob(cs, w.plan, t));
    TotalExact(Header(cs, w, t));
  }

  lemma ArrivedGrows(n: nat, rem: seq<u16>, j: nat)
    requires Distinct(rem) && j < |rem| && forall k :: k in rem ==> k < n
    ensures var after := Without(rem, j);
            && Distinct(after) && (forall k :: k in after ==> k in rem)
            && Arrived(n, rem) < Idx(n)
            && Arrived(n, rem) + {rem[j] as nat} == Arrived(n, after)
            && (Arrived(n, after) == Idx(n) <==> after == [])
  {
    var after := Without(rem, j);
    assert rem[j] in rem;
    var r: nat := rem[j];
    assert r in Idx(n) && r !in Arrived(n, rem);
    forall k | k in rem
      ensures k == rem[j] || k in after
    {
      var i :| 0 <= i < |rem| && rem[i] == k;
      if i < j {
        assert after[i] == k;
      } else if i > j {
        assert after[i - 1] == k;
      }
    }
    assert rem[j] !in after;
    if after != [] {
      assert after[0] in rem && after[0] in Idx(n) && after[0] !in Arrived(n, after);
    }
  }

  /** A processed header turns the fresh hop t into the hop the origin planned. */
  lemma HopFinishes(cs: Suite, w: World, t: nat)
    requires Fresh(cs, w) && t < w.Hops()
    ensures var s := w.nodes[w.Addr(t + 1)];
            && Process(cs, s.identity, Header(cs, w, t)) == Ok(Expected(cs, w.plan, t))
            && Extend(s.(createFrags := s.createFrags - {w.Cid(t)}), w.Addr(t), w.Cid(t), Expected(cs, w.plan, t))
               == (HopDone(cs, w, t),
                   if t + 1 == w.Hops() then [Packet(w.Addr(t), Signal(w.Cid(t), Created))]
                   else CreateCells(w.Cid(t + 1), w.Addr(t + 2), Header(cs, w, t + 1)))
  {
    hide HeaderAt, KeysAt, CreateCells;
    assert FreshHop(cs, w, t);
    PeelHop(cs, w.plan, w.coins, w.nodes[w.Addr(t + 1)].identity, t);
    if t + 1 < w.Hops() {
      assert FreshHop(cs, w, t + 1);
    }
  }

  /** Only hop t's state moves while it assembles. */
  lemma AroundKept(cs: Suite, w: World, nodes: map<SocketAddr, NodeState>, t: nat, o: NodeState, s: NodeState)
    requires Fresh(cs, w) && t < w.Hops() && Around(cs, w, nodes, t, o)
    ensures Around(cs, w, nodes[w.Addr(t + 1) := s], t, o)
  {
    hide HopDone, FreshHop, Encapsulated;
    assert w.Addr(t + 1) in w.nodes;
    assert w.OnRoute(w.Addr(t + 1));
    assert w.Addr(0) == w.origin != w.Addr(t + 1);
  }

  lemma AroundAdvances(cs: Suite, w: World, nodes: map<SocketAddr, NodeState>, t: nat, o: NodeState)
    requires Fresh(cs, w) && t < w.Hops() && Around(cs, w, nodes, t, o)
    ensures Around(cs, w, nodes[w.Addr(t + 1) := HopDone(cs, w, t)], t + 1, o)
  {
    hide HopDone, FreshHop, Encapsulated;
    AroundKept(cs, w, nodes, t, o, HopDone(cs, w, t));
  }

  /** A hop nobody has reached yet has collected nothing of the circuit's header. */
  lemma HopUntouched(cs: Suite, w: World, nodes: map<SocketAddr, NodeState>, t: nat, o: NodeState)
    requires Fresh(cs, w) && t < w.Hops() && Around(cs, w, nodes, t, o)
    requires nodes[w.Addr(t + 1)] == w.nodes[w.Addr(t + 1)]
    ensures var s := nodes[w.Addr(t + 1)];
            && s.createFrags - {w.Cid(t)} == w.nodes[w.Addr(t + 1)].createFrags - {w.Cid(t)}
            && Collected(s.createFrags, w.Cid(t), Header(cs, w, t), {})
  {
    hide HopDone, HeaderAt, Encapsulated;
    assert FreshHop(cs, w, t);
  }

  /** The indices of all fragments of a header, in sending order. */
  function AllFrags(n: u16): (rem: seq<u16>)
    ensures |rem| == n && forall i :: 0 <= i < n ==> rem[i] == i
  {
    seq(n, i requires 0 <= i < 0x1_0000 => i)
  }

  lemma NoneArrived(n: u16)
    ensures Distinct(AllFrags(n)) && Arrived(n, AllFrags(n)) == {}
    ensures forall k :: k in AllFrags(n) ==> k < n
  {
    forall k: nat | k in Idx(n)
      ensures k in AllFrags(n)
    {
      assert AllFrags(n)[k] == k;
    }
  }

  /** Posting the CREATE cells of a header puts each of its fragments in flight. */
  lemma PostedCreate(src: SocketAddr, cid: u32, dst: SocketAddr, header: Bytes)
    ensures var ms := Posted(src, CreateCells(cid, dst, header));
            && |ms| == Total(header)
            && forall k :: 0 <= k < |ms| ==> ms[k] == Msg(src, dst, Cell(cid, Create, 0, FragmentAt(header, k)))
  {
    PostedAll(src, CreateCells(cid, dst, header));
  }

  /** Fragment rem[j] arrives while others are still in flight: the hop keeps it and is silent. */
  lemma GatherMore(cs: Suite, w: World, s: NodeState, t: nat, rem: seq<u16>, j: nat)
    requires Fresh(cs, w) && t < w.Hops() && Gathering(cs, w, s, t, rem) && j < |rem| && |rem| > 1
    ensures var (s', ps) := HandleCell(cs, s, w.Addr(t), FragMsg(cs, w, t, rem[j]).cell);
            ps == [] && Gathering(cs, w, s', t, Without(rem, j))
  {
    hide HandleCell, Header, Collected, FreshHop, Encapsulated, HopDone, FragmentAt, Chunks, Idx, Arrived;
    HeaderFragments(cs, w, t);
    assert w.Addr(t) in w.nodes && rem[j] in rem;
    var n := Chunks(|Header(cs, w, t)|);
    ArrivedGrows(n, rem, j);
    FeedCreate(cs, s, w.Addr(t), w.Cid(t), Header(cs, w, t), Arrived(n, rem), rem[j]);
  }

  lemma FlyingLess(cs: Suite, w: World, flight: seq<Msg>, t: nat, rem: seq<u16>, j: nat)
    requires Fresh(cs, w) && t < w.Hops() && Flying(cs, w, flight, t, rem) && j < |rem|
    ensures Flying(cs, w, Without(flight, j), t, Without(rem, j))
  {
    hide Fresh, Header, FragmentAt;
  }

  lemma StepMore(cs: Suite, w: World, net: Net, t: nat, rem: seq<u16>, j: nat)
    requires Fresh(cs, w) && Assembling(cs, w, net, t, rem) && j < |rem| && |rem| > 1
    ensures Assembling(cs, w, Deliver(cs, net, j), t, Without(rem, j))
  {
    hide HandleCell, Header, FreshHop, Encapsulated, HopDone, FragmentAt, Gathering, Around;
    AssemblingAround(cs, w, net, t, rem);
    var a := w.Addr(t + 1);
    GatherMore(cs, w, net.nodes[a], t, rem, j);
    FlyingLess(cs, w, net.flight, t, rem, j);
    hide Fresh;
    var s' := HandleCell(cs, net.nodes[a], w.Addr(t), FragMsg(cs, w, t, rem[j]).cell).0;
    AroundKept(cs, w, net.nodes, t, OriginWaiting(w), s');
    var m := net.flight[j];
    assert m.dst == a && m.src == w.Addr(t) && Posted(m.dst, []) == [];
    assert Deliver(cs, net, j) == Net(net.nodes[a := s'], Without(net.flight, j) + []);
  }

  /** The last missing fragment makes hop t process the header. */
  lemma HopCompletes(cs: Suite, w: World, net: Net, t: nat, rem: seq<u16>)
    requires Fresh(cs, w) && Assembling(cs, w, net, t, rem) && |rem| == 1
    ensures HandleCell(cs, net.nodes[w.Addr(t + 1)], w.Addr(t), FragMsg(cs, w, t, rem[0]).cell)
            == (HopDone(cs, w, t),
                if t + 1 == w.Hops() then [Packet(w.Addr(t), Signal(w.Cid(t), Created))]
                else CreateCells(w.Cid(t + 1), w.Addr(t + 2), Header(cs, w, t + 1)))
  {
    hide HandleCell, Header, Collected, Encapsulated, HopDone, FragmentAt, Chunks, Idx, Arrived,
      CreateCells, Extend, Process, Expected;
    HeaderFragments(cs, w, t);
    assert rem[0] in rem && w.Addr(t + 1) in w.nodes;
    var n := Chunks(|Header(cs, w, t)|);
    var s, s0 := net.nodes[w.Addr(t + 1)], w.nodes[w.Addr(t + 1)];
    ArrivedGrows(n, rem, 0);
    FeedCreate(cs, s, w.Addr(t), w.Cid(t), Header(cs, w, t), Arrived(n, rem), rem[0]);
    HopFinishes(cs, w, t);
    assert FreshHop(cs, w, t);
    assert s.(createFrags := s.createFrags - {w.Cid(t)}) == s0.(createFrags := s0.createFrags - {w.Cid(t)});
  }

  /** Once all fragments for hop t are in flight, and nothing else is, hop t is assembling. */
  lemma BeginAssembling(cs: Suite, w: World, net: Net, t: nat)
    requires Fresh(cs, w) && t < w.Hops()
    requires Around(cs, w, net.nodes, t, OriginWaiting(w)) && net.nodes[w.Addr(t + 1)] == w.nodes[w.Addr(t + 1)]
    requires net.flight == Posted(w.Addr(t), CreateCells(w.Cid(t), w.Addr(t + 1), Header(cs, w, t)))
    ensures Assembling(cs, w, net, t, AllFrags(Total(Header(cs, w, t))))
  {
    hide Header, Encapsulated, HopDone, FreshHop, FragmentAt, Chunks, Idx, Arrived, CreateCells, Collected;
    HeaderFragments(cs, w, t);
    PostedCreate(w.Addr(t), w.Cid(t), w.Addr(t + 1), Header(cs, w, t));
    NoneArrived(Total(Header(cs, w, t)));
    HopUntouched(cs, w, net.nodes, t, OriginWaiting(w));
  }

  /** The network once the last fragment for hop t has been delivered. */
  lemma HopDelivers(cs: Suite, w: World, net: Net, t: nat, rem: seq<u16>)
    requires Fresh(cs, w) && Assembling(cs, w, net, t, rem) && |rem| == 1
    ensures var after := Deliver(cs, net, 0);
            && after.flight == Posted(w.Addr(t + 1),
                                      if t + 1 == w.Hops() then [Packet(w.Addr(t), Signal(w.Cid(t), Created))]
                                      else CreateCells(w.Cid(t + 1), w.Addr(t + 2), Header(cs, w, t + 1)))
            && Around(cs, w, after.nodes, t + 1, OriginWaiting(w))
  {
    hide HandleCell, Header, Encapsulated, HopDone, FreshHop, FragmentAt, Chunks, Idx, Arrived, CreateCells, Collected,
      Posted;
    HopCompletes(cs, w, net, t, rem);
    var ps := if t + 1 == w.Hops() then [Packet(w.Addr(t), Signal(w.Cid(t), Created))]
              else CreateCells(w.Cid(t + 1), w.Addr(t + 2), Header(cs, w, t + 1));
    DeliverOnly(cs, net, HopDone(cs, w, t), ps);
    AroundAdvances(cs, w, net.nodes, t, OriginWaiting(w));
  }

  /** The state of a hop not reached yet. */
  lemma AroundBeyond(cs: Suite, w: World, nodes: map<SocketAddr, NodeState>, t: nat, o: NodeState, p: nat)
    requires Fresh(cs, w) && t <= w.Hops() && Around(cs, w, nodes, t, o) && t + 1 < p <= w.Hops()
    ensures nodes[w.Addr(p)] == w.nodes[w.Addr(p)]
  {
  }

  /** ... and the next hop starts to collect the header meant for it. */
  lemma StepNextHop(cs: Suite, w: World, net: Net, t: nat, rem: seq<u16>)
    requires Fresh(cs, w) && Assembling(cs, w, net, t, rem) && |rem| == 1 && t + 1 < w.Hops()
    ensures Assembling(cs, w, Deliver(cs, net, 0), t + 1, AllFrags(Total(Header(cs, w, t + 1))))
  {
    hide Deliver, Header, Encapsulated, FreshHop, CreateCells, Posted, Around;
    AssemblingAround(cs, w, net, t, rem);
    HopDelivers(cs, w, net, t, rem);
    hide Assembling;
    AroundBeyond(cs, w, net.nodes, t, OriginWaiting(w), t + 2);
    DeliverKeeps(cs, net, w.Addr(t + 2), w.Addr(t + 1));
    BeginAssembling(cs, w, Deliver(cs, net, 0), t + 1);
  }

  lemma AssemblingAround(cs: Suite, w: World, net: Net, t: nat, rem: seq<u16>)
    requires Fresh(cs, w) && Assembling(cs, w, net, t, rem)
    ensures t < w.Hops() && Around(cs, w, net.nodes, t, OriginWaiting(w))
    ensures net.flight != [] && net.flight[0].dst == w.Addr(t + 1) && net.nodes.Keys == w.nodes.Keys
  {
    hide HopDone, Header, FreshHop, Encapsulated, Collected, Arrived;
    assert w.Addr(t + 1) in w.nodes;
  }

  /** Delivering a cell changes only its receiver. */
  lemma DeliverKeeps(cs: Suite, net: Net, a: SocketAddr, b: SocketAddr)
    requires net.flight != [] && net.flight[0].dst == b && a != b && a in net.nodes
    ensures a in Deliver(cs, net, 0).nodes && Deliver(cs, net, 0).nodes[a] == net.nodes[a]
  {
    hide HandleCell, Posted;
  }

  /** ... or, at the last hop, CREATED starts its way back. */
  lemma StepTurn(cs: Suite, w: World, net: Net, rem: seq<u16>)
    requires Fresh(cs, w) && Assembling(cs, w, net, w.Hops() - 1, rem) && |rem| == 1
    ensures Returning(cs, w, Deliver(cs, net, 0), w.Hops() - 1)
  {
    hide Deliver, Header, Encapsulated, FreshHop, CreateCells, Around, Assembling;
    var t := w.Hops() - 1;
    HopDelivers(cs, w, net, t, rem);
    PostedOne(w.Addr(t + 1), Packet(w.Addr(t), Signal(w.Cid(t), Created)));
  }

  /** CREATED passes position i if the ids agree there, and is dropped otherwise. */
  lemma StepBack(cs: Suite, w: World, net: Net, i: nat)
    requires Fresh(cs, w) && Returning(cs, w, net, i) && i > 0
    ensures var after := Deliver(cs, net, 0);
            if AgreeFrom(w, i - 1) then Returning(cs, w, after, i - 1) else Settled(cs, w, after)
  {
    hide HandleCell, HopDone, FreshHop, Encapsulated;
    RelayPassesBack(cs, w, i);
    var s := HopDone(cs, w, i - 1);
    assert net.nodes[w.Addr(i)] == s && net.nodes[w.Addr(i) := s] == net.nodes;
    DeliverOnly(cs, net, s,
                if w.Cid(i) == w.Cid(i - 1) then [Packet(w.Addr(i - 1), Signal(w.Cid(i - 1), Created))] else []);
    PostedOne(w.Addr(i), Packet(w.Addr(i - 1), Signal(w.Cid(i - 1), Created)));
    assert w.Cid(i) == w.Cid(w.Hops() - 1);
    assert !AgreeFrom(w, i - 1) ==> !AgreeFrom(w, 0);
  }

  /** At position 0 it wakes the origin. */
  lemma StepHome(cs: Suite, w: World, net: Net)
    requires Fresh(cs, w) && Returning(cs, w, net, 0)
    ensures Settled(cs, w, Deliver(cs, net, 0))
  {
    hide HandleCell, HopDone, FreshHop, Encapsulated;
    OriginWakes(cs, w, net.nodes);
    DeliverOnly(cs, net, OriginWoken(w), []);
  }

  lemma OriginWakes(cs: Suite, w: World, nodes: map<SocketAddr, NodeState>)
    requires Fresh(cs, w) && AllDone(cs, w, nodes, OriginWaiting(w))
    ensures HandleCell(cs, nodes[w.origin], w.Addr(1), Signal(w.Cid(0), Created)) == (OriginWoken(w), [])
    ensures AllDone(cs, w, nodes[w.origin := OriginWoken(w)], OriginWoken(w))
  {
    hide HopDone, FreshHop, Encapsulated;
    assert w.Addr(0) == w.origin;
    assert w.OnRoute(w.Addr(0));
  }

  /** A relay forwards CREATED exactly when it arrives under the relay's own incoming id. */
  lemma RelayPassesBack(cs: Suite, w: World, i: nat)
    requires Fresh(cs, w) && 0 < i < w.Hops()
    ensures HandleCell(cs, HopDone(cs, w, i - 1), w.Addr(i + 1), Signal(w.Cid(i), Created))
            == (HopDone(cs, w, i - 1),
                if w.Cid(i) == w.Cid(i - 1) then [Packet(w.Addr(i - 1), Signal(w.Cid(i - 1), Created))] else [])
  {
    hide KeysAt;
    assert FreshHop(cs, w, i - 1);
  }

  // ---- whole runs ----

  /** How many deliveries remain, at most, once hop t is about to assemble. */
  ghost function Work(cs: Suite, w: World, t: nat): nat
    requires Fresh(cs, w) && t <= w.Hops()
    decreases w.Hops() - t
  {
    if t == w.Hops() then w.Hops() else Total(Header(cs, w, t)) + Work(cs, w, t + 1)
  }

  /** Every state a run can be in. */
  ghost predicate InPhase(cs: Suite, w: World, net: Net)
    requires Fresh(cs, w)
  {
    || (exists t, rem :: Assembling(cs, w, net, t, rem))
    || (exists i :: Returning(cs, w, net, i))
    || Settled(cs, w, net)
  }

  lemma {:induction false} RunReturning(cs: Suite, w: World, net: Net, i: nat, schedule: seq<nat>)
    requires Fresh(cs, w) && Returning(cs, w, net, i)
    ensures var end := Exec(cs, net, schedule);
            InPhase(cs, w, end) && (|schedule| > i ==> Settled(cs, w, end))
    decreases |schedule|
  {
    hide HandleCell, Deliver, AllDone, Fresh, AgreeFrom;
    if schedule != [] {
      assert schedule[0] % |net.flight| == 0;
      var after := Deliver(cs, net, 0);
      if i == 0 {
        StepHome(cs, w, net);
        Idle(cs, after, schedule[1..]);
      } else {
        StepBack(cs, w, net, i);
        if Returning(cs, w, after, i - 1) {
          RunReturning(cs, w, after, i - 1, schedule[1..]);
        } else {
          Idle(cs, after, schedule[1..]);
        }
      }
    }
  }

  lemma AssemblingBasics(cs: Suite, w: World, net: Net, t: nat, rem: seq<u16>)
    requires Fresh(cs, w) && Assembling(cs, w, net, t, rem)
    ensures t < w.Hops() && |net.flight| == |rem| > 0 && InPhase(cs, w, net)
  {
  }

  lemma {:induction false} RunAssembling(cs: Suite, w: World, net: Net, t: nat, rem: seq<u16>, schedule: seq<nat>)
    requires Fresh(cs, w) && Assembling(cs, w, net, t, rem)
    ensures var end := Exec(cs, net, schedule);
            InPhase(cs, w, end) && (|schedule| >= |rem| + Work(cs, w, t + 1) ==> Settled(cs, w, end))
    decreases |schedule|
  {
    hide Deliver, Fresh, Header, Assembling, Settled, Returning, InPhase;
    AssemblingBasics(cs, w, net, t, rem);
    if schedule != [] {
      var j := schedule[0] % |net.flight|;
      var after := Deliver(cs, net, j);
      if |rem| > 1 {
        StepMore(cs, w, net, t, rem, j);
        RunAssembling(cs, w, after, t, Without(rem, j), schedule[1..]);
      } else if t + 1 < w.Hops() {
        StepNextHop(cs, w, net, t, rem);
        RunAssembling(cs, w, after, t + 1, AllFrags(Total(Header(cs, w, t + 1))), schedule[1..]);
      } else {
        StepTurn(cs, w, net, rem);
        RunReturning(cs, w, after, t, schedule[1..]);
      }
    }
  }

  /** Every delivery leads from phase to phase. */
  lemma StepInPhase(cs: Suite, w: World, net: Net, k: nat)
    requires Fresh(cs, w) && InPhase(cs, w, net) && k < |net.flight|
    ensures InPhase(cs, w, Deliver(cs, net, k))
  {
    hide Deliver, Fresh, Assembling, Returning;
    assert [k][1..] == [] && k % |net.flight| == k;
    assert Exec(cs, net, [k]) == Deliver(cs, net, k);
    if t, rem :| Assembling(cs, w, net, t, rem) {
      RunAssembling(cs, w, net, t, rem, [k]);
    } else if i :| Returning(cs, w, net, i) {
      RunReturning(cs, w, net, i, [k]);
    }
  }

  /** The network just after the origin has sent its CREATE. */
  ghost function Started(cs: Suite, w: World): Net
    requires Fresh(cs, w)
  {
    var r := BuildStart(cs, w.nodes[w.origin], w.plan.route, w.plan.tag, w.plan.xs, w.coins);
    Net(w.nodes[w.origin := r.0], Posted(w.origin, r.2))
  }

  lemma {:induction false} EncapAllIs(cs: Suite, route: seq<Descriptor>, coins: seq<Bytes>, kems: seq<(KemCt, Bytes32)>)
    requires |coins| == |route| == |kems|
    requires forall i :: 0 <= i < |route| ==> KemEncap(cs, route[i].kemPk, coins[i]) == Ok(kems[i])
    ensures EncapAll(cs, route, coins) == Ok(kems)
  {
    if route != [] {
      var n := |route| - 1;
      EncapAllIs(cs, route[..n], coins[..n], kems[..n]);
      assert kems == kems[..n] + [kems[n]];
    }
  }

  lemma StartedAssembles(cs: Suite, w: World)
    requires Fresh(cs, w)
    ensures var r := BuildStart(cs, w.nodes[w.origin], w.plan.route, w.plan.tag, w.plan.xs, w.coins);
            && r.1.Ok? && r.1.value.0 == w.Cid(0)
            && r.1.value.1 == BuiltHeader(Header(cs, w, 0), w.plan.tag, FwdKeys(cs, w.plan), BwdKeys(cs, w.plan), w.Addr(1))
    ensures Assembling(cs, w, Started(cs, w), 0, AllFrags(Total(Header(cs, w, 0))))
  {
    hide FreshHop, HopDone, CreateCells, Posted, FwdKeys, BwdKeys, HeaderAt;
    EncapAllIs(cs, w.plan.route, w.coins, w.plan.kems);
    assert w.Addr(0) == w.origin && w.OnRoute(w.Addr(0));
    BeginAssembling(cs, w, Started(cs, w), 0);
  }

  /**
   Hop i holds the entry planned for it under the id it was given, in place of any circuit it
   held under that id, and every other circuit it held before.
   */
  ghost predicate EntryAdded(cs: Suite, w: World, net: Net, i: nat)
    requires Fresh(cs, w) && i < w.Hops()
  {
    && w.Addr(i + 1) in net.nodes
    && net.nodes[w.Addr(i + 1)].circuits == w.nodes[w.Addr(i + 1)].circuits[w.Cid(i) := Entry(cs, w, i)]
  }

  /** Every node on the route but the last hop drew the same circuit id. */
  ghost predicate Agreeing(w: World)
    requires w.Known()
  {
    forall p :: 0 <= p < w.Hops() ==> w.Cid(p) == w.Cid(0)
  }

  /** What a finished construction looks like. */
  ghost predicate Constructed(cs: Suite, w: World, end: Net)
    requires Fresh(cs, w)
  {
    && end.flight == [] && end.nodes.Keys == w.nodes.Keys
    && (forall i :: 0 <= i < w.Hops() ==> EntryAdded(cs, w, end, i))
    && (w.Cid(0) in end.nodes[w.origin].ready <==> Agreeing(w))
  }

  lemma SettledIsConstructed(cs: Suite, w: World, net: Net)
    requires Fresh(cs, w) && Settled(cs, w, net)
    ensures Constructed(cs, w, net)
  {
    hide Entry, FreshHop, Encapsulated;
    assert AgreeFrom(w, 0) <==> Agreeing(w) by {
      assert AgreeFrom(w, 0) ==> w.Cid(0) == w.Cid(w.Hops() - 1);
    }
    forall i | 0 <= i < w.Hops()
      ensures EntryAdded(cs, w, net, i)
    {
      var p := i + 1;
      assert net.nodes[w.Addr(p)] == HopDone(cs, w, p - 1);
    }
  }

  lemma RunStarted(cs: Suite, w: World, start: Net, schedule: seq<nat>)
    requires Fresh(cs, w)
    requires Assembling(cs, w, start, 0, AllFrags(Total(Header(cs, w, 0))))
    ensures InPhase(cs, w, Exec(cs, start, schedule))
    ensures |schedule| >= Work(cs, w, 0) ==> Settled(cs, w, Exec(cs, start, schedule))
  {
    hide Exec, FreshHop, Encapsulated, Assembling, Settled, InPhase, Header;
    var rem := AllFrags(Total(Header(cs, w, 0)));
    assert Work(cs, w, 0) == |rem| + Work(cs, w, 1);
    RunAssembling(cs, w, start, 0, rem, schedule);
  }

  /**
   Circuit construction, over every delivery order of the CREATE fragments: after at most
   Work deliveries nothing is in flight, hop i holds under the id it was given the entry with
   the origin's key pair i and links that match its neighbours' entries, overwriting what it
   may have held under that id and no other circuit, only the last hop's entry is terminal,
   and the origin is woken if and only if every node on the route but the last hop drew the
   same circuit id.
   */
  lemma CircuitConstruction(cs: Suite, w: World, schedule: seq<nat>)
    requires Fresh(cs, w)
    ensures var end := Exec(cs, Started(cs, w), schedule);
            InPhase(cs, w, end) && (|schedule| >= Work(cs, w, 0) ==> Constructed(cs, w, end))
  {
    hide Exec, FreshHop, Encapsulated, Started, Assembling, Settled, Constructed, InPhase, Header, Work;
    StartedAssembles(cs, w);
    RunStarted(cs, w, Started(cs, w), schedule);
    if |schedule| >= Work(cs, w, 0) {
      SettledIsConstructed(cs, w, Exec(cs, Started(cs, w), schedule));
    }
  }
}
