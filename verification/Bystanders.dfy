/**
 Building a circuit among others. While the CREATE fragments of one circuit travel, in any
 order, its nodes carry and lose any other circuits and other circuits' cells are lost,
 repeated, reordered and invented. As long as nobody else uses the circuit's ids on its
 links and its nodes draw no other ids meanwhile, the construction goes as if it were alone.
 */
module Bystanders {
  import opened Octets
  import opened Crypto
  import opened Identity
  import opened Sphinx
  import opened SphinxMachine
  import opened Onion
  import opened Cells
  import opened Fragments
  import opened Engine
  import opened Network
  import opened Construction
  import opened Traffic

  // ---- a circuit's part of a node ----

  function Only<V>(m: map<u32, V>, ids: set<u32>): map<u32, V> {
    map c | c in m && c in ids :: m[c]
  }

  /** What a node holds under certain ids, and the id it draws next. */
  function Part(ids: set<u32>, s: NodeState): NodeState {
    NodeState(s.identity, Only(s.circuits, ids), s.pending * ids, s.ready * ids, Only(s.createFrags, ids), s.nextCid, 0, [])
  }

  function IdsAt(x: Scope, a: SocketAddr): set<u32> {
    set p | p in x && p.0 == a :: p.1
  }

  function Share(x: Scope, net: Net): Net {
    Net(map a | a in net.nodes && IdsAt(x, a) != {} :: Part(IdsAt(x, a), net.nodes[a]), Mine(x, net.flight))
  }

  lemma OnlyPut<V>(m: map<u32, V>, ids: set<u32>, c: u32, v: V)
    ensures Only(m[c := v], ids) == if c in ids then Only(m, ids)[c := v] else Only(m, ids)
  {
  }

  lemma OnlyDrop<V>(m: map<u32, V>, ids: set<u32>, c: u32)
    ensures Only(m - {c}, ids) == Only(m, ids) - {c}
    ensures c !in ids ==> Only(m - {c}, ids) == Only(m, ids)
  {
  }

  /** Reassembly looks at nothing but the buffer of the cell's own circuit. */
  lemma ReassembledPart(bufs: map<u32, FragBuf>, ids: set<u32>, cid: u32, idx: u16, total: u16, chunk: Bytes)
    ensures var r := Reassembled(bufs, cid, idx, total, chunk);
            && (cid in ids ==> Reassembled(Only(bufs, ids), cid, idx, total, chunk) == (r.0, Only(r.1, ids)))
            && (cid !in ids ==> Only(r.1, ids) == Only(bufs, ids))
  {
    hide AllSome, Fragments.Joined;
    var before := if cid in bufs && bufs[cid].total == total then bufs[cid] else FragBuf(total, NoneSlots(total), 0);
    var fb := Slot(before, idx, chunk);
    OnlyPut(bufs, ids, cid, fb);
    OnlyPut(bufs, ids, cid, fb.(got := []));
    OnlyDrop(bufs, ids, cid);
  }

  /** Building a circuit looks at and changes nothing but the part of the node under its id. */
  lemma PartHandles(cs: Suite, ids: set<u32>, s: NodeState, src: SocketAddr, cell: Cell)
    requires cell.cid in ids && (cell.cmd.Create? || cell.cmd.Created?)
    ensures var (s', ps) := HandleCell(cs, s, src, cell);
            HandleCell(cs, Part(ids, s), src, cell) == (Part(ids, s'), ps)
  {
    hide Process, CreateCells, Reassembled, Only;
    if cell.cmd.Create? {
      PartCreates(cs, ids, s, src, cell);
    } else {
      PartCreated(ids, s, cell);
    }
  }

  lemma PartCreated(ids: set<u32>, s: NodeState, cell: Cell)
    requires cell.cid in ids
    ensures var (s', ps) := HandleCreated(s, cell);
            HandleCreated(Part(ids, s), cell) == (Part(ids, s'), ps)
  {
    assert (s.pending - {cell.cid}) * ids == s.pending * ids - {cell.cid};
    assert (s.ready + {cell.cid}) * ids == s.ready * ids + {cell.cid};
  }

  lemma PartCreates(cs: Suite, ids: set<u32>, s: NodeState, src: SocketAddr, cell: Cell)
    requires cell.cid in ids
    ensures var (s', ps) := HandleCreate(cs, s, src, cell);
            HandleCreate(cs, Part(ids, s), src, cell) == (Part(ids, s'), ps)
  {
    hide Process, CreateCells, Reassembled, Only, Extend;
    var frag := ParseFrag(cell.payload);
    if frag.Ok? {
      ReassembledPart(s.createFrags, ids, cell.cid, frag.value.1, frag.value.0, frag.value.2);
      var r := Reassembled(s.createFrags, cell.cid, frag.value.1, frag.value.0, frag.value.2);
      var s1 := s.(createFrags := r.1);
      assert Part(ids, s).(createFrags := Only(r.1, ids)) == Part(ids, s1);
      if r.0.Some? && Process(cs, s.identity, r.0.value).Ok? {
        PartExtends(ids, s1, src, cell.cid, Process(cs, s.identity, r.0.value).value);
      }
    }
  }

  lemma PartExtends(ids: set<u32>, s: NodeState, src: SocketAddr, cid: u32, o: Outcome)
    requires cid in ids
    ensures var (s', ps) := Extend(s, src, cid, o);
            Extend(Part(ids, s), src, cid, o) == (Part(ids, s'), ps)
  {
    hide CreateCells, Only;
    OnlyPut(s.circuits, ids, cid, Extend(s, src, cid, o).0.circuits[cid]);
  }

  /** A cell under another id that draws no id leaves the part as it is. */
  lemma PartForeign(cs: Suite, ids: set<u32>, s: NodeState, src: SocketAddr, cell: Cell)
    requires cell.cid !in ids && HandleCell(cs, s, src, cell).0.nextCid == s.nextCid
    ensures Part(ids, HandleCell(cs, s, src, cell).0) == Part(ids, s)
  {
    hide HandleCell;
    var s' := HandleCell(cs, s, src, cell).0;
    Ids.CellChanges(cs, s, src, cell);
    CellKeeps(cs, ids, s, src, cell);
    assert Only(s'.circuits, ids) == Only(s.circuits, ids);
  }

  lemma CellKeeps(cs: Suite, ids: set<u32>, s: NodeState, src: SocketAddr, cell: Cell)
    requires cell.cid !in ids
    ensures var s' := HandleCell(cs, s, src, cell).0;
            && s'.identity == s.identity && s'.pending * ids == s.pending * ids && s'.ready * ids == s.ready * ids
            && Only(s'.createFrags, ids) == Only(s.createFrags, ids)
  {
    hide Process, CreateCells, Reassembled, Only, OpenFwd, SealBwd, ParseRelay, OpenedBwd;
    var frag := ParseFrag(cell.payload);
    if frag.Ok? {
      ReassembledPart(s.createFrags, ids, cell.cid, frag.value.1, frag.value.0, frag.value.2);
    }
  }

  /** So does an event in the life of other circuits. */
  lemma PartElsewhere(cs: Suite, ids: set<u32>, s: NodeState, e: Ids.Event)
    requires Ids.About(e) !in ids || e.StartBuild?
    requires Ids.Happen(cs, s, e).nextCid == s.nextCid
    ensures Part(ids, Ids.Happen(cs, s, e)) == Part(ids, s)
  {
    hide HandleCell, Built, CreateCells, SealedFwd, Only;
    match e {
      case Receive(src, cell) =>
        PartForeign(cs, ids, s, src, cell);
      case FinishBuild(cid, built) =>
        assert (s.pending - {cid}) * ids == s.pending * ids && (s.ready - {cid}) * ids == s.ready * ids;
        var e := OriginEntry(built.fwdKeys, built.bwdKeys, built.tag, HopLink(cid, built.firstAddr), {});
        OnlyPut(s.circuits, ids, cid, e);
      case Register(cid, stream) =>
        if cid in s.circuits && s.circuits[cid].OriginEntry? {
          OnlyPut(s.circuits, ids, cid, s.circuits[cid].(streams := s.circuits[cid].streams + {stream}));
        }
      case Hangup(handle) =>
        OnlyDrop(s.circuits, ids, handle.cid);
      case _ =>
    }
  }

  // ---- the circuit's share of the network ----

  /** Hop i is sent to, and answers, under the id drawn before it. */
  ghost function ScopeOf(w: World): Scope
    requires w.Known()
  {
    (set i | 0 <= i < w.Hops() :: (w.Addr(i + 1), w.Cid(i))) + (set i | 0 <= i < w.Hops() :: (w.Addr(i), w.Cid(i)))
  }

  /** The route's nodes, with nothing but their part in this circuit. */
  ghost function Alone(w: World): World
    requires w.Known()
  {
    World(w.plan, w.coins, w.origin, Share(ScopeOf(w), Net(w.nodes, [])).nodes)
  }

  lemma InScope(w: World, i: nat)
    requires w.Known() && i < w.Hops()
    ensures (w.Addr(i + 1), w.Cid(i)) in ScopeOf(w) && w.Cid(i) in IdsAt(ScopeOf(w), w.Addr(i + 1))
    ensures (w.Addr(i), w.Cid(i)) in ScopeOf(w) && w.Cid(i) in IdsAt(ScopeOf(w), w.Addr(i))
  {
  }

  lemma AloneKnown(w: World)
    requires w.Known() && w.Hops() > 0
    ensures Alone(w).Known() && Alone(w).Hops() == w.Hops()
    ensures forall i :: 0 <= i <= w.Hops() ==> Alone(w).Addr(i) == w.Addr(i) && Alone(w).Cid(i) == w.Cid(i)
  {
    hide Only;
    forall i | 0 <= i <= w.Hops()
      ensures w.Addr(i) in Alone(w).nodes && Alone(w).Addr(i) == w.Addr(i)
      ensures Alone(w).nodes[w.Addr(i)].nextCid == w.nodes[w.Addr(i)].nextCid
    {
      InScope(w, if i == 0 then 0 else i - 1);
    }
  }

  lemma AloneScope(w: World)
    requires w.Known() && w.Hops() > 0
    ensures Alone(w).Known() && ScopeOf(Alone(w)) == ScopeOf(w)
  {
    AloneKnown(w);
    hide Alone;
  }

  lemma AloneHop(cs: Suite, w: World, i: nat)
    requires w.plan.Valid() && w.Known() && i < w.Hops() && FreshHop(cs, w, i)
    ensures Alone(w).plan.Valid() && Alone(w).Known() && FreshHop(cs, Alone(w), i)
  {
    hide Owns;
    AloneKnown(w);
    InScope(w, i);
  }

  lemma AloneFresh(cs: Suite, w: World)
    requires Fresh(cs, w)
    ensures w.Hops() > 0 && w.Known() && Alone(w).Known() && Fresh(cs, Alone(w))
    ensures ScopeOf(Alone(w)) == ScopeOf(w)
  {
    hide Encapsulated, FreshHop, Only, Share;
    AloneKnown(w);
    AloneScope(w);
    assert w.Addr(0) == w.origin;
    AloneReady(w);
    hide ScopeOf;
    forall i | 0 <= i < w.Hops()
      ensures FreshHop(cs, Alone(w), i)
    {
      AloneHop(cs, w, i);
    }
  }

  lemma AloneReady(w: World)
    requires w.Known() && w.Hops() > 0 && w.Cid(0) !in w.nodes[w.Addr(0)].ready
    ensures Alone(w).origin == w.origin && w.Addr(0) in Alone(w).nodes
    ensures w.Cid(0) !in Alone(w).nodes[w.Addr(0)].ready
  {
    hide Only;
    InScope(w, 0);
  }

  /** Everything a construction ever has in flight is in scope and of two kinds. */
  lemma PhaseOurs(cs: Suite, w: World, net: Net)
    requires Fresh(cs, w) && InPhase(cs, w, net)
    ensures AllOurs(ScopeOf(w), net.flight)
    ensures forall k :: 0 <= k < |net.flight| ==> net.flight[k].cell.cmd.Create? || net.flight[k].cell.cmd.Created?
  {
    hide Around, Gathering, FreshHop, Encapsulated, Header, FragmentAt, ScopeOf;
    if t, rem :| Assembling(cs, w, net, t, rem) {
      InScope(w, t);
    } else if i :| Returning(cs, w, net, i) {
      InScope(w, i);
    }
  }

  /** One of our cells arrives in the crowd as it would arrive alone. */
  lemma OwnArrives(cs: Suite, x: Scope, net: Net, h: nat)
    requires h < |net.flight| && Ours(x, net.flight[h])
    requires net.flight[h].cell.cmd.Create? || net.flight[h].cell.cmd.Created?
    requires AllOurs(x, HandedOn(cs, net, net.flight[h]))
    ensures Rank(x, net.flight, h) < |Share(x, net).flight|
    ensures Share(x, Deliver(cs, net, h)) == Deliver(cs, Share(x, net), Rank(x, net.flight, h))
  {
    hide HandleCell, Mine, Part, Rank;
    var m, ms := net.flight[h], HandedOn(cs, net, net.flight[h]);
    MineTake(x, net.flight, h);
    MineAll(x, ms);
    MineAppend(x, Without(net.flight, h), ms);
    assert m.cell.cid in IdsAt(x, m.dst) by {
      assert (m.dst, m.cell.cid) in x;
    }
    assert Without(net.flight, h) + [] == Without(net.flight, h);
    if m.dst in net.nodes {
      PartHandles(cs, IdsAt(x, m.dst), net.nodes[m.dst], m.src, m.cell);
    }
  }

  /** What it makes its receiver send is in scope, since it is in flight in the next phase. */
  lemma OwnStays(cs: Suite, w: World, net: Net, h: nat) returns (k: nat)
    requires w.Known() && Fresh(cs, Alone(w)) && InPhase(cs, Alone(w), Share(ScopeOf(w), net))
    requires Fresh(cs, w) && h < |net.flight| && Ours(ScopeOf(w), net.flight[h])
    ensures k == Rank(ScopeOf(w), net.flight, h) && k < |Share(ScopeOf(w), net).flight|
    ensures net.flight[h].cell.cmd.Create? || net.flight[h].cell.cmd.Created?
    ensures AllOurs(ScopeOf(w), HandedOn(cs, net, net.flight[h]))
    ensures InPhase(cs, Alone(w), Deliver(cs, Share(ScopeOf(w), net), k))
  {
    ScopeKept(cs, w);
    hide Fresh, InPhase, HandleCell, Mine, Share, Rank, Ours, Alone, ScopeOf;
    var x, v, m := ScopeOf(w), Alone(w), net.flight[h];
    k := Rank(x, net.flight, h);
    var net' := Share(x, net);
    ShareTakes(x, net, h);
    PhaseOurs(cs, v, net');
    StepInPhase(cs, v, net', k);
    PhaseOurs(cs, v, Deliver(cs, net', k));
    if m.dst in net.nodes {
      SharePosts(cs, x, net, h);
      SuffixOurs(x, Without(net'.flight, k), HandedOn(cs, net, m));
    }
  }

  lemma ShareTakes(x: Scope, net: Net, h: nat)
    requires h < |net.flight| && Ours(x, net.flight[h])
    ensures var k, net' := Rank(x, net.flight, h), Share(x, net);
            k < |net'.flight| && net'.flight[k] == net.flight[h]
  {
    MineTake(x, net.flight, h);
  }

  /** What the receiver sends is what it would send alone. */
  lemma SharePosts(cs: Suite, x: Scope, net: Net, h: nat)
    requires h < |net.flight| && Ours(x, net.flight[h]) && net.flight[h].dst in net.nodes
    requires net.flight[h].cell.cmd.Create? || net.flight[h].cell.cmd.Created?
    ensures var k, net' := Rank(x, net.flight, h), Share(x, net);
            k < |net'.flight| && Deliver(cs, net', k).flight == Without(net'.flight, k) + HandedOn(cs, net, net.flight[h])
  {
    hide HandleCell, Mine, Part, Rank, Ours;
    var m := net.flight[h];
    MineTake(x, net.flight, h);
    OursAt(x, m);
    PartHandles(cs, IdsAt(x, m.dst), net.nodes[m.dst], m.src, m.cell);
  }

  lemma SuffixOurs(x: Scope, rest: seq<Msg>, ms: seq<Msg>)
    requires AllOurs(x, rest + ms)
    ensures AllOurs(x, ms)
  {
    hide Ours;
    forall i | 0 <= i < |ms|
      ensures Ours(x, ms[i])
    {
      assert ms[i] == (rest + ms)[|rest| + i];
    }
  }

  lemma OursAt(x: Scope, m: Msg)
    requires Ours(x, m)
    ensures m.cell.cid in IdsAt(x, m.dst)
  {
    assert (m.dst, m.cell.cid) in x;
  }

  lemma ScopeKept(cs: Suite, w: World)
    requires w.Known() && Fresh(cs, w) && Fresh(cs, Alone(w))
    ensures Alone(w).Known() && ScopeOf(Alone(w)) == ScopeOf(w)
  {
    hide FreshHop, Encapsulated, Share;
    AloneFresh(cs, w);
  }

  // ---- everything else ----

  /**
   Nobody else sends to the route's nodes under the circuit's ids, and these nodes draw no
   id for, and their users do nothing to, any circuit under them.
   */
  predicate Discreet(cs: Suite, x: Scope, net: Net, v: Move) {
    && Apart(cs, x, net, v)
    && (!Delivers(x, net, v) ==>
          forall a :: a in net.nodes && IdsAt(x, a) != {} ==>
            Moved(cs, net, v).nodes[a].nextCid == net.nodes[a].nextCid)
    && (v.Operate? ==> v.event.StartBuild? || Ids.About(v.event) !in IdsAt(x, v.at))
  }

  lemma OtherPart(cs: Suite, x: Scope, net: Net, v: Move, a: SocketAddr)
    requires Discreet(cs, x, net, v) && !Delivers(x, net, v) && a in net.nodes && IdsAt(x, a) != {}
    ensures Part(IdsAt(x, a), Moved(cs, net, v).nodes[a]) == Part(IdsAt(x, a), net.nodes[a])
  {
    hide HandleCell, Ids.Effect, Mine, Part, Apart;
    assert Moved(cs, net, v).nodes[a].nextCid == net.nodes[a].nextCid;
    match v {
      case Arrive(h) =>
        if h < |net.flight| && net.flight[h].dst == a {
          var m := net.flight[h];
          assert m.cell.cid in IdsAt(x, a) ==> (a, m.cell.cid) in x;
          PartForeign(cs, IdsAt(x, a), net.nodes[a], m.src, m.cell);
        }
      case Lose(_) =>
      case Invent(_) =>
      case Operate(at, event) =>
        if at == a {
          PartElsewhere(cs, IdsAt(x, a), net.nodes[a], event);
        }
    }
  }

  lemma OtherShared(cs: Suite, x: Scope, net: Net, v: Move)
    requires Discreet(cs, x, net, v) && !Delivers(x, net, v)
    ensures Share(x, Moved(cs, net, v)) == Share(x, net)
  {
    OthersPass(cs, x, net, v);
    hide Moved, Mine, Part, Discreet, Delivers, IdsAt;
    forall a | a in net.nodes && IdsAt(x, a) != {}
      ensures Part(IdsAt(x, a), Moved(cs, net, v).nodes[a]) == Part(IdsAt(x, a), net.nodes[a])
    {
      OtherPart(cs, x, net, v, a);
    }
  }

  // ---- runs ----

  function MovedAll(cs: Suite, net: Net, vs: seq<Move>): Net
    decreases |vs|
  {
    if vs == [] then net else MovedAll(cs, Moved(cs, net, vs[0]), vs[1..])
  }

  predicate AllDiscreet(cs: Suite, x: Scope, net: Net, vs: seq<Move>)
    decreases |vs|
  {
    vs == [] || (Discreet(cs, x, net, vs[0]) && AllDiscreet(cs, x, Moved(cs, net, vs[0]), vs[1..]))
  }

  /** How many of the moves hand over a cell of ours. */
  function Deliveries(cs: Suite, x: Scope, net: Net, vs: seq<Move>): nat
    decreases |vs|
  {
    if vs == [] then 0
    else (if Delivers(x, net, vs[0]) then 1 else 0) + Deliveries(cs, x, Moved(cs, net, vs[0]), vs[1..])
  }

  /** The circuit's share of a run is a run of the circuit alone, on the schedule of its own deliveries. */
  lemma {:induction false} RunAmong(cs: Suite, w: World, net: Net, vs: seq<Move>) returns (schedule: seq<nat>)
    requires w.Known() && Fresh(cs, w) && Fresh(cs, Alone(w)) && InPhase(cs, Alone(w), Share(ScopeOf(w), net))
    requires AllDiscreet(cs, ScopeOf(w), net, vs)
    ensures |schedule| == Deliveries(cs, ScopeOf(w), net, vs)
    ensures Share(ScopeOf(w), MovedAll(cs, net, vs)) == Exec(cs, Share(ScopeOf(w), net), schedule)
    decreases |vs|
  {
    hide Fresh, InPhase, Moved, Discreet, Share, Mine, Rank, Deliver;
    var x := ScopeOf(w);
    if vs == [] {
      return [];
    }
    var v, after := vs[0], Moved(cs, net, vs[0]);
    if Delivers(x, net, v) {
      var k := OwnStays(cs, w, net, v.h);
      OwnArrives(cs, x, net, v.h);
      MovesAre(cs, x, net, v);
      var rest := RunAmong(cs, w, after, vs[1..]);
      schedule := [k] + rest;
      ExecFirst(cs, Share(x, net), k, rest);
    } else {
      OtherShared(cs, x, net, v);
      schedule := RunAmong(cs, w, after, vs[1..]);
    }
  }

  lemma MovesAre(cs: Suite, x: Scope, net: Net, v: Move)
    requires Delivers(x, net, v)
    ensures Moved(cs, net, v) == Deliver(cs, net, v.h)
  {
  }

  lemma ExecFirst(cs: Suite, net: Net, k: nat, rest: seq<nat>)
    requires k < |net.flight|
    ensures Exec(cs, net, [k] + rest) == Exec(cs, Deliver(cs, net, k), rest)
  {
    hide Deliver;
    assert ([k] + rest)[1..] == rest && k % |net.flight| == k;
  }

  /** The origin sends its CREATE, whatever else is in flight. */
  ghost function StartedAmong(cs: Suite, w: World, others: seq<Msg>): Net
    requires Fresh(cs, w)
  {
    var r := BuildStart(cs, w.nodes[w.origin], w.plan.route, w.plan.tag, w.plan.xs, w.coins);
    Net(w.nodes[w.origin := r.0], others + Posted(w.origin, r.2))
  }

  lemma PartStarts(cs: Suite, ids: set<u32>, s: NodeState, p: Plan, coins: seq<Bytes>)
    requires p.Valid() && |coins| == |p.route| && s.nextCid in ids
    ensures var r := BuildStart(cs, s, p.route, p.tag, p.xs, coins);
            BuildStart(cs, Part(ids, s), p.route, p.tag, p.xs, coins) == (Part(ids, r.0), r.1, r.2)
  {
    hide Built, CreateCells, Only;
    assert (s.pending + {s.nextCid}) * ids == s.pending * ids + {s.nextCid};
  }

  lemma SharePut(x: Scope, nodes: map<SocketAddr, NodeState>, flight: seq<Msg>, a: SocketAddr, s: NodeState)
    requires IdsAt(x, a) != {}
    ensures Share(x, Net(nodes[a := s], flight)).nodes == Share(x, Net(nodes, [])).nodes[a := Part(IdsAt(x, a), s)]
  {
    hide Part, IdsAt, Mine;
  }

  lemma StartFlight(cs: Suite, w: World, others: seq<Msg>)
    requires w.Known() && Fresh(cs, w) && NoneOurs(ScopeOf(w), others) && Fresh(cs, Alone(w))
    ensures Mine(ScopeOf(w), others + Started(cs, Alone(w)).flight) == Started(cs, Alone(w)).flight
  {
    ScopeKept(cs, w);
    StartedAssembles(cs, Alone(w));
    var x, v := ScopeOf(w), Alone(w);
    hide Fresh, Mine, Started, Assembling, ScopeOf, Alone;
    var ms := Started(cs, v).flight;
    PhaseOurs(cs, v, Started(cs, v));
    MineNone(x, others);
    MineAll(x, ms);
    MineAppend(x, others, ms);
    assert [] + ms == ms;
  }

  /** The circuit's share of a start among others is the start of the circuit alone. */
  lemma StartShared(cs: Suite, w: World, others: seq<Msg>)
    requires w.Known() && Fresh(cs, w) && NoneOurs(ScopeOf(w), others) && Fresh(cs, Alone(w))
    ensures Share(ScopeOf(w), StartedAmong(cs, w, others)) == Started(cs, Alone(w))
  {
    StartFlight(cs, w, others);
    InScope(w, 0);
    FreshBasics(cs, w);
    FreshBasics(cs, Alone(w));
    var x, s := ScopeOf(w), w.nodes[w.origin];
    assert Alone(w).nodes[w.origin] == Part(IdsAt(x, w.origin), s);
    PartStarts(cs, IdsAt(x, w.origin), s, w.plan, w.coins);
    hide Fresh, Mine, Part, BuildStart, ScopeOf, IdsAt;
    var r := BuildStart(cs, s, w.plan.route, w.plan.tag, w.plan.xs, w.coins);
    SharePut(x, w.nodes, others + Posted(w.origin, r.2), w.origin, r.0);
  }

  lemma FreshBasics(cs: Suite, w: World)
    requires Fresh(cs, w)
    ensures w.plan.Valid() && |w.coins| == |w.plan.route| && w.Hops() > 0 && w.Addr(0) == w.origin && w.origin in w.nodes
  {
    assert w.Addr(0) == w.origin;
  }

  /** A finished construction, as far as the circuit is concerned. */
  ghost predicate ConstructedAmong(cs: Suite, w: World, end: Net)
    requires Fresh(cs, w)
  {
    && Mine(ScopeOf(w), end.flight) == []
    && (forall i :: 0 <= i < w.Hops() ==> HoldsEntry(cs, w, end, i))
    && w.origin in end.nodes
    && (w.Cid(0) in end.nodes[w.origin].ready <==> Agreeing(w))
  }

  ghost predicate HoldsEntry(cs: Suite, w: World, end: Net, i: nat)
    requires Fresh(cs, w) && i < w.Hops()
  {
    && w.Addr(i + 1) in end.nodes
    && w.Cid(i) in end.nodes[w.Addr(i + 1)].circuits
    && end.nodes[w.Addr(i + 1)].circuits[w.Cid(i)] == Entry(cs, w, i)
  }

  lemma SameEntry(cs: Suite, w: World, i: nat)
    requires Fresh(cs, w) && w.Known() && Fresh(cs, Alone(w)) && i < w.Hops()
    ensures Entry(cs, Alone(w), i) == Entry(cs, w, i)
  {
    AloneKnown(w);
    hide FreshHop, Encapsulated, KeysAt, Share;
  }

  lemma EntryInShare(x: Scope, end: Net, a: SocketAddr, c: u32)
    requires a in Share(x, end).nodes && c in Share(x, end).nodes[a].circuits
    ensures a in end.nodes && c in end.nodes[a].circuits
    ensures end.nodes[a].circuits[c] == Share(x, end).nodes[a].circuits[c]
  {
    hide IdsAt, Mine;
  }

  lemma ReadyInShare(x: Scope, end: Net, a: SocketAddr, c: u32)
    requires a in Share(x, end).nodes && c in IdsAt(x, a)
    ensures a in end.nodes && (c in end.nodes[a].ready <==> c in Share(x, end).nodes[a].ready)
  {
    hide IdsAt, Mine, Only;
  }

  lemma EntryShared(cs: Suite, w: World, end: Net, i: nat)
    requires Fresh(cs, w) && w.Known() && Fresh(cs, Alone(w)) && i < w.Hops()
    requires Constructed(cs, Alone(w), Share(ScopeOf(w), end))
    ensures HoldsEntry(cs, w, end, i)
  {
    FreshBasics(cs, w);
    AloneKnown(w);
    SameEntry(cs, w, i);
    hide Fresh, Entry, Share, ScopeOf, Alone;
    assert EntryAdded(cs, Alone(w), Share(ScopeOf(w), end), i);
    EntryInShare(ScopeOf(w), end, w.Addr(i + 1), w.Cid(i));
  }

  lemma WokenShared(cs: Suite, w: World, end: Net)
    requires Fresh(cs, w) && w.Known() && Fresh(cs, Alone(w)) && Constructed(cs, Alone(w), Share(ScopeOf(w), end))
    ensures w.origin in end.nodes
    ensures w.Cid(0) in end.nodes[w.origin].ready <==> Agreeing(w)
  {
    FreshBasics(cs, w);
    AloneAgrees(w);
    InScope(w, 0);
    ShareFlight(w, end);
    FreshBasics(cs, Alone(w));
    hide Fresh, Share, ScopeOf, Alone, EntryAdded, IdsAt, Agreeing;
    ReadyInShare(ScopeOf(w), end, w.origin, w.Cid(0));
  }

  lemma AloneAgrees(w: World)
    requires w.Known() && w.Hops() > 0
    ensures Alone(w).Known() && Alone(w).Cid(0) == w.Cid(0) && (Agreeing(Alone(w)) <==> Agreeing(w))
  {
    AloneKnown(w);
    hide Alone;
    assert forall p :: 0 <= p < w.Hops() ==> Alone(w).Cid(p) == w.Cid(p);
  }

  lemma ConstructedShare(cs: Suite, w: World, end: Net)
    requires Fresh(cs, w) && w.Known() && Fresh(cs, Alone(w)) && Constructed(cs, Alone(w), Share(ScopeOf(w), end))
    ensures ConstructedAmong(cs, w, end)
  {
    WokenShared(cs, w, end);
    ShareFlight(w, end);
    hide Fresh, Share, ScopeOf, Alone, HoldsEntry, EntryAdded, Mine, Agreeing;
    forall i | 0 <= i < w.Hops()
      ensures HoldsEntry(cs, w, end, i)
    {
      EntryShared(cs, w, end, i);
    }
  }

  lemma ShareFlight(w: World, end: Net)
    requires w.Known()
    ensures Share(ScopeOf(w), end).flight == Mine(ScopeOf(w), end.flight) && Alone(w).origin == w.origin
  {
  }

  /**
   Construction among bystanders: whatever other circuits do meanwhile, once as many of the
   circuit's own cells have arrived, in any order, as would do if it were alone, none of
   them is in flight, every hop holds the entry planned for it, and the origin is woken if
   and only if the ids agree.
   */
  lemma ConstructionAmong(cs: Suite, w: World, others: seq<Msg>, vs: seq<Move>)
    requires Fresh(cs, w) && w.Known() && NoneOurs(ScopeOf(w), others)
    requires AllDiscreet(cs, ScopeOf(w), StartedAmong(cs, w, others), vs)
    ensures Deliveries(cs, ScopeOf(w), StartedAmong(cs, w, others), vs) >= Work(cs, w, 0) ==>
              ConstructedAmong(cs, w, MovedAll(cs, StartedAmong(cs, w, others), vs))
  {
    AloneFresh(cs, w);
    StartShared(cs, w, others);
    SameWork(cs, w, 0);
    hide Fresh, Alone, Share, Started, StartedAmong, Exec, Work, Constructed, ConstructedAmong, InPhase, AllDiscreet,
      Assembling;
    var net, v := StartedAmong(cs, w, others), Alone(w);
    CircuitConstruction(cs, v, []);
    ExecNothing(cs, Started(cs, v));
    var schedule := RunAmong(cs, w, net, vs);
    CircuitConstruction(cs, v, schedule);
    if |schedule| >= Work(cs, w, 0) {
      ConstructedShare(cs, w, MovedAll(cs, net, vs));
    }
  }

  lemma ExecNothing(cs: Suite, net: Net)
    ensures Exec(cs, net, []) == net
  {
  }

  lemma {:induction false} SameWork(cs: Suite, w: World, t: nat)
    requires Fresh(cs, w) && w.Known() && Fresh(cs, Alone(w)) && t <= w.Hops()
    ensures Work(cs, Alone(w), t) == Work(cs, w, t)
    decreases w.Hops() - t
  {
    hide Fresh, HeaderAt, Share;
    if t < w.Hops() {
      SameWork(cs, w, t + 1);
    }
  }
}
