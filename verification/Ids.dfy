/**
 The circuit ids in a node's table, over everything that can happen to a node. Hop entries
 lie under the id their predecessor uses, and until its id counter wraps around, the ids a
 node has drawn for its outgoing links lie below the counter and are all different.
 */
module Ids {
  import opened Scalars
  import opened Crypto
  import opened Identity
  import opened Octets
  import opened Sphinx
  import opened SphinxMachine
  import opened Onion
  import opened Cells
  import opened Fragments
  import opened Engine

  /** All that moves a node: a cell from anybody, or one of its user's operations with any arguments. */
  datatype Event =
    | Receive(src: SocketAddr, cell: Cell)
    | StartBuild(route: seq<Descriptor>, tag: Bytes16, xs: seq<Scalar>, coins: seq<Bytes>)
    | FinishBuild(cid: u32, built: BuiltHeader)
    | Register(cid: u32, stream: u16)
    | Say(handle: CircuitHandle, stream: u16, rcmd: RCmd, msg: Bytes)
    | Hangup(handle: CircuitHandle)

  /** The node afterwards, and the cells it sends. */
  function Effect(cs: Suite, s: NodeState, e: Event): (NodeState, seq<Packet>) {
    match e
    case Receive(src, cell) => HandleCell(cs, s, src, cell)
    case StartBuild(route, tag, xs, coins) =>
      if |xs| == |coins| == |route| then
        var r := BuildStart(cs, s, route, tag, xs, coins);
        (r.0, r.2)
      else (s, [])
    case FinishBuild(cid, built) => (BuildFinish(s, cid, built).0, [])
    case Register(cid, stream) => (RegisterStream(s, cid, stream), [])
    case Say(handle, stream, rcmd, msg) =>
      var r := SendChecked(cs, s, handle, stream, rcmd, msg);
      (r.0, r.2)
    case Hangup(handle) => Close(s, handle)
  }

  function Happen(cs: Suite, s: NodeState, e: Event): NodeState {
    Effect(cs, s, e).0
  }

  function Life(cs: Suite, s: NodeState, events: seq<Event>): NodeState
    decreases |events|
  {
    if events == [] then s else Life(cs, Happen(cs, s, events[0]), events[1..])
  }

  /** The id counter never falls, that is, it does not wrap around. */
  predicate Unwrapped(cs: Suite, s: NodeState, events: seq<Event>)
    decreases |events|
  {
    events == [] ||
    (s.nextCid <= Happen(cs, s, events[0]).nextCid && Unwrapped(cs, Happen(cs, s, events[0]), events[1..]))
  }

  // ---- the invariants ----

  /** A hop's entry lies under the id its predecessor sends. */
  predicate KeyedByPrev(s: NodeState) {
    forall c :: c in s.circuits && !s.circuits[c].OriginEntry? ==> s.circuits[c].prev.cid == c
  }

  /** The ids of outgoing links have been drawn ... */
  predicate Drawn(s: NodeState) {
    forall c :: c in s.circuits && s.circuits[c].RelayEntry? ==> s.circuits[c].next.cid < s.nextCid
  }

  /** ... and each of them once. */
  predicate NextsDiffer(s: NodeState) {
    forall c, d ::
      c in s.circuits && d in s.circuits && c != d && s.circuits[c].RelayEntry? && s.circuits[d].RelayEntry? ==>
        s.circuits[c].next.cid != s.circuits[d].next.cid
  }

  predicate InOrder(s: NodeState) {
    KeyedByPrev(s) && Drawn(s) && NextsDiffer(s)
  }

  /** How an event may change the circuit table: one entry goes, moves its mark, or is put there. */
  predicate Changes(s: NodeState, s': NodeState, c: u32) {
    || s'.circuits == s.circuits
    || s'.circuits == s.circuits - {c}
    || (c in s'.circuits && s'.circuits == s.circuits[c := s'.circuits[c]] && Fitting(s, s', c))
  }

  /** The new entry is the origin's, keeps the links of the one it replaces, or has links just drawn. */
  predicate Fitting(s: NodeState, s': NodeState, c: u32)
    requires c in s'.circuits
  {
    var e := s'.circuits[c];
    || e.OriginEntry?
    || (e.prev.cid == c && (e.RelayEntry? ==> e.next.cid == s.nextCid && s'.nextCid == Incr(s.nextCid)))
    || (c in s.circuits && e == Advance(s.circuits[c], e.lastFwd))
  }

  lemma CellChanges(cs: Suite, s: NodeState, src: SocketAddr, cell: Cell)
    ensures Changes(s, HandleCell(cs, s, src, cell).0, cell.cid)
  {
    hide Process, Reassembled, CreateCells, OpenFwd, SealBwd, ParseRelay, OpenedBwd;
  }

  /** The event's own circuit id. */
  function About(e: Event): u32 {
    match e
    case Receive(_, cell) => cell.cid
    case StartBuild(_, _, _, _) => 0
    case FinishBuild(cid, _) => cid
    case Register(cid, _) => cid
    case Say(handle, _, _, _) => handle.cid
    case Hangup(handle) => handle.cid
  }

  lemma HappenChanges(cs: Suite, s: NodeState, e: Event)
    ensures Changes(s, Happen(cs, s, e), About(e))
  {
    hide HandleCell, Built, CreateCells, SealedFwd;
    if e.Receive? {
      CellChanges(cs, s, e.src, e.cell);
    }
  }

  lemma ChangesKeepKeys(s: NodeState, s': NodeState, c: u32)
    requires KeyedByPrev(s) && Changes(s, s', c)
    ensures KeyedByPrev(s')
  {
  }

  lemma ChangesKeepOrder(s: NodeState, s': NodeState, c: u32)
    requires InOrder(s) && Changes(s, s', c) && s.nextCid <= s'.nextCid
    ensures InOrder(s')
  {
    ChangesKeepKeys(s, s', c);
  }

  /** Whatever happens to a node, its hop entries stay keyed by their predecessors' ids. */
  lemma {:induction false} LifeKeepsKeys(cs: Suite, s: NodeState, events: seq<Event>)
    requires KeyedByPrev(s)
    ensures KeyedByPrev(Life(cs, s, events))
    decreases |events|
  {
    hide KeyedByPrev, Happen, Changes;
    if events != [] {
      HappenChanges(cs, s, events[0]);
      ChangesKeepKeys(s, Happen(cs, s, events[0]), About(events[0]));
      LifeKeepsKeys(cs, Happen(cs, s, events[0]), events[1..]);
    }
  }

  /** And until its id counter wraps around, its outgoing ids lie below the counter and differ. */
  lemma {:induction false} LifeKeepsOrder(cs: Suite, s: NodeState, events: seq<Event>)
    requires InOrder(s) && Unwrapped(cs, s, events)
    ensures InOrder(Life(cs, s, events))
    decreases |events|
  {
    hide InOrder, Happen, Changes;
    if events != [] {
      HappenChanges(cs, s, events[0]);
      ChangesKeepOrder(s, Happen(cs, s, events[0]), About(events[0]));
      LifeKeepsOrder(cs, Happen(cs, s, events[0]), events[1..]);
    }
  }

  /**
   Every state a node can reach from being spawned: under arbitrary cells from anybody and
   any operations of its user, hop entries are keyed by their predecessors' ids, and while
   the counter has not wrapped around, outgoing ids are drawn ids, each used once.
   */
  lemma ReachableInOrder(cs: Suite, identity: NodeIdentity, events: seq<Event>)
    ensures KeyedByPrev(Life(cs, Spawned(identity), events))
    ensures Unwrapped(cs, Spawned(identity), events) ==> InOrder(Life(cs, Spawned(identity), events))
  {
    LifeKeepsKeys(cs, Spawned(identity), events);
    if Unwrapped(cs, Spawned(identity), events) {
      LifeKeepsOrder(cs, Spawned(identity), events);
    }
  }
}
