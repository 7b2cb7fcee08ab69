/**
 Replay safety over all schedules: cells of every kind may be lost, duplicated, reordered
 and, off the circuit's links, invented, and the circuit's nodes may build and lose other
 circuits meanwhile. While a circuit's own entries live and no other circuit comes to use
 its id on one of its links, the sequence numbers an entry accepts strictly increase, and
 what a hop accepts is a subsequence of what the hop before it accepted.
 */
module Replay {
  import opened Wrappers
  import opened Octets
  import opened Crypto
  import opened Identity
  import opened Sphinx
  import opened Onion
  import opened Cells
  import opened Fragments
  import opened Engine
  import opened Network

  // ---- the simple check the entries refine ----

  /** MonotonicCheck::check as a function: the verdict and the new mark. */
  function Verdict(last: u32, seqNo: u32): (bool, u32) {
    if seqNo <= last then (false, last) else (true, seqNo)
  }

  class MonotonicCheck {
    var last: u32

    constructor ()
      ensures last == 0
    {
      last := 0;
    }

    method Check(seqNo: u32) returns (ok: bool)
      modifies this
      ensures (ok, last) == Verdict(old(last), seqNo)
      ensures ok <==> last > old(last)
    {
      if seqNo <= last {
        return false;
      }
      last := seqNo;
      return true;
    }
  }

  /** The entry a node holds for a circuit, if it is a hop of it. */
  function HopEntry(s: NodeState, cid: u32): Option<CircuitEntry> {
    if cid in s.circuits && !s.circuits[cid].OriginEntry? then Some(s.circuits[cid]) else None
  }

  /** The sequence number node `s` accepts on handling a cell, if any. */
  function Accepted(cs: Suite, s: NodeState, src: SocketAddr, cell: Cell): Option<u32> {
    var m := ParseRelay(cell.payload);
    var e := HopEntry(s, cell.cid);
    if cell.cmd.Relay? && m.Some? && e.Some? && Accepts(cs, e.value, src, m.value) then Some(m.value.seqNo) else None
  }

  /**
   `last_fwd` is a MonotonicCheck that is consulted for cells from the previous hop and
   updated only when the layer opens.
   */
  lemma RefinesCheck(cs: Suite, s: NodeState, src: SocketAddr, cell: Cell, m: RelayMsg)
    requires cell.cmd.Relay? && ParseRelay(cell.payload) == Some(m) && HopEntry(s, cell.cid).Some?
    ensures var e := s.circuits[cell.cid];
            var opens := src == e.prev.peer && OpenFwd(cs, e.kFwd, e.tag, m.seqNo, m.onion).Ok?;
            var s' := HandleCell(cs, s, src, cell).0;
            && (Accepted(cs, s, src, cell).Some? <==> opens && Verdict(e.lastFwd, m.seqNo).0)
            && HopEntry(s', cell.cid)
               == Some(if opens then Advance(e, Verdict(e.lastFwd, m.seqNo).1) else e)
  {
  }

  // ---- the run ----

  type Place = (SocketAddr, u32)

  /** The network together with the sequence numbers every entry has accepted so far. */
  datatype Sys = Sys(net: Net, accepted: map<Place, seq<u32>>)

  function History(sys: Sys, at: Place): seq<u32> {
    if at in sys.accepted then sys.accepted[at] else []
  }

  datatype Action =
    | Arrive(j: nat) // cell j reaches its destination
    | Lose(j: nat)
    | Duplicate(j: nat)
    | Inject(m: Msg) // any other cell appears

  function Step(cs: Suite, sys: Sys, act: Action): Sys {
    match act
    case Arrive(j) =>
      if j >= |sys.net.flight| then sys
      else
        var m := sys.net.flight[j];
        var q := if m.dst in sys.net.nodes then Accepted(cs, sys.net.nodes[m.dst], m.src, m.cell) else None;
        var at := (m.dst, m.cell.cid);
        Sys(Deliver(cs, sys.net, j),
            if q.Some? then sys.accepted[at := History(sys, at) + [q.value]] else sys.accepted)
    case Lose(j) =>
      if j >= |sys.net.flight| then sys else sys.(net := Net(sys.net.nodes, Without(sys.net.flight, j)))
    case Duplicate(j) =>
      if j >= |sys.net.flight| then sys
      else sys.(net := Net(sys.net.nodes, sys.net.flight + [sys.net.flight[j]]))
    case Inject(m) => sys.(net := Net(sys.net.nodes, sys.net.flight + [m]))
  }

  function Run(cs: Suite, sys: Sys, acts: seq<Action>): Sys
    decreases |acts|
  {
    if acts == [] then sys else Run(cs, Step(cs, sys, acts[0]), acts[1..])
  }

  // ---- what keeps an entry alive ----

  /** A CREATE cell completes a header that the node accepts, so an entry is installed under its id. */
  predicate Installs(cs: Suite, s: NodeState, cell: Cell) {
    && cell.cmd.Create?
    && var frag := ParseFrag(cell.payload);
       && frag.Ok?
       && var full := Reassembled(s.createFrags, cell.cid, frag.value.1, frag.value.0, frag.value.2).0;
          full.Some? && Process(cs, s.identity, full.value).Ok?
  }

  predicate Removes(s: NodeState, cell: Cell) {
    cell.cmd.Destroy? && cell.cid in s.circuits
  }

  predicate Reshapes(cs: Suite, s: NodeState, cell: Cell) {
    Installs(cs, s, cell) || Removes(s, cell)
  }

  /** The action makes node `a` install or remove an entry. */
  predicate Disturbs(cs: Suite, sys: Sys, act: Action, a: SocketAddr) {
    && act.Arrive? && act.j < |sys.net.flight| && a in sys.net.nodes
    && sys.net.flight[act.j].dst == a && Reshapes(cs, sys.net.nodes[a], sys.net.flight[act.j].cell)
  }

  /** The action makes the node install or remove the very entry at `at`. */
  predicate Resets(cs: Suite, sys: Sys, act: Action, at: Place) {
    Disturbs(cs, sys, act, at.0) && sys.net.flight[act.j].cell.cid == at.1
  }

  /** Any other cell leaves the table as it is, but for the mark of the entry it is for. */
  lemma CalmKeepsShape(cs: Suite, s: NodeState, src: SocketAddr, cell: Cell)
    requires !Reshapes(cs, s, cell)
    ensures var s' := HandleCell(cs, s, src, cell).0;
            && s'.circuits.Keys == s.circuits.Keys
            && forall c :: c in s.circuits ==>
                 && (c != cell.cid ==> s'.circuits[c] == s.circuits[c])
                 && (s.circuits[c].OriginEntry? <==> s'.circuits[c].OriginEntry?)
                 && (!s.circuits[c].OriginEntry? ==>
                       s'.circuits[c] == Advance(s.circuits[c], s'.circuits[c].lastFwd))
  {
    hide OpenFwd, OpenedBwd, SealBwd, ParseRelay, Reassembled, Process, CreateCells;
    if cell.cmd.Relay? {
      var m := ParseRelay(cell.payload);
      if m.Some? && cell.cid in s.circuits && !s.circuits[cell.cid].OriginEntry? {
        RefinesCheck(cs, s, src, cell, m.value);
      }
    }
  }

  /** Accepting raises the mark to the accepted number; anything else leaves it. */
  lemma AcceptMoves(cs: Suite, s: NodeState, src: SocketAddr, cell: Cell)
    requires HopEntry(s, cell.cid).Some? && !Reshapes(cs, s, cell)
    ensures var q := Accepted(cs, s, src, cell);
            var e, e' := HopEntry(s, cell.cid).value, HopEntry(HandleCell(cs, s, src, cell).0, cell.cid);
            && e'.Some?
            && (q.Some? ==> e.lastFwd < q.value == e'.value.lastFwd && src == e.prev.peer)
            && (q.None? ==> e'.value.lastFwd == e.lastFwd)
  {
    hide OpenFwd, OpenedBwd, SealBwd, ParseRelay, Reassembled, Process, CreateCells;
    var m := ParseRelay(cell.payload);
    if cell.cmd.Relay? && m.Some? {
      RefinesCheck(cs, s, src, cell, m.value);
    }
  }

  // ---- one entry ----

  predicate Increasing(s: seq<u32>) {
    forall i, j :: 0 <= i < j < |s| ==> s[i] < s[j]
  }

  /** Increasing, and nothing above the mark. */
  predicate Marked(h: seq<u32>, mark: u32) {
    Increasing(h) && forall i :: 0 <= i < |h| ==> h[i] <= mark
  }

  /** There is an entry at `at`, and its mark bounds what it has accepted. */
  predicate Alive(sys: Sys, at: Place) {
    && at.0 in sys.net.nodes && HopEntry(sys.net.nodes[at.0], at.1).Some?
    && Marked(History(sys, at), HopEntry(sys.net.nodes[at.0], at.1).value.lastFwd)
  }

  /** The number accepted when cell j arrives, if any. */
  function Arriving(cs: Suite, sys: Sys, j: nat): Option<u32>
    requires j < |sys.net.flight|
  {
    var m := sys.net.flight[j];
    if m.dst in sys.net.nodes then Accepted(cs, sys.net.nodes[m.dst], m.src, m.cell) else None
  }

  lemma HistoryGrows(cs: Suite, sys: Sys, j: nat, at: Place)
    requires j < |sys.net.flight|
    ensures var m := sys.net.flight[j];
            var q := Arriving(cs, sys, j);
            History(Step(cs, sys, Arrive(j)), at)
            == if q.Some? && at == (m.dst, m.cell.cid) then History(sys, at) + [q.value] else History(sys, at)
  {
    hide Accepted, Deliver;
  }

  /** Everything but an arrival leaves nodes and histories alone. */
  lemma OnlyArrivalsCount(cs: Suite, sys: Sys, act: Action)
    requires !act.Arrive? || act.j >= |sys.net.flight|
    ensures var sys' := Step(cs, sys, act);
            sys'.net.nodes == sys.net.nodes && sys'.accepted == sys.accepted
  {
  }

  lemma StepKeepsAlive(cs: Suite, sys: Sys, act: Action, at: Place)
    requires Alive(sys, at) && !Resets(cs, sys, act, at)
    ensures Alive(Step(cs, sys, act), at)
  {
    hide Accepted, HandleCell, History, Reshapes;
    if act.Arrive? && act.j < |sys.net.flight| {
      HistoryGrows(cs, sys, act.j, at);
      var m := sys.net.flight[act.j];
      if m.dst == at.0 {
        if m.cell.cid == at.1 {
          AcceptMoves(cs, sys.net.nodes[m.dst], m.src, m.cell);
        } else {
          OtherEntryKept(cs, sys.net.nodes[m.dst], m.src, m.cell, at.1);
        }
      }
    } else {
      OnlyArrivalsCount(cs, sys, act);
      SameHistory(sys, Step(cs, sys, act), at);
    }
  }

  lemma SameHistory(a: Sys, b: Sys, at: Place)
    requires a.accepted == b.accepted
    ensures History(a, at) == History(b, at)
  {
  }

  /** A cell for one circuit leaves the entries of all others alone, even when it installs or removes one. */
  lemma OtherEntryKept(cs: Suite, s: NodeState, src: SocketAddr, cell: Cell, c: u32)
    requires c != cell.cid
    ensures var s' := HandleCell(cs, s, src, cell).0;
            (c in s'.circuits <==> c in s.circuits) && (c in s.circuits ==> s'.circuits[c] == s.circuits[c])
  {
    hide OpenFwd, OpenedBwd, SealBwd, ParseRelay, Reassembled, Process, CreateCells;
  }

  /** No action of the run resets the entry at `at`. */
  predicate Undisturbed(cs: Suite, sys: Sys, acts: seq<Action>, at: Place)
    decreases |acts|
  {
    acts == [] || (!Resets(cs, sys, acts[0], at) && Undisturbed(cs, Step(cs, sys, acts[0]), acts[1..], at))
  }

  /**
   One entry, over any schedule and any cells, forged ones included: as long as the entry
   is neither installed anew nor removed, what it accepts strictly increases.
   */
  lemma {:induction false} AcceptedIncrease(cs: Suite, sys: Sys, acts: seq<Action>, at: Place)
    requires Alive(sys, at) && Undisturbed(cs, sys, acts, at)
    ensures Alive(Run(cs, sys, acts), at)
    decreases |acts|
  {
    hide Alive, Step, Resets;
    if acts != [] {
      StepKeepsAlive(cs, sys, acts[0], at);
      AcceptedIncrease(cs, Step(cs, sys, acts[0]), acts[1..], at);
    }
  }

  // ---- one link between two hops ----

  /** The link from the entry `up` to the entry `down` of the next hop. */
  datatype Link = Link(up: Place, down: Place)

  predicate On(l: Link, m: Msg) {
    m.cell.cmd.Relay? && m.src == l.up.0 && m.dst == l.down.0 && m.cell.cid == l.down.1
  }

  predicate Targets(h: HopLink, at: Place) {
    h.peer == at.0 && h.cid == at.1
  }

  /** Only the forward side of entry `l.up` sends to `l.down`. */
  predicate SoleSource(s: NodeState, l: Link) {
    forall c :: c in s.circuits && !s.circuits[c].OriginEntry? ==>
      && !Targets(s.circuits[c].prev, l.down)
      && (s.circuits[c].RelayEntry? && c != l.up.1 ==> !Targets(s.circuits[c].next, l.down))
  }

  predicate Linked(nodes: map<SocketAddr, NodeState>, l: Link) {
    && l.up.0 in nodes && l.down.0 in nodes
    && SoleSource(nodes[l.up.0], l)
    && HopEntry(nodes[l.up.0], l.up.1).Some?
    && HopEntry(nodes[l.down.0], l.down.1).Some?
    && HopEntry(nodes[l.down.0], l.down.1).value.prev.peer == l.up.0
  }

  /**
   A CREATE from `src` that completes at `s` may give a new entry a link to `at`: back, if it
   came from there under that id, or onwards, if that id is the next one drawn.
   */
  predicate Names(s: NodeState, src: SocketAddr, cell: Cell, at: Place) {
    (cell.cid == at.1 && src == at.0) || s.nextCid == at.1
  }

  /** The action makes node `l.up.0` install an entry that may share the link. */
  predicate Crosses(cs: Suite, sys: Sys, act: Action, l: Link) {
    && act.Arrive? && act.j < |sys.net.flight| && l.up.0 in sys.net.nodes
    && var m, s := sys.net.flight[act.j], sys.net.nodes[l.up.0];
       m.dst == l.up.0 && Installs(cs, s, m.cell) && Names(s, m.src, m.cell, l.down)
  }

  /**
   The environment may invent any cell but a RELAY cell on the link; the link's own entries
   are not installed anew or removed, and no other circuit comes to share the link.
   */
  predicate Allowed(cs: Suite, sys: Sys, act: Action, l: Link) {
    && (act.Inject? ==> !On(l, act.m))
    && !Resets(cs, sys, act, l.up) && !Resets(cs, sys, act, l.down) && !Crosses(cs, sys, act, l)
  }

  /** Whatever travels on the link, or was accepted behind it, was accepted before it. */
  ghost predicate LinkOk(sys: Sys, l: Link) {
    && (forall k :: 0 <= k < |sys.net.flight| && On(l, sys.net.flight[k]) ==> Vouched(sys, l, sys.net.flight[k]))
    && (forall q :: q in History(sys, l.down) ==> q in History(sys, l.up))
  }

  predicate Vouched(sys: Sys, l: Link, m: Msg) {
    var p := ParseRelay(m.cell.payload);
    p.Some? ==> p.value.seqNo in History(sys, l.up)
  }

  ghost predicate Inv(sys: Sys, l: Link) {
    && Linked(sys.net.nodes, l) && l.up != l.down
    && Alive(sys, l.up) && Alive(sys, l.down) && LinkOk(sys, l)
  }

  // ---- what a node sends ----

  /** A RELAY cell is answered by at most one cell, a RELAY cell; any other cell by no RELAY cell. */
  lemma RelayAnswers(cs: Suite, s: NodeState, src: SocketAddr, cell: Cell)
    ensures var ps := HandleCell(cs, s, src, cell).1;
            && (cell.cmd.Relay? ==> |ps| <= 1 && forall k :: 0 <= k < |ps| ==> ps[k].cell.cmd.Relay?)
            && (!cell.cmd.Relay? ==> forall k :: 0 <= k < |ps| ==> !ps[k].cell.cmd.Relay?)
  {
    hide OpenFwd, OpenedBwd, SealBwd, ParseRelay, RelayBytes, Reassembled, Process, FragmentAt, Total;
  }

  /** A cell sent towards `l.down` carries the number `l.up` has just accepted. */
  lemma SendsVouched(cs: Suite, s: NodeState, src: SocketAddr, cell: Cell, l: Link)
    requires cell.cmd.Relay? && SoleSource(s, l)
    ensures var ps := HandleCell(cs, s, src, cell).1;
            ps != [] && ps[0].dst == l.down.0 && ps[0].cell.cid == l.down.1 ==>
              && cell.cid == l.up.1 && Accepted(cs, s, src, cell).Some?
              && ParseRelay(ps[0].cell.payload).Some?
              && ParseRelay(ps[0].cell.payload).value.seqNo == Accepted(cs, s, src, cell).value
  {
    hide OpenFwd, SealBwd, RelayBytes, ParseRelay, OpenedBwd;
    var m := ParseRelay(cell.payload);
    if m.Some? && HopEntry(s, cell.cid).Some? && Accepts(cs, s.circuits[cell.cid], src, m.value) {
      var e := s.circuits[cell.cid];
      var inner := m.value.(onion := OpenFwd(cs, e.kFwd, e.tag, m.value.seqNo, m.value.onion).value);
      ParseRelayExactly(RelayBytes(inner), inner);
    }
  }

  lemma {:induction false} PostedNoRelay(src: SocketAddr, ps: seq<Packet>)
    requires forall k :: 0 <= k < |ps| ==> !ps[k].cell.cmd.Relay?
    ensures forall k :: 0 <= k < |Posted(src, ps)| ==> !Posted(src, ps)[k].cell.cmd.Relay?
  {
    if ps != [] {
      PostedNoRelay(src, ps[1..]);
    }
  }

  /** What handling puts on the link is vouched for. */
  lemma PostsVouched(cs: Suite, s: NodeState, m: Msg, l: Link, k: nat)
    requires m.dst == l.up.0 ==> SoleSource(s, l)
    requires k < |Posted(m.dst, HandleCell(cs, s, m.src, m.cell).1)|
    requires On(l, Posted(m.dst, HandleCell(cs, s, m.src, m.cell).1)[k])
    ensures var x := Posted(m.dst, HandleCell(cs, s, m.src, m.cell).1)[k];
            && (m.dst, m.cell.cid) == l.up && Accepted(cs, s, m.src, m.cell).Some?
            && (ParseRelay(x.cell.payload).Some? ==>
                  ParseRelay(x.cell.payload).value.seqNo == Accepted(cs, s, m.src, m.cell).value)
  {
    hide Accepted, HandleCell, ParseRelay, SoleSource;
    RelayAnswers(cs, s, m.src, m.cell);
    var ps := HandleCell(cs, s, m.src, m.cell).1;
    PostedFits(m.dst, ps);
    if m.cell.cmd.Relay? {
      assert ps == [ps[0]] && ps[1..] == [];
      SendsVouched(cs, s, m.src, m.cell, l);
    } else {
      PostedNoRelay(m.dst, ps);
      assert false;
    }
  }

  // ---- the invariant is kept ----

  /** What a completed CREATE installs: links to its sender and to the id drawn. */
  lemma InstalledLinks(cs: Suite, s: NodeState, src: SocketAddr, cell: Cell)
    requires Installs(cs, s, cell)
    ensures var s' := HandleCell(cs, s, src, cell).0;
            && cell.cid in s'.circuits
            && var e := s'.circuits[cell.cid];
               && s'.circuits == s.circuits[cell.cid := e]
               && !e.OriginEntry? && e.prev == HopLink(cell.cid, src)
               && (e.RelayEntry? ==> e.next.cid == s.nextCid)
  {
    hide Process, Reassembled, CreateCells;
  }

  /** No other circuit shares the link, whatever a node installs or removes besides. */
  lemma SourceKept(cs: Suite, s: NodeState, src: SocketAddr, cell: Cell, l: Link)
    requires SoleSource(s, l) && !(Installs(cs, s, cell) && Names(s, src, cell, l.down))
    ensures SoleSource(HandleCell(cs, s, src, cell).0, l)
  {
    hide HandleCell, Installs;
    if Installs(cs, s, cell) {
      InstalledLinks(cs, s, src, cell);
    } else if Removes(s, cell) {
      OthersStay(cs, s, src, cell);
    } else {
      CalmKeepsShape(cs, s, src, cell);
    }
  }

  lemma OthersStay(cs: Suite, s: NodeState, src: SocketAddr, cell: Cell)
    requires Removes(s, cell)
    ensures HandleCell(cs, s, src, cell).0.circuits == s.circuits - {cell.cid}
  {
  }

  /** An entry that is not reset keeps its keys and links. */
  lemma EntryLives(cs: Suite, s: NodeState, src: SocketAddr, cell: Cell, c: u32)
    requires HopEntry(s, c).Some? && !(Reshapes(cs, s, cell) && cell.cid == c)
    ensures var e, e' := HopEntry(s, c).value, HopEntry(HandleCell(cs, s, src, cell).0, c);
            e'.Some? && e'.value == Advance(e, e'.value.lastFwd)
  {
    hide HandleCell, Reshapes;
    if cell.cid == c {
      CalmKeepsShape(cs, s, src, cell);
    } else {
      OtherEntryKept(cs, s, src, cell, c);
    }
  }

  lemma StepKeepsLinked(cs: Suite, sys: Sys, act: Action, l: Link)
    requires Linked(sys.net.nodes, l) && Allowed(cs, sys, act, l)
    ensures Linked(Step(cs, sys, act).net.nodes, l)
  {
    hide Accepted, HandleCell, Reshapes, Installs, SoleSource;
    if act.Arrive? && act.j < |sys.net.flight| {
      var m := sys.net.flight[act.j];
      if m.dst == l.up.0 {
        SourceKept(cs, sys.net.nodes[m.dst], m.src, m.cell, l);
        EntryLives(cs, sys.net.nodes[m.dst], m.src, m.cell, l.up.1);
      }
      if m.dst == l.down.0 {
        EntryLives(cs, sys.net.nodes[m.dst], m.src, m.cell, l.down.1);
      }
    } else {
      OnlyArrivalsCount(cs, sys, act);
    }
  }

  lemma AcceptedIsParsed(cs: Suite, s: NodeState, src: SocketAddr, cell: Cell)
    requires Accepted(cs, s, src, cell).Some?
    ensures cell.cmd.Relay? && HopEntry(s, cell.cid).Some? && src == HopEntry(s, cell.cid).value.prev.peer
    ensures ParseRelay(cell.payload).Some? && ParseRelay(cell.payload).value.seqNo == Accepted(cs, s, src, cell).value
  {
  }

  lemma ArriveKeepsLink(cs: Suite, sys: Sys, j: nat, l: Link)
    requires j < |sys.net.flight| && Inv(sys, l)
    ensures LinkOk(Step(cs, sys, Arrive(j)), l)
  {
    hide Accepted, HandleCell, History, ParseRelay, Alive, Posted;
    var sys' := Step(cs, sys, Arrive(j));
    var m := sys.net.flight[j];
    HistoryGrows(cs, sys, j, l.up);
    HistoryGrows(cs, sys, j, l.down);
    var rest := Without(sys.net.flight, j);
    if Arriving(cs, sys, j).Some? && (m.dst, m.cell.cid) == l.down {
      AcceptedIsParsed(cs, sys.net.nodes[m.dst], m.src, m.cell);
      assert On(l, m) && Vouched(sys, l, m);
    }
    forall k | 0 <= k < |sys'.net.flight| && On(l, sys'.net.flight[k])
      ensures Vouched(sys', l, sys'.net.flight[k])
    {
      if k < |rest| {
        assert Vouched(sys, l, rest[k]);
      } else {
        var s := sys.net.nodes[m.dst];
        var ms := Posted(m.dst, HandleCell(cs, s, m.src, m.cell).1);
        assert sys'.net.flight[k] == ms[k - |rest|];
        PostsVouched(cs, s, m, l, k - |rest|);
      }
    }
  }

  /** Losing, duplicating or inventing cells off the link puts nothing new on it. */
  lemma QuietKeepsLink(cs: Suite, sys: Sys, act: Action, l: Link)
    requires LinkOk(sys, l) && Allowed(cs, sys, act, l) && (!act.Arrive? || act.j >= |sys.net.flight|)
    ensures LinkOk(Step(cs, sys, act), l)
  {
    hide ParseRelay, History, Resets, Crosses;
    var sys' := Step(cs, sys, act);
    OnlyArrivalsCount(cs, sys, act);
    SameHistory(sys, sys', l.up);
    SameHistory(sys, sys', l.down);
    forall k | 0 <= k < |sys'.net.flight| && On(l, sys'.net.flight[k])
      ensures Vouched(sys', l, sys'.net.flight[k])
    {
      var x := sys'.net.flight[k];
      assert exists i :: 0 <= i < |sys.net.flight| && sys.net.flight[i] == x by {
        match act {
          case Arrive(j) =>
            assert x == sys.net.flight[k];
          case Lose(j) =>
            if j < |sys.net.flight| { assert x == sys.net.flight[if k < j then k else k + 1]; }
          case Duplicate(j) =>
            if j < |sys.net.flight| { assert x == sys.net.flight[if k < |sys.net.flight| then k else j]; }
          case Inject(_) =>
            assert k < |sys.net.flight|;
        }
      }
      var i :| 0 <= i < |sys.net.flight| && sys.net.flight[i] == x;
      assert Vouched(sys, l, sys.net.flight[i]);
    }
  }

  lemma StepKeeps(cs: Suite, sys: Sys, act: Action, l: Link)
    requires Inv(sys, l) && Allowed(cs, sys, act, l)
    ensures Inv(Step(cs, sys, act), l)
  {
    hide Linked, Alive, LinkOk, Resets, Crosses, Step;
    StepKeepsLinked(cs, sys, act, l);
    StepKeepsAlive(cs, sys, act, l.up);
    StepKeepsAlive(cs, sys, act, l.down);
    if act.Arrive? && act.j < |sys.net.flight| {
      ArriveKeepsLink(cs, sys, act.j, l);
    } else {
      QuietKeepsLink(cs, sys, act, l);
    }
  }

  // ---- the theorem ----

  predicate IsSubseq(a: seq<u32>, b: seq<u32>) {
    if a == [] then true
    else if b == [] then false
    else if a[0] == b[0] then IsSubseq(a[1..], b[1..])
    else IsSubseq(a, b[1..])
  }

  lemma {:induction false} IncreasingSubset(a: seq<u32>, b: seq<u32>)
    requires Increasing(a) && Increasing(b) && forall x :: x in a ==> x in b
    ensures IsSubseq(a, b)
  {
    if a != [] {
      assert a[0] in b;
      assert b != [];
      if a[0] == b[0] {
        forall x | x in a[1..]
          ensures x in b[1..]
        {
          assert x in a && x > b[0];
        }
        IncreasingSubset(a[1..], b[1..]);
      } else {
        forall x | x in a
          ensures x in b[1..]
        {
          var i :| 0 <= i < |b| && b[i] == a[0];
          assert x >= a[0] > b[0];
        }
        IncreasingSubset(a, b[1..]);
      }
    }
  }

  function LinkAt(route: seq<Place>, i: nat): Link
    requires i + 1 < |route|
  {
    Link(route[i], route[i + 1])
  }

  ghost predicate Ready(sys: Sys, l: Link) {
    && Linked(sys.net.nodes, l) && l.up != l.down
    && forall k :: 0 <= k < |sys.net.flight| ==> !On(l, sys.net.flight[k])
  }

  predicate Holds(sys: Sys, at: Place) {
    at.0 in sys.net.nodes && HopEntry(sys.net.nodes[at.0], at.1).Some?
  }

  /** A circuit of hops: every place holds an entry and consecutive places are linked; nothing is accepted yet. */
  ghost predicate Chained(sys: Sys, route: seq<Place>) {
    && sys.accepted == map[]
    && (forall i :: 0 <= i < |route| ==> Holds(sys, route[i]))
    && (forall i :: 0 <= i < |route| - 1 ==> Ready(sys, LinkAt(route, i)))
  }

  predicate AllowedOn(cs: Suite, sys: Sys, act: Action, route: seq<Place>) {
    && (forall i :: 0 <= i < |route| ==> !Resets(cs, sys, act, route[i]))
    && (forall i :: 0 <= i < |route| - 1 ==> !Crosses(cs, sys, act, LinkAt(route, i)))
    && (act.Inject? ==> forall i :: 0 <= i < |route| - 1 ==> !On(LinkAt(route, i), act.m))
  }

  /**
   A run that invents no RELAY cell on the circuit's links, in which the circuit's own
   entries are neither installed anew nor removed, and in which no CREATE that completes
   at one of its nodes gives another circuit the id of the next link on that link. The
   nodes may install and remove any other entries.
   */
  predicate Calm(cs: Suite, sys: Sys, acts: seq<Action>, route: seq<Place>)
    decreases |acts|
  {
    acts == [] || (AllowedOn(cs, sys, acts[0], route) && Calm(cs, Step(cs, sys, acts[0]), acts[1..], route))
  }

  lemma {:induction false} RunKeeps(cs: Suite, sys: Sys, acts: seq<Action>, route: seq<Place>, i: nat)
    requires i + 1 < |route| && Inv(sys, LinkAt(route, i)) && Calm(cs, sys, acts, route)
    ensures Inv(Run(cs, sys, acts), LinkAt(route, i))
    decreases |acts|
  {
    hide Inv, Resets, Crosses, Step, On;
    if acts != [] {
      assert AllowedOn(cs, sys, acts[0], route);
      assert route[i] == LinkAt(route, i).up && route[i + 1] == LinkAt(route, i).down;
      StepKeeps(cs, sys, acts[0], LinkAt(route, i));
      RunKeeps(cs, Step(cs, sys, acts[0]), acts[1..], route, i);
    }
  }

  lemma {:induction false} CalmAt(cs: Suite, sys: Sys, acts: seq<Action>, route: seq<Place>, i: nat)
    requires i < |route| && Calm(cs, sys, acts, route)
    ensures Undisturbed(cs, sys, acts, route[i])
    decreases |acts|
  {
    hide Step, Resets, Crosses;
    if acts != [] {
      CalmAt(cs, Step(cs, sys, acts[0]), acts[1..], route, i);
    }
  }

  /**
   Replay safety: on any schedule that loses, duplicates, delays and reorders cells and
   invents any but RELAY cells on the circuit's links, and in which the circuit's nodes
   build and lose any other circuits, during one life of the circuit's own entries, every
   hop's accepted sequence numbers strictly increase, and those of a hop are a subsequence
   of those of every hop before it.
   */
  lemma {:induction false} ReplaySafety(cs: Suite, sys: Sys, route: seq<Place>, acts: seq<Action>, i: nat, j: nat)
    requires Chained(sys, route) && Calm(cs, sys, acts, route) && i <= j < |route|
    ensures var end := Run(cs, sys, acts);
            && Increasing(History(end, route[i])) && Increasing(History(end, route[j]))
            && IsSubseq(History(end, route[j]), History(end, route[i]))
  {
    hide Run, History, HopEntry, Linked, Calm, Chained, Increasing;
    var end := Run(cs, sys, acts);
    Contained(cs, sys, route, acts, i, j);
    IncreasingSubset(History(end, route[j]), History(end, route[i]));
  }

  lemma {:induction false} Contained(cs: Suite, sys: Sys, route: seq<Place>, acts: seq<Action>, i: nat, j: nat)
    requires Chained(sys, route) && Calm(cs, sys, acts, route) && i <= j < |route|
    ensures var end := Run(cs, sys, acts);
            && Increasing(History(end, route[i])) && Increasing(History(end, route[j]))
            && forall q :: q in History(end, route[j]) ==> q in History(end, route[i])
    decreases j - i
  {
    hide Run, Calm, Increasing;
    OneEntry(cs, sys, route, acts, i);
    if i < j {
      OneLink(cs, sys, route, acts, i);
      Contained(cs, sys, route, acts, i + 1, j);
    }
  }

  lemma OneEntry(cs: Suite, sys: Sys, route: seq<Place>, acts: seq<Action>, i: nat)
    requires Chained(sys, route) && Calm(cs, sys, acts, route) && i < |route|
    ensures Increasing(History(Run(cs, sys, acts), route[i]))
  {
    hide Run, Calm, Undisturbed;
    assert Holds(sys, route[i]);
    CalmAt(cs, sys, acts, route, i);
    AcceptedIncrease(cs, sys, acts, route[i]);
  }

  lemma OneLink(cs: Suite, sys: Sys, route: seq<Place>, acts: seq<Action>, i: nat)
    requires Chained(sys, route) && Calm(cs, sys, acts, route) && i + 1 < |route|
    ensures var end := Run(cs, sys, acts);
            forall q :: q in History(end, route[i + 1]) ==> q in History(end, route[i])
  {
    hide Run, Calm;
    assert Holds(sys, route[i]) && Holds(sys, route[i + 1]) && Ready(sys, LinkAt(route, i));
    RunKeeps(cs, sys, acts, route, i);
  }
}
