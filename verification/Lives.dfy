/**
 The lives of an entry. An entry's mark never falls while it lives; a CREATE completed
 under its id starts a new life with the mark at zero, even one that repeats the CREATE
 the entry came from. So a terminal seals no two replies under one number until a CREATE
 completes under its id, and a repeated CREATE lets it seal the same reply again.
 */
module Lives {
  import opened Octets
  import opened Crypto
  import opened Identity
  import opened Sphinx
  import opened Onion
  import opened Cells
  import opened Fragments
  import opened Engine
  import opened Network
  import opened Replay
  import Construction

  /** The action hands node `at.0` a cell for its entry `at`. */
  predicate Reaches(sys: Sys, act: Action, at: Place) {
    && act.Arrive? && act.j < |sys.net.flight|
    && sys.net.flight[act.j].dst == at.0 && sys.net.flight[act.j].cell.cid == at.1
  }

  function EntryAt(sys: Sys, at: Place): CircuitEntry
    requires Holds(sys, at)
  {
    HopEntry(sys.net.nodes[at.0], at.1).value
  }

  lemma InstallsFresh(cs: Suite, s: NodeState, src: SocketAddr, cell: Cell)
    requires Installs(cs, s, cell)
    ensures var e := HopEntry(HandleCell(cs, s, src, cell).0, cell.cid);
            e.Some? && e.value.lastFwd == 0
  {
    hide Process, Reassembled, CreateCells;
  }

  lemma RemovesEntry(cs: Suite, s: NodeState, src: SocketAddr, cell: Cell)
    requires Removes(s, cell)
    ensures HopEntry(HandleCell(cs, s, src, cell).0, cell.cid).None?
  {
  }

  /**
   Over any cells at all: an entry goes if and only if a DESTROY for it is handled; its
   mark falls if and only if a CREATE completes under its id with a header the node
   accepts (and the mark was not zero); otherwise the entry keeps its keys and links and
   its mark does not fall.
   */
  lemma MarkFallsExactly(cs: Suite, sys: Sys, act: Action, at: Place)
    requires Holds(sys, at)
    ensures var sys', mark := Step(cs, sys, act), EntryAt(sys, at).lastFwd;
            && (!Holds(sys', at) <==> Reaches(sys, act, at) && sys.net.flight[act.j].cell.cmd.Destroy?)
            && (Holds(sys', at) && EntryAt(sys', at).lastFwd < mark <==>
                  Reaches(sys, act, at) && Installs(cs, sys.net.nodes[at.0], sys.net.flight[act.j].cell) && mark > 0)
            && (!Resets(cs, sys, act, at) ==>
                  Holds(sys', at) && EntryAt(sys', at) == Advance(EntryAt(sys, at), EntryAt(sys', at).lastFwd))
  {
    hide HandleCell, Accepted, Installs;
    if act.Arrive? && act.j < |sys.net.flight| {
      var m := sys.net.flight[act.j];
      if m.dst == at.0 {
        var s := sys.net.nodes[m.dst];
        if m.cell.cid != at.1 {
          OtherEntryKept(cs, s, m.src, m.cell, at.1);
        } else if Installs(cs, s, m.cell) {
          InstallsCreate(cs, s, m.cell);
          InstallsFresh(cs, s, m.src, m.cell);
        } else if m.cell.cmd.Destroy? {
          RemovesEntry(cs, s, m.src, m.cell);
        } else {
          CalmKeepsShape(cs, s, m.src, m.cell);
          AcceptMoves(cs, s, m.src, m.cell);
        }
      }
    } else {
      OnlyArrivalsCount(cs, sys, act);
    }
  }

  lemma InstallsCreate(cs: Suite, s: NodeState, cell: Cell)
    requires Installs(cs, s, cell)
    ensures cell.cmd.Create?
  {
  }

  // ---- replies ----

  ghost predicate IsTerminal(sys: Sys, at: Place) {
    Holds(sys, at) && EntryAt(sys, at).TerminalEntry?
  }

  /** The number under which the terminal `at` seals a reply on this action, if it does. */
  function SealedNow(cs: Suite, sys: Sys, act: Action, at: Place): seq<u32> {
    if !Reaches(sys, act, at) || at.0 !in sys.net.nodes then []
    else
      var m := sys.net.flight[act.j];
      if !m.cell.cmd.Relay? then []
      else
        var ps := HandleCell(cs, sys.net.nodes[at.0], m.src, m.cell).1;
        if ps == [] then []
        else
          var reply := ParseRelay(ps[0].cell.payload);
          if reply.Some? then [reply.value.seqNo] else []
  }

  function SealedBy(cs: Suite, sys: Sys, acts: seq<Action>, at: Place): seq<u32>
    decreases |acts|
  {
    if acts == [] then [] else SealedNow(cs, sys, acts[0], at) + SealedBy(cs, Step(cs, sys, acts[0]), acts[1..], at)
  }

  predicate Above(s: seq<u32>, mark: u32) {
    forall i :: 0 <= i < |s| ==> s[i] > mark
  }

  lemma SealsAccepted(cs: Suite, s: NodeState, src: SocketAddr, cell: Cell)
    requires cell.cmd.Relay? && cell.cid in s.circuits && s.circuits[cell.cid].TerminalEntry?
    ensures var ps := HandleCell(cs, s, src, cell).1;
            ps != [] ==> Accepted(cs, s, src, cell).Some? && ParseRelay(ps[0].cell.payload).Some?
                         && ParseRelay(ps[0].cell.payload).value.seqNo == Accepted(cs, s, src, cell).value
  {
    hide OpenFwd, SealBwd, RelayBytes, ParseRelay;
    var m := ParseRelay(cell.payload);
    if m.Some? && Accepts(cs, s.circuits[cell.cid], src, m.value) {
      var e := s.circuits[cell.cid];
      var inner := OpenFwd(cs, e.kFwd, e.tag, m.value.seqNo, m.value.onion).value;
      var reply := m.value.(onion := SealBwd(cs, e.kBwd, e.tag, m.value.seqNo, inner));
      ParseRelayExactly(RelayBytes(reply), reply);
    }
  }

  /** One action within a life: the terminal seals at most one number, above its mark, which becomes the mark. */
  lemma SealRaisesMark(cs: Suite, sys: Sys, act: Action, at: Place)
    requires IsTerminal(sys, at) && !Resets(cs, sys, act, at)
    ensures var sys', numbers := Step(cs, sys, act), SealedNow(cs, sys, act, at);
            && IsTerminal(sys', at)
            && var mark := EntryAt(sys', at).lastFwd;
               EntryAt(sys, at).lastFwd <= mark && (numbers != [] ==> numbers == [mark] && mark > EntryAt(sys, at).lastFwd)
  {
    hide HandleCell, Accepted, ParseRelay, Reshapes;
    MarkFallsExactly(cs, sys, act, at);
    if Reaches(sys, act, at) {
      NotReset(cs, sys, act, at);
    }
    if Reaches(sys, act, at) && sys.net.flight[act.j].cell.cmd.Relay? {
      var m := sys.net.flight[act.j];
      AcceptMoves(cs, sys.net.nodes[m.dst], m.src, m.cell);
      SealsAccepted(cs, sys.net.nodes[m.dst], m.src, m.cell);
    }
  }

  lemma NotReset(cs: Suite, sys: Sys, act: Action, at: Place)
    requires Holds(sys, at) && !Resets(cs, sys, act, at) && Reaches(sys, act, at)
    ensures !Reshapes(cs, sys.net.nodes[at.0], sys.net.flight[act.j].cell)
    ensures !Installs(cs, sys.net.nodes[at.0], sys.net.flight[act.j].cell)
  {
  }

  /** A CREATE completes under the id of the place. */
  predicate Reinstalls(cs: Suite, sys: Sys, act: Action, at: Place) {
    Reaches(sys, act, at) && at.0 in sys.net.nodes && Installs(cs, sys.net.nodes[at.0], sys.net.flight[act.j].cell)
  }

  predicate NotReinstalled(cs: Suite, sys: Sys, acts: seq<Action>, at: Place)
    decreases |acts|
  {
    acts == [] || (!Reinstalls(cs, sys, acts[0], at) && NotReinstalled(cs, Step(cs, sys, acts[0]), acts[1..], at))
  }

  predicate Gone(sys: Sys, at: Place) {
    at.0 in sys.net.nodes && at.1 !in sys.net.nodes[at.0].circuits
  }

  lemma SilentWithoutEntry(cs: Suite, s: NodeState, src: SocketAddr, cell: Cell)
    requires cell.cid !in s.circuits && !Installs(cs, s, cell)
    ensures var (s', ps) := HandleCell(cs, s, src, cell);
            cell.cid !in s'.circuits && (cell.cmd.Relay? ==> ps == [])
  {
    hide Process, Reassembled, CreateCells, ParseRelay;
  }

  /** Without an entry nothing is sealed, and none comes but by a CREATE. */
  lemma GoneStays(cs: Suite, sys: Sys, act: Action, at: Place)
    requires Gone(sys, at) && !Reinstalls(cs, sys, act, at)
    ensures Gone(Step(cs, sys, act), at) && SealedNow(cs, sys, act, at) == []
  {
    hide HandleCell, Accepted, Installs, ParseRelay;
    if act.Arrive? && act.j < |sys.net.flight| {
      var m := sys.net.flight[act.j];
      if m.dst == at.0 {
        if m.cell.cid == at.1 {
          SilentWithoutEntry(cs, sys.net.nodes[m.dst], m.src, m.cell);
        } else {
          OtherEntryKept(cs, sys.net.nodes[m.dst], m.src, m.cell, at.1);
        }
      }
    } else {
      OnlyArrivalsCount(cs, sys, act);
    }
  }

  lemma {:induction false} GoneSealsNothing(cs: Suite, sys: Sys, acts: seq<Action>, at: Place)
    requires Gone(sys, at) && NotReinstalled(cs, sys, acts, at)
    ensures SealedBy(cs, sys, acts, at) == []
    decreases |acts|
  {
    hide Step, SealedNow, Reinstalls, Gone;
    if acts != [] {
      GoneStays(cs, sys, acts[0], at);
      GoneSealsNothing(cs, Step(cs, sys, acts[0]), acts[1..], at);
    }
  }

  /** A terminal that is reset, but not by a CREATE, was destroyed: it is gone and has sealed nothing. */
  lemma DestroyedIsGone(cs: Suite, sys: Sys, act: Action, at: Place)
    requires IsTerminal(sys, at) && Resets(cs, sys, act, at) && !Reinstalls(cs, sys, act, at)
    ensures Gone(Step(cs, sys, act), at) && SealedNow(cs, sys, act, at) == []
  {
    hide Installs, Accepted;
  }

  /**
   No two replies under one number: over any schedule and any cells of any kind, forged
   ones and DESTROY included, in which no CREATE completes under the terminal's id, the
   numbers under which it seals replies strictly increase.
   */
  lemma {:induction false} TerminalSealsOnce(cs: Suite, sys: Sys, acts: seq<Action>, at: Place)
    requires IsTerminal(sys, at) && NotReinstalled(cs, sys, acts, at)
    ensures Increasing(SealedBy(cs, sys, acts, at))
    ensures Above(SealedBy(cs, sys, acts, at), EntryAt(sys, at).lastFwd)
    decreases |acts|
  {
    hide Step, SealedNow, Resets, Reinstalls, Gone;
    if acts != [] {
      if Resets(cs, sys, acts[0], at) {
        DestroyedIsGone(cs, sys, acts[0], at);
        GoneSealsNothing(cs, Step(cs, sys, acts[0]), acts[1..], at);
      } else {
        SealRaisesMark(cs, sys, acts[0], at);
        TerminalSealsOnce(cs, Step(cs, sys, acts[0]), acts[1..], at);
      }
    }
  }

  /**
   And no two nonces from one string: the strings whose hashes are the nonces of its replies
   are all different, and different from those of every cell it opens and every header layer.
   */
  lemma SealsFreshNonces(cs: Suite, sys: Sys, acts: seq<Action>, at: Place, tag: Bytes16, q: u32, n: byte)
    requires IsTerminal(sys, at) && NotReinstalled(cs, sys, acts, at)
    ensures var numbers := SealedBy(cs, sys, acts, at);
            && (forall i, j :: 0 <= i < j < |numbers| ==>
                  RelayNonceText(tag, DIR_BWD, numbers[i]) != RelayNonceText(tag, DIR_BWD, numbers[j]))
            && forall i :: 0 <= i < |numbers| ==>
                  && RelayNonceText(tag, DIR_BWD, numbers[i]) != RelayNonceText(tag, DIR_FWD, q)
                  && RelayNonceText(tag, DIR_BWD, numbers[i]) != HdrNonceText(tag, n)
  {
    hide SealedBy, IsTerminal, NotReinstalled, RelayNonceText, HdrNonceText;
    TerminalSealsOnce(cs, sys, acts, at);
    var numbers := SealedBy(cs, sys, acts, at);
    forall i, j | 0 <= i < j < |numbers|
      ensures RelayNonceText(tag, DIR_BWD, numbers[i]) != RelayNonceText(tag, DIR_BWD, numbers[j])
    {
      RelayNonceTexts(tag, DIR_BWD, numbers[i], tag, DIR_BWD, numbers[j]);
    }
    forall i | 0 <= i < |numbers|
      ensures RelayNonceText(tag, DIR_BWD, numbers[i]) != RelayNonceText(tag, DIR_FWD, q)
      ensures RelayNonceText(tag, DIR_BWD, numbers[i]) != HdrNonceText(tag, n)
    {
      RelayNonceTexts(tag, DIR_BWD, numbers[i], tag, DIR_FWD, q);
      HdrNonceTexts(tag, n, tag, n, DIR_BWD, numbers[i]);
    }
  }

  // ---- a new life ----

  /** The entry a terminal gets from the header meant for the last hop of a plan. */
  function FreshTerminal(cs: Suite, p: Plan, src: SocketAddr, cid: u32, last: u32): CircuitEntry
    requires p.Valid()
  {
    var keys := KeysAt(cs, p, |p.route| - 1);
    TerminalEntry(p.tag, keys.0, keys.1, HopLink(cid, src), last)
  }

  /** The one CREATE cell that carries it: a header for one hop is a single fragment. */
  function LastCreate(cs: Suite, p: Plan, cid: u32): Cell
    requires p.Valid()
  {
    Cell(cid, Create, 0, FragmentAt(HeaderAt(cs, p, |p.route| - 1), 0))
  }

  function EchoFor(cs: Suite, p: Plan, cid: u32, q: u32, stream: u16, msg: Bytes): Cell
    requires p.Valid()
  {
    RelayCell(cid, RelayMsg(q, RCmd.Echo, stream, SealedFwd(cs, [KeysAt(cs, p, |p.route| - 1).0], p.tag, q, msg)))
  }

  function ReplyFor(cs: Suite, p: Plan, cid: u32, q: u32, stream: u16, msg: Bytes): Cell
    requires p.Valid()
  {
    RelayCell(cid, RelayMsg(q, RCmd.Echo, stream, SealBwd(cs, KeysAt(cs, p, |p.route| - 1).1, p.tag, q, msg)))
  }

  lemma LastHeaderIsOneFragment(cs: Suite, p: Plan)
    requires p.Valid()
    ensures var h := HeaderAt(cs, p, |p.route| - 1);
            Total(h) == Chunks(|h|) == 1 && |h| <= MAX_FRAGMENTED
  {
    var t := |p.route| - 1;
    AssembledFront(1, p.tag, Sphinx.Slots(p.xs[t..], Acc(cs, p, t)), Blob(cs, p, t));
  }

  /** The CREATE installs the entry with its mark at zero, whatever was there before. */
  lemma CreateRestarts(cs: Suite, p: Plan, coins: seq<Bytes>, s: NodeState, src: SocketAddr, cid: u32)
    requires p.Valid() && Encapsulated(cs, p, coins) && Owns(cs, s.identity, p.route[|p.route| - 1])
    requires cid !in s.createFrags
    ensures Installs(cs, s, LastCreate(cs, p, cid))
    ensures HandleCell(cs, s, src, LastCreate(cs, p, cid))
            == (s.(circuits := s.circuits[cid := FreshTerminal(cs, p, src, cid, 0)]), [Packet(src, Signal(cid, Created))])
  {
    hide HeaderAt, KeysAt, Process, Reassembled, FragmentAt, Chunks, Encapsulated, Owns, HandleCell;
    var t := |p.route| - 1;
    var h := HeaderAt(cs, p, t);
    LastHeaderIsOneFragment(cs, p);
    PeelHop(cs, p, coins, s.identity, t);
    assert Idx(1) == {0};
    assert s.(createFrags := s.createFrags - {cid}) == s by {
      assert s.createFrags - {cid} == s.createFrags;
    }
    Construction.FeedCreate(cs, s, src, cid, h, {}, 0);
    ParseFragment(h, 0);
    FeedFragment(s.createFrags, cid, h, {}, 0);
  }

  lemma EchoAnswered(cs: Suite, p: Plan, s: NodeState, src: SocketAddr, cid: u32, last: u32, q: u32, stream: u16, msg: Bytes)
    requires p.Valid() && cid in s.circuits && s.circuits[cid] == FreshTerminal(cs, p, src, cid, last) && last < q
    ensures HandleCell(cs, s, src, EchoFor(cs, p, cid, q, stream, msg))
            == (s.(circuits := s.circuits[cid := FreshTerminal(cs, p, src, cid, q)]),
                [Packet(src, ReplyFor(cs, p, cid, q, stream, msg))])
    ensures ParseRelay(ReplyFor(cs, p, cid, q, stream, msg).payload).Some?
    ensures ParseRelay(ReplyFor(cs, p, cid, q, stream, msg).payload).value.seqNo == q
  {
    hide KeysAt, RelayBytes, ParseRelay, SealedFwd, SealBwd, OpenFwd;
    var keys := KeysAt(cs, p, |p.route| - 1);
    var m := RelayMsg(q, RCmd.Echo, stream, SealedFwd(cs, [keys.0], p.tag, q, msg));
    ParseRelayExactly(RelayBytes(m), m);
    var reply := m.(onion := SealBwd(cs, keys.1, p.tag, q, msg));
    ParseRelayExactly(RelayBytes(reply), reply);
    assert [keys.0][0..] == [keys.0];
    HopOpens(cs, [keys.0], 0, p.tag, q, msg);
    InnermostIsMessage(cs, [keys.0][1..], p.tag, q, msg);
  }

  lemma InnermostIsMessage(cs: Suite, none: seq<Bytes32>, tag: Bytes16, q: u32, msg: Bytes)
    requires none == []
    ensures SealedFwd(cs, none, tag, q, msg) == msg
  {
  }

  lemma CellKinds(cs: Suite, p: Plan, cid: u32, q: u32, stream: u16, msg: Bytes)
    requires p.Valid() && |msg| <= MSG_MAX
    ensures EchoFor(cs, p, cid, q, stream, msg).cmd.Relay? && EchoFor(cs, p, cid, q, stream, msg).cid == cid
    ensures LastCreate(cs, p, cid).cmd.Create? && LastCreate(cs, p, cid).cid == cid
    ensures Fits(ReplyFor(cs, p, cid, q, stream, msg)) && Fits(Signal(cid, Created))
  {
  }

  lemma FirstArrives(cs: Suite, sys: Sys, s': NodeState, rest: seq<Msg>, posted: seq<Msg>)
    requires sys.net.flight != [] && sys.net.flight[1..] == rest && sys.net.flight[0].dst in sys.net.nodes
    requires var m := sys.net.flight[0];
             var (after, ps) := HandleCell(cs, sys.net.nodes[m.dst], m.src, m.cell);
             after == s' && Posted(m.dst, ps) == posted
    ensures var m := sys.net.flight[0];
            Step(cs, sys, Arrive(0)).net == Net(sys.net.nodes[m.dst := s'], rest + posted)
  {
    hide HandleCell, Accepted;
    assert Without(sys.net.flight, 0) == rest;
  }

  lemma SealedThrice(cs: Suite, sys: Sys, at: Place)
    ensures var one := Step(cs, sys, Arrive(0));
            var two := Step(cs, one, Arrive(0));
            var act := Arrive(0);
            && SealedBy(cs, sys, [act, act, act], at)
               == SealedNow(cs, sys, act, at) + SealedNow(cs, one, act, at) + SealedNow(cs, two, act, at)
            && Run(cs, sys, [act, act, act]) == Step(cs, two, act)
  {
    hide Step, SealedNow;
    var act := Arrive(0);
    var one := Step(cs, sys, act);
    var two := Step(cs, one, act);
    assert [act, act, act][1..] == [act, act] && [act, act][1..] == [act] && [act][1..] == [];
    assert SealedBy(cs, two, [act], at) == SealedNow(cs, two, act, at) + [];
    assert SealedBy(cs, one, [act, act], at) == SealedNow(cs, one, act, at) + SealedBy(cs, two, [act], at);
    assert Run(cs, one, [act, act]) == Run(cs, two, [act]) == Step(cs, two, act);
  }

  /** One cell between two copies of another, on their way from `src` to the node `me`. */
  function Around(s: NodeState, me: SocketAddr, src: SocketAddr, outer: Cell, inner: Cell): Sys {
    Sys(Net(map[me := s], [Msg(src, me, outer), Msg(src, me, inner), Msg(src, me, outer)]), map[])
  }

  /** If `inner` undoes what `outer` does to the node, the node answers `outer` twice alike. */
  lemma AnsweredTwice(cs: Suite, s: NodeState, s1: NodeState, me: SocketAddr, src: SocketAddr,
                      outer: Cell, inner: Cell, reply: Cell, other: Cell, q: u32)
    requires HandleCell(cs, s, src, outer) == (s1, [Packet(src, reply)]) && Fits(reply)
    requires HandleCell(cs, s1, src, inner) == (s, [Packet(src, other)]) && Fits(other)
    requires outer.cmd.Relay? && !inner.cmd.Relay? && inner.cid == outer.cid
    requires ParseRelay(reply.payload).Some? && ParseRelay(reply.payload).value.seqNo == q
    ensures var sys, thrice := Around(s, me, src, outer, inner), [Arrive(0), Arrive(0), Arrive(0)];
            && SealedBy(cs, sys, thrice, (me, outer.cid)) == [q, q]
            && Run(cs, sys, thrice).net.flight == [Msg(me, src, reply), Msg(me, src, other), Msg(me, src, reply)]
  {
    hide HandleCell, ParseRelay, Accepted;
    PostedOne(me, Packet(src, reply));
    PostedOne(me, Packet(src, other));
    var sys := Around(s, me, src, outer, inner);
    var a, b := Msg(src, me, outer), Msg(src, me, inner);
    var r, d := Msg(me, src, reply), Msg(me, src, other);
    FirstArrives(cs, sys, s1, [b, a], [r]);
    var one := Step(cs, sys, Arrive(0));
    FirstArrives(cs, one, s, [a, r], [d]);
    var two := Step(cs, one, Arrive(0));
    FirstArrives(cs, two, s1, [r, d], [r]);
    SealedThrice(cs, sys, (me, outer.cid));
  }

  /**
   Across lives it fails, for every header and every message: let the CREATE that made a
   terminal arrive a second time, and the terminal seals the reply to a repeated ECHO
   again, under the same key and number.
   */
  lemma RepeatedCreateReseals(cs: Suite, p: Plan, coins: seq<Bytes>, s: NodeState, me: SocketAddr, src: SocketAddr,
                              cid: u32, q: u32, stream: u16, msg: Bytes)
    requires p.Valid() && Encapsulated(cs, p, coins) && Owns(cs, s.identity, p.route[|p.route| - 1])
    requires cid !in s.createFrags && cid in s.circuits && s.circuits[cid] == FreshTerminal(cs, p, src, cid, 0)
    requires q > 0 && |msg| <= MSG_MAX
    ensures var sys := Around(s, me, src, EchoFor(cs, p, cid, q, stream, msg), LastCreate(cs, p, cid));
            var thrice := [Arrive(0), Arrive(0), Arrive(0)];
            var reply := Msg(me, src, ReplyFor(cs, p, cid, q, stream, msg));
            && SealedBy(cs, sys, thrice, (me, cid)) == [q, q]
            && Run(cs, sys, thrice).net.flight == [reply, Msg(me, src, Signal(cid, Created)), reply]
  {
    hide HandleCell, LastCreate, EchoFor, ReplyFor, FreshTerminal, ParseRelay, Around, SealedBy, Run, Encapsulated, Owns;
    var s1 := s.(circuits := s.circuits[cid := FreshTerminal(cs, p, src, cid, q)]);
    CellKinds(cs, p, cid, q, stream, msg);
    EchoAnswered(cs, p, s, src, cid, 0, q, stream, msg);
    CreateRestarts(cs, p, coins, s1, src, cid);
    assert s1.(circuits := s1.circuits[cid := FreshTerminal(cs, p, src, cid, 0)]) == s by {
      assert s1.circuits[cid := FreshTerminal(cs, p, src, cid, 0)] == s.circuits;
    }
    AnsweredTwice(cs, s, s1, me, src, EchoFor(cs, p, cid, q, stream, msg), LastCreate(cs, p, cid),
                  ReplyFor(cs, p, cid, q, stream, msg), Signal(cid, Created), q);
  }
}
