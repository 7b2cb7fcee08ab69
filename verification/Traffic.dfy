/**
 Traffic of many circuits in one network. A scope picks out one circuit's cells: those for
 certain nodes, under certain circuit ids at each of them. All other cells, and whatever
 else the nodes do, are other circuits' business.
 */
module Traffic {
  import opened Octets
  import opened Crypto
  import opened Identity
  import opened Engine
  import opened Network
  import Ids

  type Scope = set<(SocketAddr, u32)>

  predicate Ours(x: Scope, m: Msg) {
    (m.dst, m.cell.cid) in x
  }

  predicate AllOurs(x: Scope, ms: seq<Msg>) {
    forall k :: 0 <= k < |ms| ==> Ours(x, ms[k])
  }

  predicate NoneOurs(x: Scope, ms: seq<Msg>) {
    forall k :: 0 <= k < |ms| ==> !Ours(x, ms[k])
  }

  /** The cells in scope, in their order. */
  function Mine(x: Scope, flight: seq<Msg>): seq<Msg> {
    if flight == [] then [] else (if Ours(x, flight[0]) then [flight[0]] else []) + Mine(x, flight[1..])
  }

  lemma {:induction false} MineAppend(x: Scope, a: seq<Msg>, b: seq<Msg>)
    ensures Mine(x, a + b) == Mine(x, a) + Mine(x, b)
  {
    if a == [] {
      assert a + b == b;
    } else {
      assert (a + b)[1..] == a[1..] + b;
      MineAppend(x, a[1..], b);
      Regroup(if Ours(x, a[0]) then [a[0]] else [], Mine(x, a[1..]), Mine(x, b));
    }
  }

  lemma {:induction false} MineAll(x: Scope, a: seq<Msg>)
    requires AllOurs(x, a)
    ensures Mine(x, a) == a
  {
    if a != [] {
      MineAll(x, a[1..]);
    }
  }

  lemma {:induction false} MineNone(x: Scope, a: seq<Msg>)
    requires NoneOurs(x, a)
    ensures Mine(x, a) == []
  {
    if a != [] {
      MineNone(x, a[1..]);
    }
  }

  lemma MineCons(x: Scope, m: Msg, back: seq<Msg>)
    ensures Mine(x, [m] + back) == (if Ours(x, m) then [m] else []) + Mine(x, back)
  {
    assert ([m] + back)[1..] == back;
  }

  lemma TakenOut<T>(a: seq<T>, m: T, b: seq<T>)
    ensures (a + ([m] + b))[|a|] == m && Without(a + ([m] + b), |a|) == a + b
  {
  }

  /** Where cell h, if it is ours, is among ours. */
  function Rank(x: Scope, flight: seq<Msg>, h: nat): nat
    requires h < |flight|
  {
    |Mine(x, flight[..h])|
  }

  lemma MineTake(x: Scope, flight: seq<Msg>, h: nat)
    requires h < |flight|
    ensures var k, mine := Rank(x, flight, h), Mine(x, flight);
            if Ours(x, flight[h]) then k < |mine| && mine[k] == flight[h] && Mine(x, Without(flight, h)) == Without(mine, k)
            else Mine(x, Without(flight, h)) == mine
  {
    hide Mine, Ours;
    var front, m, back := flight[..h], flight[h], flight[h + 1..];
    assert flight == front + ([m] + back) && |front| == h;
    TakenOut(front, m, back);
    TakenOut(Mine(x, front), m, Mine(x, back));
    MineCons(x, m, back);
    MineAppend(x, front, [m] + back);
    MineAppend(x, front, back);
    assert [] + Mine(x, back) == Mine(x, back);
  }

  lemma {:induction false} PostedOurs(x: Scope, src: SocketAddr, ps: seq<Packet>)
    requires forall p :: p in ps ==> (p.dst, p.cell.cid) in x
    ensures AllOurs(x, Posted(src, ps))
  {
    if ps != [] {
      PostedOurs(x, src, ps[1..]);
    }
  }

  // ---- moves ----

  /** Any cell arrives, is lost or appears; or something happens at a node. */
  datatype Move =
    | Arrive(h: nat)
    | Lose(h: nat)
    | Invent(m: Msg)
    | Operate(at: SocketAddr, event: Ids.Event)

  /** What the receiver of a cell puts in flight. */
  function HandedOn(cs: Suite, net: Net, m: Msg): seq<Msg> {
    if m.dst in net.nodes then Posted(m.dst, HandleCell(cs, net.nodes[m.dst], m.src, m.cell).1) else []
  }

  function Operated(cs: Suite, net: Net, at: SocketAddr, event: Ids.Event): Net {
    if at !in net.nodes then net
    else
      var (s', ps) := Ids.Effect(cs, net.nodes[at], event);
      Net(net.nodes[at := s'], net.flight + Posted(at, ps))
  }

  function Moved(cs: Suite, net: Net, v: Move): (r: Net)
    ensures r.nodes.Keys == net.nodes.Keys
  {
    match v
    case Arrive(h) => if h < |net.flight| then Deliver(cs, net, h) else net
    case Lose(h) => if h < |net.flight| then Net(net.nodes, Without(net.flight, h)) else net
    case Invent(m) => Net(net.nodes, net.flight + [m])
    case Operate(at, event) => Operated(cs, net, at, event)
  }

  /** Our cells are not lost, and nobody else sends to our nodes under our ids. */
  predicate Apart(cs: Suite, x: Scope, net: Net, v: Move) {
    match v
    case Arrive(h) =>
      h < |net.flight| && !Ours(x, net.flight[h]) ==> NoneOurs(x, HandedOn(cs, net, net.flight[h]))
    case Lose(h) => h < |net.flight| ==> !Ours(x, net.flight[h])
    case Invent(m) => !Ours(x, m)
    case Operate(at, event) =>
      at in net.nodes ==> NoneOurs(x, Posted(at, Ids.Effect(cs, net.nodes[at], event).1))
  }

  /** The move hands one of our cells to its receiver. */
  predicate Delivers(x: Scope, net: Net, v: Move) {
    v.Arrive? && v.h < |net.flight| && Ours(x, net.flight[v.h])
  }

  /** All other moves leave our cells in flight as they are. */
  lemma OthersPass(cs: Suite, x: Scope, net: Net, v: Move)
    requires Apart(cs, x, net, v) && !Delivers(x, net, v)
    ensures Mine(x, Moved(cs, net, v).flight) == Mine(x, net.flight)
  {
    hide Mine, Ours, HandleCell, Ids.Effect;
    assert Mine(x, net.flight) + [] == Mine(x, net.flight);
    match v {
      case Arrive(h) =>
        if h < |net.flight| {
          var ms := HandedOn(cs, net, net.flight[h]);
          MineTake(x, net.flight, h);
          MineNone(x, ms);
          MineAppend(x, Without(net.flight, h), ms);
          assert Without(net.flight, h) + [] == Without(net.flight, h);
        }
      case Lose(h) =>
        if h < |net.flight| {
          MineTake(x, net.flight, h);
        }
      case Invent(m) =>
        MineNone(x, [m]);
        MineAppend(x, net.flight, [m]);
      case Operate(at, event) =>
        if at in net.nodes {
          var ms := Posted(at, Ids.Effect(cs, net.nodes[at], event).1);
          MineNone(x, ms);
          MineAppend(x, net.flight, ms);
        }
    }
  }
}
