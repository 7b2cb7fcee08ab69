/**
 A DHT node: its routing table and descriptor store, what it does with a datagram, and
 the lookups it runs. What its store can hold and what lookups through such nodes return
 is in Agreement.
 */
module Dht {
  import opened Wrappers
  import opened Octets
  import opened Crypto
  import opened Identity
  import opened Rpc
  import opened Metric
  import opened Table
  import opened Lookup

  datatype DhtState = DhtState(own: Contact, rt: seq<Contact>, store: map<NodeId, Descriptor>)

  /** The reply a datagram gets; a message that cannot be encoded makes the handler panic, which sends nothing. */
  function Wire(m: RpcMsg): Option<Bytes> {
    if Encodable(m) then Some(Encoded(m)) else None
  }

  function Stored(s: DhtState, d: Descriptor): DhtState {
    s.(store := s.store[d.nodeId := d], rt := Merged(s.own.nodeId, s.rt, [FromDesc(d)]))
  }

  function FoundFor(s: DhtState, key: NodeId, want: bool): RpcMsg {
    Found(Closest(s.rt, key, K), if want && key in s.store then Some(s.store[key]) else None)
  }

  /** The specification of `handle`. */
  function Handled(cs: Suite, s: DhtState, data: Bytes): (DhtState, Option<Bytes>) {
    var m := Decoded(cs, data);
    if m.Err? then (s, None)
    else
      match m.value
      case Ping(nonce) => (s, Wire(Pong(nonce)))
      case Store(d) => (Stored(s, d), None)
      case Find(key, want) => (s, Wire(FoundFor(s, key, want)))
      case Found(_, _) => (s, None)
      case Pong(_) => (s, None)
  }

  class Kademlia {
    const cs: Suite
    const id: NodeId
    const ownDesc: Descriptor
    var rt: seq<Contact>
    var store: map<NodeId, Descriptor>

    ghost function View(): DhtState
      reads this
    {
      DhtState(FromDesc(ownDesc), rt, store)
    }

    constructor (cs: Suite, ownDesc: Descriptor)
      ensures this.cs == cs && this.ownDesc == ownDesc && id == ownDesc.nodeId
      ensures View() == DhtState(FromDesc(ownDesc), [FromDesc(ownDesc)], map[])
    {
      this.cs, this.id, this.ownDesc := cs, ownDesc.nodeId, ownDesc;
      rt, store := [FromDesc(ownDesc)], map[];
    }

    /** In a well-formed table: min(k, size) contacts, nearest first, everyone left out strictly farther. */
    method ClosestTo(key: NodeId, k: nat) returns (near: seq<Contact>)
      ensures near == Closest(rt, key, k)
      ensures TableOk(FromDesc(ownDesc), rt) ==>
                && |near| == (if k < |rt| then k else |rt|)
                && Ranked(key, near) && (forall c :: c in near ==> c in rt)
                && (forall c, d :: c in near && d in rt && d !in near ==> Rank(key, c.nodeId) < Rank(key, d.nodeId))
    {
      near := SortBy(key, rt);
      if k < |near| {
        near := near[..k];
      }
      if TableOk(FromDesc(ownDesc), rt) {
        ClosestIsNearest(FromDesc(ownDesc), rt, key, k);
      }
    }

    method TryMerge(contacts: seq<Contact>)
      modifies this`rt
      ensures rt == Merged(id, old(rt), contacts)
    {
      for i := 0 to |contacts|
        invariant rt == Pushed(id, old(rt), contacts[..i])
      {
        var c := contacts[i];
        assert contacts[..i + 1][..i] == contacts[..i];
        if c.nodeId != id && !Known(rt, c.nodeId) {
          rt := rt + [c];
        }
      }
      assert contacts[..|contacts|] == contacts;
      rt := SortBy(id, rt);
      if |rt| > TABLE_MAX {
        rt := rt[..TABLE_MAX];
      }
    }

    method Handle(data: Bytes) returns (reply: Option<Bytes>)
      requires id == ownDesc.nodeId
      modifies this
      ensures (View(), reply) == Handled(cs, old(View()), data)
    {
      hide Decoded, Merged, Closest, Encoded;
      var m := RpcDecode(cs, data);
      if m.Err? {
        return None;
      }
      match m.value {
        case Ping(nonce) =>
          reply := Send(Pong(nonce));
        case Store(d) =>
          store := store[d.nodeId := d];
          TryMerge([FromDesc(d)]);
          return None;
        case Find(key, want) =>
          var near := ClosestTo(key, K);
          var val := if want && key in store then Some(store[key]) else None;
          reply := Send(Found(near, val));
        case Found(_, _) =>
          return None;
        case Pong(_) =>
          return None;
      }
    }

    /** One round of `lookup`: ask everyone in the batch until a value turns up. */
    method AskRound(key: NodeId, want: bool, net: Responders, batch: seq<Contact>, queried: seq<NodeId>, ghost asked: seq<Contact>)
      returns (value: Option<Descriptor>, queried': seq<NodeId>, ghost asked': seq<Contact>)
      requires IdsInOrder(queried, asked)
      modifies this`rt
      ensures IdsInOrder(queried', asked')
      ensures Progress(rt, asked', value) == AskAll(id, want, net, batch, old(rt), asked)
    {
      hide Merged;
      queried', asked' := queried, asked;
      for i := 0 to |batch|
        invariant IdsInOrder(queried', asked')
        invariant AskAll(id, want, net, batch[i..], rt, asked') == AskAll(id, want, net, batch, old(rt), asked)
      {
        var c := batch[i];
        assert batch[i..][1..] == batch[i + 1..];
        var answer := net(|queried'|, c);
        queried', asked' := queried' + [c.nodeId], asked' + [c];
        if answer.Some? {
          if want && answer.value.value.Some? {
            return answer.value.value, queried', asked';
          }
          TryMerge(answer.value.contacts);
        }
      }
      assert batch[|batch|..] == [];
      return None, queried', asked';
    }

    /** `lookup`, against responders that may answer anything. */
    method Lookup(key: NodeId, want: bool, net: Responders) returns (r: Option<Descriptor>, ghost asked: seq<Contact>)
      modifies this`rt
      ensures Progress(rt, asked, r) == Looked(id, key, want, net, old(rt))
    {
      hide Closest, Merged, AskAll, Unasked, NoBetter, Unqueried;
      var seen := ClosestTo(key, K);
      var queried: seq<NodeId> := [];
      asked := [];
      while true
        invariant IdsInOrder(queried, asked)
        invariant Search(id, key, want, net, rt, seen, asked) == Looked(id, key, want, net, old(rt))
        decreases Unqueried(asked)
      {
        var batch := NotQueried(seen, queried, asked);
        if |batch| > ALPHA {
          batch := batch[..ALPHA];
        }
        if batch == [] {
          return None, asked;
        }
        RoundShrinks(id, want, net, seen, rt, asked);
        r, queried, asked := AskRound(key, want, net, batch, queried, asked);
        if r.Some? {
          return r, asked;
        }
        var next := ClosestTo(key, K);
        if NoBetter(next, seen) {
          return None, asked;
        }
        seen := next;
      }
    }

    /** `filter(|c| !queried.contains(&c.node_id))` over the contacts seen. */
    static method NotQueried(seen: seq<Contact>, queried: seq<NodeId>, ghost asked: seq<Contact>) returns (batch: seq<Contact>)
      requires IdsInOrder(queried, asked)
      ensures batch == Unasked(seen, asked)
    {
      batch := [];
      for i := |seen| downto 0
        invariant batch == Unasked(seen[i..], asked)
      {
        assert seen[i..][1..] == seen[i + 1..];
        assert Known(asked, seen[i].nodeId) <==> seen[i].nodeId in queried;
        if seen[i].nodeId !in queried {
          batch := [seen[i]] + batch;
        }
      }
      assert seen[0..] == seen;
    }
  }

  /** `queried` as the source keeps it, next to the contacts behind the ids. */
  ghost predicate IdsInOrder(queried: seq<NodeId>, asked: seq<Contact>) {
    |queried| == |asked| && forall i :: 0 <= i < |asked| ==> queried[i] == asked[i].nodeId
  }

  method Send(m: RpcMsg) returns (reply: Option<Bytes>)
    ensures reply == Wire(m)
  {
    if !Encodable(m) {
      return None;
    }
    var b := RpcEncode(m);
    return Some(b);
  }
}
