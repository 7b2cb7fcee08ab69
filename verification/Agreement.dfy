/**
 Agreement across nodes: what a store holds under a key is an authentic descriptor of that
 key, every datagram keeps it so, hence an honest node answers FIND with the descriptor
 asked for or with none, and lookups and route lookups through honest nodes return and
 cache nothing else. The lookup itself checks no ids: through one dishonest
 responder it hands out, and the cache keeps, whatever descriptor it is given.
 */
module Agreement {
  import opened Wrappers
  import opened Octets
  import opened Crypto
  import opened Identity
  import opened Rpc
  import opened Metric
  import opened Table
  import opened Lookup
  import opened Dht
  import Cells

  /** Everything stored is authentic and stored under its own node id. */
  predicate StoreOk(cs: Suite, store: map<NodeId, Descriptor>) {
    forall k :: k in store ==> store[k].nodeId == k && Authentic(cs, store[k])
  }

  ghost predicate NodeOk(cs: Suite, s: DhtState) {
    TableOk(s.own, s.rt) && StoreOk(cs, s.store)
  }

  /** A node starts with its own contact and its own signed descriptor. */
  lemma SpawnOk(cs: Suite, id: NodeIdentity, cellAddr: SocketAddr, dhtPort: u16, now: u64)
    requires cellAddr.V4?
    ensures var d := Sign(cs, id, cellAddr, dhtPort, now);
            d.Some? && NodeOk(cs, DhtState(FromDesc(d.value), [FromDesc(d.value)], map[NodeIdOf(cs, id) := d.value]))
  {
    hide Rank;
    SignedIsAuthentic(cs, id, cellAddr, dhtPort, now);
  }

  /** Any datagram at all, from anybody, leaves a good node good. */
  lemma DatagramKeeps(cs: Suite, s: DhtState, data: Bytes)
    requires NodeOk(cs, s)
    ensures NodeOk(cs, Handled(cs, s, data).0) && Handled(cs, s, data).0.own == s.own
  {
    hide Decoded, Merged, TableOk, Authentic;
    var m := Decoded(cs, data);
    if m.Ok? && m.value.Store? {
      DecodedExactly(cs, data, m.value);
      MergeKeepsNearest(s.own, s.rt, [FromDesc(m.value.desc)]);
    }
  }

  function HandledAll(cs: Suite, s: DhtState, datagrams: seq<Bytes>): DhtState
    decreases |datagrams|
  {
    if datagrams == [] then s else HandledAll(cs, Handled(cs, s, datagrams[0]).0, datagrams[1..])
  }

  lemma {:induction false} DatagramsKeep(cs: Suite, s: DhtState, datagrams: seq<Bytes>)
    requires NodeOk(cs, s)
    ensures NodeOk(cs, HandledAll(cs, s, datagrams))
    decreases |datagrams|
  {
    hide Handled;
    if datagrams != [] {
      DatagramKeeps(cs, s, datagrams[0]);
      DatagramsKeep(cs, Handled(cs, s, datagrams[0]).0, datagrams[1..]);
    }
  }

  /** The reply a requester gets out of a FIND sent to node `s`: encoded, handled, answered, decoded. */
  function AnswerOf(cs: Suite, s: DhtState, key: NodeId, want: bool): Option<Reply> {
    var out := Handled(cs, s, Encoded(Find(key, want))).1;
    if out.None? then None
    else
      var m := Decoded(cs, out.value);
      if m.Ok? && m.value.Found? then Some(Reply(m.value.contacts, m.value.value)) else None
  }

  /** Both directions of the wire work out: the requester sees the node's closest contacts and its stored value. */
  lemma AnswerIsOwn(cs: Suite, s: DhtState, key: NodeId, want: bool)
    requires NodeOk(cs, s)
    ensures AnswerOf(cs, s, key, want)
            == Some(Reply(Closest(s.rt, key, K), if want && key in s.store then Some(s.store[key]) else None))
  {
    hide Decoded, Encoded, Closest, TableOk;
    RoundTrip(cs, Find(key, want));
    ClosestIsNearest(s.own, s.rt, key, K);
    RoundTrip(cs, FoundFor(s, key, want));
  }

  /** A descriptor stored by datagram is what the node then answers for its id; answers for other keys keep their values. */
  lemma StoredIsFound(cs: Suite, s: DhtState, d: Descriptor, key: NodeId)
    requires NodeOk(cs, s) && Authentic(cs, d)
    ensures var s' := Handled(cs, s, Encoded(Store(d))).0;
            var before, after := AnswerOf(cs, s, key, true), AnswerOf(cs, s', key, true);
            && before.Some? && after.Some?
            && after.value.value == (if key == d.nodeId then Some(d) else before.value.value)
  {
    hide Decoded, Encoded, Closest, TableOk, AnswerOf, SigningBytes, NodeIdFromEdPub;
    RoundTrip(cs, Store(d));
    DatagramKeeps(cs, s, Encoded(Store(d)));
    AnswerIsOwn(cs, s, key, true);
    AnswerIsOwn(cs, Stored(s, d), key, true);
  }

  /**
   A descriptor stored by datagram teaches the table too: it then holds the 64 ids nearest to
   the node of those it held and the descriptor's, and if that one is new, under the address
   and port the descriptor gives. The store holds it under its id, and nothing is answered.
   */
  lemma StoreTeaches(cs: Suite, s: DhtState, d: Descriptor)
    requires NodeOk(cs, s) && Authentic(cs, d)
    ensures var (s', reply) := Handled(cs, s, Encoded(Store(d)));
            && reply == None && s'.own == s.own && s'.store == s.store[d.nodeId := d]
            && Ids(s'.rt) == Nearest(s.own.nodeId, Ids(s.rt) + {d.nodeId}, 64)
            && forall c :: c in s'.rt && c !in s.rt ==> c == Contact(d.nodeId, d.cellAddr.ip, d.dhtPort)
  {
    hide Decoded, Encoded, Nearest, SigningBytes, NodeIdFromEdPub, TableOk, Merged;
    RoundTrip(cs, Store(d));
    var c := FromDesc(d);
    MergeKeepsNearest(s.own, s.rt, [c]);
    MergedFirst(s.own, s.rt, [c]);
    assert Ids([c]) == {c.nodeId} by {
      assert c in [c];
    }
    forall x | x in Merged(s.own.nodeId, s.rt, [c]) && x !in s.rt
      ensures x == c
    {
      assert x in s.rt + [c];
    }
  }

  /** A PING is answered with a PONG of the same number, and changes nothing. */
  lemma PingIsAnswered(cs: Suite, s: DhtState, nonce: u64)
    ensures Handled(cs, s, Encoded(Ping(nonce))) == (s, Some(Encoded(Pong(nonce))))
    ensures Decoded(cs, Encoded(Pong(nonce))) == Ok(Pong(nonce))
  {
    hide Decoded, Encoded;
    RoundTrip(cs, Ping(nonce));
    RoundTrip(cs, Pong(nonce));
  }

  /**
   Nothing but a STORE of an authentic descriptor changes a node, and nothing but a PING or a
   FIND is answered: replies nobody waits for and bytes that spell no message do neither.
   */
  lemma OnlyStoreChanges(cs: Suite, s: DhtState, data: Bytes)
    ensures var (s', reply) := Handled(cs, s, data);
            && (s' != s ==> exists d :: Authentic(cs, d) && data == Encoded(Store(d)))
            && (reply.Some? ==> exists m: RpcMsg :: (m.Ping? || m.Find?) && Spells(data, m))
  {
    hide Decoded, Spells, Authentic, Merged, Closest;
    var m := Decoded(cs, data);
    if m.Ok? {
      DecodedExactly(cs, data, m.value);
      if m.value.Store? {
        StoreSpelled(cs, data, m.value.desc);
      }
    }
  }

  lemma StoreSpelled(cs: Suite, data: Bytes, d: Descriptor)
    requires Authentic(cs, d) && Spells(data, Store(d))
    ensures data == Encoded(Store(d))
  {
  }

  /** Every answer is none, or that of some good node at the time it was asked. */
  ghost predicate Honest(cs: Suite, key: NodeId, want: bool, net: Responders) {
    forall i, c :: net(i, c) == None || exists s :: NodeOk(cs, s) && net(i, c) == AnswerOf(cs, s, key, want)
  }

  /** A value that was asked for under `key` is an authentic descriptor of `key`. */
  predicate Matches(cs: Suite, key: NodeId, v: Option<Descriptor>) {
    v.Some? ==> v.value.nodeId == key && Authentic(cs, v.value)
  }

  /** Through honest responders a lookup finds the descriptor of the key, or nothing. */
  lemma LookupAgrees(cs: Suite, own: Contact, key: NodeId, want: bool, net: Responders, rt: seq<Contact>)
    requires TableOk(own, rt) && Honest(cs, key, want, net)
    ensures Matches(cs, key, Looked(own.nodeId, key, want, net, rt).value)
  {
    hide Looked, AnswerOf, TableOk, Authentic, Closest, Nearest;
    LookupConverges(own, key, want, net, rt);
    var p := Looked(own.nodeId, key, want, net, rt);
    if p.value.Some? {
      var n := |p.asked| - 1;
      var s :| NodeOk(cs, s) && net(n, p.asked[n]) == AnswerOf(cs, s, key, want);
      AnswerIsOwn(cs, s, key, want);
    }
  }

  // ---- route lookups ----

  /** The part of a node that `lookup_route` works on. */
  datatype RouteState = RouteState(dht: DhtState, cache: map<NodeId, Descriptor>)

  /** The specification of `lookup_route`: cache, then store, then the network. */
  function Routed(s: RouteState, target: NodeId, net: Responders): (RouteState, Result<Descriptor, Cells.NetError>) {
    if target in s.cache then (s, Ok(s.cache[target]))
    else if target in s.dht.store then
      (s.(cache := s.cache[target := s.dht.store[target]]), Ok(s.dht.store[target]))
    else
      var p := Looked(s.dht.own.nodeId, target, true, net, s.dht.rt);
      var dht := s.dht.(rt := p.rt);
      if p.value.Some? then (RouteState(dht, s.cache[target := p.value.value]), Ok(p.value.value))
      else (RouteState(dht, s.cache), Err(Cells.Timeout))
  }

  ghost predicate RouterOk(cs: Suite, s: RouteState) {
    NodeOk(cs, s.dht) && StoreOk(cs, s.cache)
  }

  /** `lookup_route` as the node runs it. */
  class Router {
    const dht: Kademlia
    var dhtCache: map<NodeId, Descriptor>

    ghost function View(): RouteState
      reads this, dht
    {
      RouteState(dht.View(), dhtCache)
    }

    constructor (dht: Kademlia)
      ensures this.dht == dht && dhtCache == map[]
    {
      this.dht, dhtCache := dht, map[];
    }

    method LookupRoute(target: NodeId, net: Responders) returns (r: Result<Descriptor, Cells.NetError>)
      requires dht.id == dht.ownDesc.nodeId
      modifies this, dht
      ensures (View(), r) == Routed(old(View()), target, net)
    {
      hide Looked;
      if target in dhtCache {
        return Ok(dhtCache[target]);
      }
      if target in dht.store {
        dhtCache := dhtCache[target := dht.store[target]];
        return Ok(dht.store[target]);
      }
      var found, _ := dht.Lookup(target, true, net);
      if found.None? {
        return Err(Cells.Timeout);
      }
      dhtCache := dhtCache[target := found.value];
      return Ok(found.value);
    }
  }

  /** Route lookups through honest responders return, and cache, only the descriptor of the target. */
  lemma RouteAgrees(cs: Suite, s: RouteState, target: NodeId, net: Responders)
    requires RouterOk(cs, s) && Honest(cs, target, true, net)
    ensures var (s', r) := Routed(s, target, net);
            && RouterOk(cs, s')
            && (r.Ok? ==> r.value.nodeId == target && Authentic(cs, r.value))
            && s'.dht.store == s.dht.store
            && (forall k :: k in s'.cache && k != target ==> k in s.cache && s'.cache[k] == s.cache[k])
  {
    hide Looked, AnswerOf, TableOk, Authentic, Closest, Nearest, Honest;
    LookupAgrees(cs, s.dht.own, target, true, net, s.dht.rt);
    LookupConverges(s.dht.own, target, true, net, s.dht.rt);
  }

  /**
   What a route lookup finds: the cached descriptor, if there is one; else the stored one,
   which is cached and for which nobody is asked; else what the lookup through the network
   finds, which is cached; or nothing. What is found is found again, whoever answers then.
   */
  lemma RouteExactly(s: RouteState, target: NodeId, net: Responders, other: Responders)
    ensures var (s', r) := Routed(s, target, net);
            var found := Looked(s.dht.own.nodeId, target, true, net, s.dht.rt);
            && (target in s.cache ==> r == Ok(s.cache[target]) && s' == s)
            && (target !in s.cache && target in s.dht.store ==>
                  && r == Ok(s.dht.store[target])
                  && s'.dht == s.dht && s'.cache == s.cache[target := s.dht.store[target]]
                  && Routed(s, target, other) == (s', r))
            && (target !in s.cache && target !in s.dht.store ==>
                  && (r.Ok? <==> found.value.Some?) && (r.Err? ==> r.error == Cells.Timeout && s'.cache == s.cache)
                  && (r.Ok? ==> Some(r.value) == found.value && s'.cache == s.cache[target := r.value])
                  && s'.dht.rt == found.rt && s'.dht.store == s.dht.store && s'.dht.own == s.dht.own)
            && (r.Ok? ==> Routed(s', target, other) == (s', r))
  {
    hide Looked;
  }

  // ---- exactly when ----

  /** Responders whose answer depends only on who is asked. */
  function Fixed(answers: Contact -> Option<Reply>): Responders {
    (i: nat, c: Contact) => answers(c)
  }

  /**
   Nothing weaker than honest answers will do. Take any node that has no value of its own
   for the key: its lookups are right from every table if and only if no contact of
   another node answers with a descriptor that is not the key's.
   */
  lemma RightExactlyWhenAnswersAre(cs: Suite, own: Contact, key: NodeId, answers: Contact -> Option<Reply>)
    requires !Says(Fixed(answers), 0, own)
    ensures (forall rt :: TableOk(own, rt) ==>
               Matches(cs, key, Looked(own.nodeId, key, true, Fixed(answers), rt).value))
            <==> forall c: Contact :: c.nodeId != own.nodeId && answers(c).Some? ==> Matches(cs, key, answers(c).value.value)
  {
    hide Looked, Authentic, TableOk, Nearest, Closest;
    var net := Fixed(answers);
    if forall c: Contact :: c.nodeId != own.nodeId && answers(c).Some? ==> Matches(cs, key, answers(c).value.value) {
      forall rt | TableOk(own, rt)
        ensures Matches(cs, key, Looked(own.nodeId, key, true, net, rt).value)
      {
        ValueIsAnother(own, key, answers, rt);
      }
    }
    if forall rt :: TableOk(own, rt) ==> Matches(cs, key, Looked(own.nodeId, key, true, net, rt).value) {
      forall c: Contact | c.nodeId != own.nodeId && answers(c).Some?
        ensures Matches(cs, key, answers(c).value.value)
      {
        if answers(c).value.value.Some? {
          PairLookup(own, c, key, answers);
        }
      }
    }
  }

  /** A value comes from a contact of another node. */
  lemma ValueIsAnother(own: Contact, key: NodeId, answers: Contact -> Option<Reply>, rt: seq<Contact>)
    requires TableOk(own, rt) && !Says(Fixed(answers), 0, own)
    ensures var v := Looked(own.nodeId, key, true, Fixed(answers), rt).value;
            v.Some? ==> exists c: Contact :: c.nodeId != own.nodeId && answers(c).Some? && answers(c).value.value == v
  {
    hide Looked, TableOk, Nearest, Closest;
    var net := Fixed(answers);
    LookupConverges(own, key, true, net, rt);
    LookupOwnOnly(own, key, true, net, rt);
    var p := Looked(own.nodeId, key, true, net, rt);
    if p.value.Some? {
      var c := p.asked[|p.asked| - 1];
      assert c in p.asked && answers(c).Some? && answers(c).value.value == p.value;
    }
  }

  /** A node that knows one other node returns what that one answers. */
  lemma PairLookup(own: Contact, c: Contact, key: NodeId, answers: Contact -> Option<Reply>)
    requires c.nodeId != own.nodeId && !Says(Fixed(answers), 0, own) && Says(Fixed(answers), 0, c)
    ensures TableOk(own, [own, c])
    ensures Looked(own.nodeId, key, true, Fixed(answers), [own, c]).value == answers(c).value.value
  {
    hide Looked, Closest, TableOk;
    TwoAreClosest(own, c, key);
    LoneVoice(own.nodeId, key, Fixed(answers), [own, c], c, answers(c).value.value.value);
  }

  lemma TwoAreClosest(own: Contact, c: Contact, key: NodeId)
    requires c.nodeId != own.nodeId
    ensures TableOk(own, [own, c])
    ensures forall x :: x in Closest([own, c], key, K) <==> x == own || x == c
  {
    hide Rank;
    SelfIsNearest(own.nodeId);
    NearerIsRank(own.nodeId, c.nodeId, own.nodeId);
    SameMembers(SortBy(key, [own, c]), [own, c]);
  }

  /**
   And route lookups cache what they are given: let every node asked be honest and have
   nothing but one, close to the target, that answers with a descriptor d of its choosing;
   d is returned, and stays under the target's key for good.
   */
  lemma ForeignAnswerIsCached(s: RouteState, target: NodeId, liar: Contact, d: Descriptor, net: Responders, other: Responders)
    requires TableOk(s.dht.own, s.dht.rt) && target !in s.cache && target !in s.dht.store
    requires liar.nodeId != s.dht.own.nodeId && liar in Closest(s.dht.rt, target, K)
    requires forall i :: Says(net, i, liar) && net(i, liar).value.value == Some(d)
    requires forall i, c :: c in Closest(s.dht.rt, target, K) && c != liar ==> !Says(net, i, c)
    ensures var (s', r) := Routed(s, target, net);
            && r == Ok(d) && s'.cache[target] == d
            && Routed(s', target, other) == (s', Ok(d))
  {
    hide Looked, TableOk, Closest;
    LoneVoice(s.dht.own.nodeId, target, net, s.dht.rt, liar, d);
  }

  /** A good node without the target's descriptor is such an honest one, the asking node included. */
  lemma HonestIsSilent(cs: Suite, s: DhtState, target: NodeId, net: Responders, i: nat, c: Contact)
    requires NodeOk(cs, s) && target !in s.store && net(i, c) == AnswerOf(cs, s, target, true)
    ensures !Says(net, i, c)
  {
    hide AnswerOf, Closest;
    AnswerIsOwn(cs, s, target, true);
  }
}
