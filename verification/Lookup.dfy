/**
 The iterative lookup, against responders that may answer anything, or nothing, at every
 call. It always ends, because each round asks at least one id never asked before; when
 it ends without a value, the K contacts then closest to the key have all been asked.
 */
module Lookup {
  import opened Wrappers
  import opened Octets
  import opened Identity
  import opened Rpc
  import opened Metric
  import opened Table

  const K := 3
  const ALPHA := 3

  /** A FOUND reply; no reply, an error and any other message are all None. */
  datatype Reply = Reply(contacts: seq<Contact>, value: Option<Descriptor>)

  /** What call number n, to contact c, is answered. */
  type Responders = (nat, Contact) -> Option<Reply>

  /** `filter(|c| !queried.contains(&c.node_id))` */
  function Unasked(seen: seq<Contact>, asked: seq<Contact>): (r: seq<Contact>)
    ensures forall c :: c in r <==> c in seen && !Known(asked, c.nodeId)
  {
    if seen == [] then []
    else
      var rest := Unasked(seen[1..], asked);
      assert seen == [seen[0]] + seen[1..];
      if Known(asked, seen[0].nodeId) then rest else [seen[0]] + rest
  }

  function Batch(seen: seq<Contact>, asked: seq<Contact>): seq<Contact> {
    Take(Unasked(seen, asked), ALPHA)
  }

  /** Where a lookup stands: the table, whom it has asked in order, and the value if it has one. */
  datatype Progress = Progress(rt: seq<Contact>, asked: seq<Contact>, value: Option<Descriptor>)

  function AskAll(self: NodeId, want: bool, net: Responders, batch: seq<Contact>, rt: seq<Contact>, asked: seq<Contact>): Progress
    decreases |batch|
  {
    if batch == [] then Progress(rt, asked, None)
    else
      var r := net(|asked|, batch[0]);
      if r.None? then AskAll(self, want, net, batch[1..], rt, asked + [batch[0]])
      else if want && r.value.value.Some? then Progress(rt, asked + [batch[0]], r.value.value)
      else AskAll(self, want, net, batch[1..], Merged(self, rt, r.value.contacts), asked + [batch[0]])
  }

  predicate NoBetter(next: seq<Contact>, seen: seq<Contact>) {
    |next| == |seen| && forall i :: 0 <= i < |next| ==> Known(seen, next[i].nodeId)
  }

  /** The part of the id space not asked yet, as numbers. */
  ghost function Unqueried(asked: seq<Contact>): set<nat> {
    set n: nat | 0 <= n < Pow256(20) && !AskedNumber(asked, n)
  }

  ghost predicate AskedNumber(asked: seq<Contact>, n: nat) {
    exists i :: 0 <= i < |asked| && Number(asked[i].nodeId) == n
  }

  /** Rounds of queries until nobody new is close, or nothing got closer. */
  function Search(self: NodeId, key: NodeId, want: bool, net: Responders, rt: seq<Contact>,
                  seen: seq<Contact>, asked: seq<Contact>): Progress
    decreases Unqueried(asked)
  {
    var batch := Batch(seen, asked);
    if batch == [] then Progress(rt, asked, None)
    else
      var p := AskAll(self, want, net, batch, rt, asked);
      var next := Closest(p.rt, key, K);
      if p.value.Some? || NoBetter(next, seen) then p
      else
        RoundShrinks(self, want, net, seen, rt, asked);
        Search(self, key, want, net, p.rt, next, p.asked)
  }

  function Looked(self: NodeId, key: NodeId, want: bool, net: Responders, rt: seq<Contact>): Progress {
    Search(self, key, want, net, rt, Closest(rt, key, K), [])
  }

  /** A round asks a nonempty prefix of its batch: all of it unless a value turns up. */
  lemma {:induction false} AskedPrefix(self: NodeId, want: bool, net: Responders, batch: seq<Contact>,
                                       rt: seq<Contact>, asked: seq<Contact>) returns (k: nat)
    requires batch != []
    ensures var p := AskAll(self, want, net, batch, rt, asked);
            && 0 < k <= |batch| && p.asked == asked + batch[..k] && (p.value.None? ==> k == |batch|)
    decreases |batch|
  {
    hide Merged;
    var r := net(|asked|, batch[0]);
    assert batch[..1] == [batch[0]];
    if |batch| == 1 || (r.Some? && want && r.value.value.Some?) {
      k := 1;
    } else {
      var rt' := if r.None? then rt else Merged(self, rt, r.value.contacts);
      var j := AskedPrefix(self, want, net, batch[1..], rt', asked + [batch[0]]);
      PrefixStep(asked, batch, j);
      k := j + 1;
    }
  }

  lemma PrefixStep(asked: seq<Contact>, batch: seq<Contact>, j: nat)
    requires j < |batch|
    ensures asked + [batch[0]] + batch[1..][..j] == asked + batch[..j + 1]
  {
  }

  lemma RoundShrinks(self: NodeId, want: bool, net: Responders, seen: seq<Contact>, rt: seq<Contact>, asked: seq<Contact>)
    requires Batch(seen, asked) != []
    ensures Unqueried(AskAll(self, want, net, Batch(seen, asked), rt, asked).asked) < Unqueried(asked)
  {
    hide AskAll, Merged;
    var batch := Batch(seen, asked);
    var k := AskedPrefix(self, want, net, batch, rt, asked);
    var after := asked + batch[..k];
    var c := batch[0];
    assert c in Unasked(seen, asked);
    NumberBound(c.nodeId);
    var n := Number(c.nodeId);
    forall i | 0 <= i < |asked|
      ensures Number(asked[i].nodeId) != n
    {
      LexIsNumeric(asked[i].nodeId, c.nodeId);
      assert asked[i] in asked;
    }
    assert after[|asked|] == c;
    forall m | AskedNumber(asked, m)
      ensures AskedNumber(after, m)
    {
      var i :| 0 <= i < |asked| && Number(asked[i].nodeId) == m;
      assert after[i] == asked[i];
    }
    assert n in Unqueried(asked) && AskedNumber(after, n);
  }

  // ---- what a lookup achieves ----

  /** Did call i bring a value that was asked for? */
  predicate Answered(want: bool, net: Responders, asked: seq<Contact>, i: nat)
    requires i < |asked|
  {
    want && net(i, asked[i]).Some? && net(i, asked[i]).value.value.Some?
  }

  /** The first n calls brought no value. */
  predicate Silent(want: bool, net: Responders, asked: seq<Contact>, n: nat)
    requires n <= |asked|
  {
    forall i :: 0 <= i < n ==> !Answered(want, net, asked, i)
  }

  /** The ids named in replies that were merged. */
  function Heard(want: bool, net: Responders, asked: seq<Contact>): set<NodeId> {
    if asked == [] then {}
    else
      var n := |asked| - 1;
      var r := net(n, asked[n]);
      Heard(want, net, asked[..n])
      + if r.Some? && !Answered(want, net, asked, n) then Ids(r.value.contacts) else {}
  }

  /** What holds throughout a lookup that started with table rt0. */
  ghost predicate Sound(own: Contact, want: bool, net: Responders, rt0: seq<Contact>, p: Progress) {
    && TableOk(own, p.rt)
    && Ids(p.rt) == Nearest(own.nodeId, Ids(rt0) + Heard(want, net, p.asked), TABLE_MAX)
    && (p.value.None? ==> Silent(want, net, p.asked, |p.asked|))
    && (p.value.Some? ==>
          && |p.asked| > 0
          && var n := |p.asked| - 1;
             && Answered(want, net, p.asked, n) && net(n, p.asked[n]).value.value == p.value
             && Silent(want, net, p.asked, n))
  }

  lemma AnsweredSame(want: bool, net: Responders, asked: seq<Contact>, c: Contact, i: nat)
    requires i < |asked|
    ensures Answered(want, net, asked + [c], i) == Answered(want, net, asked, i)
  {
    assert (asked + [c])[i] == asked[i];
  }

  /** One query keeps the table what all replies so far make it. */
  lemma QueryKeeps(own: Contact, want: bool, net: Responders, rt0: seq<Contact>, rt: seq<Contact>,
                   asked: seq<Contact>, c: Contact)
    requires Sound(own, want, net, rt0, Progress(rt, asked, None))
    ensures var r := net(|asked|, c);
            if r.None? then Sound(own, want, net, rt0, Progress(rt, asked + [c], None))
            else if want && r.value.value.Some? then Sound(own, want, net, rt0, Progress(rt, asked + [c], r.value.value))
            else Sound(own, want, net, rt0, Progress(Merged(own.nodeId, rt, r.value.contacts), asked + [c], None))
  {
    hide Merged, Nearest, Ids, TableOk;
    var n, after, r := |asked|, asked + [c], net(|asked|, c);
    assert after[..n] == asked && after[n] == c;
    forall i | 0 <= i < n
      ensures !Answered(want, net, after, i)
    {
      AnsweredSame(want, net, asked, c, i);
    }
    if r.Some? && !(want && r.value.value.Some?) {
      MergeKeepsNearest(own, rt, r.value.contacts);
      NearestOfPart(own.nodeId, Ids(rt0) + Heard(want, net, asked), Ids(r.value.contacts), TABLE_MAX);
      assert Ids(rt0) + Heard(want, net, asked) + Ids(r.value.contacts) == Ids(rt0) + Heard(want, net, after);
    } else {
      assert Heard(want, net, after) == Heard(want, net, asked);
    }
  }

  lemma {:induction false} AskAllSound(own: Contact, want: bool, net: Responders, rt0: seq<Contact>,
                                       batch: seq<Contact>, rt: seq<Contact>, asked: seq<Contact>)
    requires Sound(own, want, net, rt0, Progress(rt, asked, None))
    ensures Sound(own, want, net, rt0, AskAll(own.nodeId, want, net, batch, rt, asked))
    decreases |batch|
  {
    hide Sound, Merged;
    if batch != [] {
      var r := net(|asked|, batch[0]);
      QueryKeeps(own, want, net, rt0, rt, asked, batch[0]);
      if r.None? {
        AskAllSound(own, want, net, rt0, batch[1..], rt, asked + [batch[0]]);
      } else if !(want && r.value.value.Some?) {
        AskAllSound(own, want, net, rt0, batch[1..], Merged(own.nodeId, rt, r.value.contacts), asked + [batch[0]]);
      }
    }
  }

  /** Nobody is asked twice. */
  lemma AskAllDistinct(own: Contact, key: NodeId, want: bool, net: Responders, rt: seq<Contact>,
                       seen: seq<Contact>, asked: seq<Contact>)
    requires DistinctIds(asked) && DistinctIds(seen) && Batch(seen, asked) != []
    ensures DistinctIds(AskAll(own.nodeId, want, net, Batch(seen, asked), rt, asked).asked)
  {
    hide AskAll;
    var batch := Batch(seen, asked);
    var k := AskedPrefix(own.nodeId, want, net, batch, rt, asked);
    UnaskedDistinct(seen, asked);
    forall i | 0 <= i < |batch|
      ensures forall j :: 0 <= j < |asked| ==> asked[j].nodeId != batch[i].nodeId
    {
      assert batch[i] in Unasked(seen, asked);
    }
  }

  lemma {:induction false} UnaskedDistinct(seen: seq<Contact>, asked: seq<Contact>)
    requires DistinctIds(seen)
    ensures DistinctIds(Unasked(seen, asked))
  {
    if seen != [] {
      UnaskedDistinct(seen[1..], asked);
      var rest := Unasked(seen[1..], asked);
      forall i | 0 <= i < |rest|
        ensures rest[i].nodeId != seen[0].nodeId
      {
        assert rest[i] in rest && rest[i] in seen[1..];
      }
    }
  }

  lemma {:induction false} UnaskedShort(seen: seq<Contact>, asked: seq<Contact>)
    ensures |Unasked(seen, asked)| <= |seen|
  {
    if seen != [] {
      UnaskedShort(seen[1..], asked);
    }
  }

  /** After a full round everybody close at its start has been asked, since K <= ALPHA. */
  lemma RoundAsksAll(self: NodeId, want: bool, net: Responders, rt: seq<Contact>, seen: seq<Contact>, asked: seq<Contact>)
    requires |seen| <= K && Batch(seen, asked) != []
    requires AskAll(self, want, net, Batch(seen, asked), rt, asked).value.None?
    ensures forall c :: c in seen ==> Known(AskAll(self, want, net, Batch(seen, asked), rt, asked).asked, c.nodeId)
  {
    hide AskAll;
    var batch := Batch(seen, asked);
    UnaskedShort(seen, asked);
    var k := AskedPrefix(self, want, net, batch, rt, asked);
    var after := asked + batch[..k];
    forall c | c in seen
      ensures Known(after, c.nodeId)
    {
      if Known(asked, c.nodeId) {
        var i :| 0 <= i < |asked| && asked[i].nodeId == c.nodeId;
        assert after[i].nodeId == c.nodeId;
      } else {
        assert c in batch;
        var i :| 0 <= i < |batch| && batch[i] == c;
        assert after[|asked| + i] == c;
      }
    }
  }

  /** The K contacts closest to the key have all been asked. */
  predicate Converged(key: NodeId, p: Progress) {
    forall c :: c in Closest(p.rt, key, K) ==> Known(p.asked, c.nodeId)
  }

  lemma {:induction false} SearchSound(own: Contact, key: NodeId, want: bool, net: Responders, rt0: seq<Contact>,
                                       rt: seq<Contact>, asked: seq<Contact>)
    requires Sound(own, want, net, rt0, Progress(rt, asked, None)) && DistinctIds(asked)
    ensures var p := Search(own.nodeId, key, want, net, rt, Closest(rt, key, K), asked);
            && Sound(own, want, net, rt0, p) && DistinctIds(p.asked)
            && (p.value.None? ==> Converged(key, p))
    decreases Unqueried(asked)
  {
    hide Sound, AskAll, Closest, DistinctIds;
    var self, seen := own.nodeId, Closest(rt, key, K);
    var batch := Batch(seen, asked);
    ClosestDistinct(own, want, net, rt0, rt, asked, key);
    if batch == [] {
      assert Unasked(seen, asked) == [];
    } else {
      var p := AskAll(self, want, net, batch, rt, asked);
      AskAllSound(own, want, net, rt0, batch, rt, asked);
      AskAllDistinct(own, key, want, net, rt, seen, asked);
      RoundShrinks(self, want, net, seen, rt, asked);
      if p.value.None? {
        RoundAsksAll(self, want, net, rt, seen, asked);
        var next := Closest(p.rt, key, K);
        if NoBetter(next, seen) {
          NoBetterAsked(next, seen, p.asked);
        } else {
          SearchSound(own, key, want, net, rt0, p.rt, p.asked);
        }
      }
    }
  }

  lemma NoBetterAsked(next: seq<Contact>, seen: seq<Contact>, asked: seq<Contact>)
    requires NoBetter(next, seen) && forall c :: c in seen ==> Known(asked, c.nodeId)
    ensures forall c :: c in next ==> Known(asked, c.nodeId)
  {
    forall c | c in next
      ensures Known(asked, c.nodeId)
    {
      var i :| 0 <= i < |next| && next[i] == c;
      var j :| 0 <= j < |seen| && seen[j].nodeId == c.nodeId;
      assert seen[j] in seen;
    }
  }

  lemma ClosestDistinct(own: Contact, want: bool, net: Responders, rt0: seq<Contact>, rt: seq<Contact>,
                        asked: seq<Contact>, key: NodeId)
    requires Sound(own, want, net, rt0, Progress(rt, asked, None))
    ensures DistinctIds(Closest(rt, key, K)) && |Closest(rt, key, K)| <= K
  {
    hide Closest, Nearest;
    ClosestIsNearest(own, rt, key, K);
    RankedDistinct(key, Closest(rt, key, K));
  }

  /**
   Lookup, whatever the responders do: it ends; nobody is asked twice; the table ends up
   holding the 64 nearest ids of all it held and all it was told; without a value the K
   contacts now closest to the key have all been asked and none had one; with a value,
   that is what the last one asked answered, and none before it had one.
   */
  lemma LookupConverges(own: Contact, key: NodeId, want: bool, net: Responders, rt: seq<Contact>)
    requires TableOk(own, rt)
    ensures var p := Looked(own.nodeId, key, want, net, rt);
            && Sound(own, want, net, rt, p) && DistinctIds(p.asked)
            && (p.value.None? ==> Converged(key, p))
  {
    hide Search, Closest;
    NearestOfTable(own, rt);
    assert Ids(rt) + {} == Ids(rt);
    SearchSound(own, key, want, net, rt, rt, []);
  }

  lemma NearestOfTable(own: Contact, rt: seq<Contact>)
    requires TableOk(own, rt)
    ensures Nearest(own.nodeId, Ids(rt), TABLE_MAX) == Ids(rt)
  {
    hide Nearest, Ids;
    TakeIsNearest(own.nodeId, rt, TABLE_MAX);
    assert rt[..|rt|] == rt;
  }

  // ---- who is asked ----

  /** The only contact with the node's own id is its own. */
  predicate OwnOnly(own: Contact, s: seq<Contact>) {
    forall c :: c in s && c.nodeId == own.nodeId ==> c == own
  }

  lemma TableOwnOnly(own: Contact, rt: seq<Contact>, key: NodeId, k: nat)
    requires TableOk(own, rt)
    ensures OwnOnly(own, rt) && OwnOnly(own, Closest(rt, key, k))
  {
    hide Closest, Nearest;
    RankedDistinct(own.nodeId, rt);
    forall c | c in rt && c.nodeId == own.nodeId
      ensures c == own
    {
      var i :| 0 <= i < |rt| && rt[i] == c;
    }
    ClosestIsNearest(own, rt, key, k);
  }

  lemma {:induction false} SearchOwnOnly(own: Contact, key: NodeId, want: bool, net: Responders, rt0: seq<Contact>,
                                         rt: seq<Contact>, asked: seq<Contact>)
    requires Sound(own, want, net, rt0, Progress(rt, asked, None)) && OwnOnly(own, asked)
    ensures OwnOnly(own, Search(own.nodeId, key, want, net, rt, Closest(rt, key, K), asked).asked)
    decreases Unqueried(asked)
  {
    hide AskAll, Closest, Nearest, TableOk;
    var self, seen := own.nodeId, Closest(rt, key, K);
    var batch := Batch(seen, asked);
    if batch != [] {
      var p := AskAll(self, want, net, batch, rt, asked);
      TableOwnOnly(own, rt, key, K);
      var k := AskedPrefix(self, want, net, batch, rt, asked);
      assert forall c :: c in batch[..k] ==> c in Unasked(seen, asked);
      assert OwnOnly(own, p.asked);
      AskAllSound(own, want, net, rt0, batch, rt, asked);
      RoundShrinks(self, want, net, seen, rt, asked);
      if p.value.None? && !NoBetter(Closest(p.rt, key, K), seen) {
        SearchOwnOnly(own, key, want, net, rt0, p.rt, p.asked);
      }
    }
  }

  /** Under its own id a node asks nobody but itself. */
  lemma LookupOwnOnly(own: Contact, key: NodeId, want: bool, net: Responders, rt: seq<Contact>)
    requires TableOk(own, rt)
    ensures OwnOnly(own, Looked(own.nodeId, key, want, net, rt).asked)
  {
    hide Search, Closest;
    NearestOfTable(own, rt);
    assert Ids(rt) + {} == Ids(rt);
    SearchOwnOnly(own, key, want, net, rt, rt, []);
  }

  /** Contact c answers with a value, whenever it is asked. */
  predicate Says(net: Responders, i: nat, c: Contact) {
    net(i, c).Some? && net(i, c).value.value.Some?
  }

  lemma {:induction false} AskAllFinds(self: NodeId, net: Responders, batch: seq<Contact>, rt: seq<Contact>,
                                       asked: seq<Contact>, liar: Contact, d: Descriptor)
    requires liar in batch
    requires forall i :: Says(net, i, liar) && net(i, liar).value.value == Some(d)
    requires forall i, c :: c in batch && c != liar ==> !Says(net, i, c)
    ensures AskAll(self, true, net, batch, rt, asked).value == Some(d)
    decreases |batch|
  {
    hide Merged;
    var r := net(|asked|, batch[0]);
    if batch[0] == liar {
      assert Says(net, |asked|, liar);
    } else {
      assert !Says(net, |asked|, batch[0]);
      AskAllFinds(self, net, batch[1..], if r.None? then rt else Merged(self, rt, r.value.contacts),
                  asked + [batch[0]], liar, d);
    }
  }

  lemma {:induction false} NobodyAskedYet(seen: seq<Contact>)
    ensures Unasked(seen, []) == seen
  {
    if seen != [] {
      NobodyAskedYet(seen[1..]);
    }
  }

  /** What is left out of a sorted list leaves a sorted list. */
  lemma {:induction false} UnaskedRanked(key: NodeId, seen: seq<Contact>, asked: seq<Contact>)
    requires Ranked(key, seen)
    ensures Ranked(key, Unasked(seen, asked))
  {
    hide Rank;
    if seen != [] {
      UnaskedRanked(key, seen[1..], asked);
      var rest := Unasked(seen[1..], asked);
      forall j | 0 <= j < |rest|
        ensures Rank(key, seen[0].nodeId) < Rank(key, rest[j].nodeId)
      {
        assert rest[j] in seen[1..];
      }
    }
  }

  /**
   The order of a round: of the contacts seen, nearest first, and not asked yet, it asks the
   nearest ones, nearest first, up to the one that brings a value; nobody it passes over is
   nearer than anybody it asks.
   */
  lemma RoundNearestFirst(self: NodeId, key: NodeId, want: bool, net: Responders, rt: seq<Contact>,
                          seen: seq<Contact>, asked: seq<Contact>)
    returns (now: seq<Contact>)
    requires Ranked(key, seen) && Batch(seen, asked) != []
    ensures AskAll(self, want, net, Batch(seen, asked), rt, asked).asked == asked + now
    ensures now != [] && Ranked(key, now) && forall c :: c in now ==> c in seen && !Known(asked, c.nodeId)
    ensures forall c, d :: c in now && d in seen && !Known(asked, d.nodeId) && d !in now ==>
                             Rank(key, c.nodeId) < Rank(key, d.nodeId)
  {
    hide AskAll, Rank;
    var batch, all := Batch(seen, asked), Unasked(seen, asked);
    var k := AskedPrefix(self, want, net, batch, rt, asked);
    now := batch[..k];
    assert now == Take(all, k);
    UnaskedRanked(key, seen, asked);
    TakeOmitsFarther(key, all, k);
  }

  lemma {:induction false} AskAllHears(self: NodeId, net: Responders, batch: seq<Contact>, rt: seq<Contact>,
                                       asked: seq<Contact>, n: nat, d: Descriptor)
    requires n < |batch|
    requires forall i :: Says(net, i, batch[n]) && net(i, batch[n]).value.value == Some(d)
    requires forall i, j :: 0 <= j < n ==> !Says(net, i, batch[j])
    ensures AskAll(self, true, net, batch, rt, asked).value == Some(d)
    decreases |batch|
  {
    hide Merged;
    var r := net(|asked|, batch[0]);
    if n == 0 {
      assert Says(net, |asked|, batch[0]);
    } else {
      assert !Says(net, |asked|, batch[0]);
      forall i, j | 0 <= j < n - 1
        ensures !Says(net, i, batch[1..][j])
      {
        assert !Says(net, i, batch[j + 1]);
      }
      AskAllHears(self, net, batch[1..], if r.None? then rt else Merged(self, rt, r.value.contacts),
                  asked + [batch[0]], n - 1, d);
    }
  }

  /**
   Of the contacts closest at the start the nearest one with an answer is heard: if everyone
   nearer to the key is silent, a lookup returns what it says, whatever others say.
   */
  lemma NearestVoiceWins(own: Contact, key: NodeId, net: Responders, rt: seq<Contact>, c: Contact, d: Descriptor)
    requires TableOk(own, rt) && c in Closest(rt, key, K)
    requires forall i :: Says(net, i, c) && net(i, c).value.value == Some(d)
    requires forall i, x :: x in rt && Rank(key, x.nodeId) < Rank(key, c.nodeId) ==> !Says(net, i, x)
    ensures Looked(own.nodeId, key, true, net, rt).value == Some(d)
  {
    hide AskAll, Rank, Closest, Nearest;
    var seen := Closest(rt, key, K);
    ClosestIsNearest(own, rt, key, K);
    NobodyAskedYet(seen);
    assert Batch(seen, []) == seen;
    var n :| 0 <= n < |seen| && seen[n] == c;
    forall i, j | 0 <= j < n
      ensures !Says(net, i, seen[j])
    {
      assert seen[j] in rt && Rank(key, seen[j].nodeId) < Rank(key, c.nodeId);
    }
    AskAllHears(own.nodeId, net, seen, rt, [], n, d);
  }

  /** If just one of the contacts closest at the start answers with a value, that is what the lookup returns. */
  lemma LoneVoice(self: NodeId, key: NodeId, net: Responders, rt: seq<Contact>, liar: Contact, d: Descriptor)
    requires liar in Closest(rt, key, K)
    requires forall i :: Says(net, i, liar) && net(i, liar).value.value == Some(d)
    requires forall i, c :: c in Closest(rt, key, K) && c != liar ==> !Says(net, i, c)
    ensures Looked(self, key, true, net, rt).value == Some(d)
  {
    hide AskAll;
    var seen := Closest(rt, key, K);
    NobodyAskedYet(seen);
    AskAllFinds(self, net, seen, rt, [], liar, d);
    assert Batch(seen, []) == seen;
  }
}
