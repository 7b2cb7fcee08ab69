/**
 The routing table: one flat list, sorted by distance to the node itself and cut at 64.
 Merging keeps exactly the 64 ids nearest to the node, so it does not matter in which
 batches contacts arrive.
 */
module Table {
  import opened Octets
  import opened Identity
  import opened Rpc
  import opened Metric

  const TABLE_MAX := 64

  // ---- sorting by distance ----

  /** Places `c` behind everything at most as far from the key. */
  function Inserted(key: NodeId, c: Contact, s: seq<Contact>): (r: seq<Contact>)
    ensures multiset(r) == multiset(s) + multiset{c} && |r| == |s| + 1
  {
    if s == [] || LexLess(Dist(c.nodeId, key), Dist(s[0].nodeId, key)) then [c] + s
    else
      assert s == [s[0]] + s[1..];
      [s[0]] + Inserted(key, c, s[1..])
  }

  /** `sort_by_key` on the distance to the key, a stable sort. */
  function SortBy(key: NodeId, s: seq<Contact>): (r: seq<Contact>)
    ensures multiset(r) == multiset(s) && |r| == |s|
  {
    if s == [] then []
    else
      var n := |s| - 1;
      assert s == s[..n] + [s[n]];
      Inserted(key, s[n], SortBy(key, s[..n]))
  }

  /** Strictly increasing distance: sorted, and no id twice. */
  ghost predicate Ranked(key: NodeId, s: seq<Contact>) {
    forall i, j :: 0 <= i < j < |s| ==> Rank(key, s[i].nodeId) < Rank(key, s[j].nodeId)
  }

  predicate DistinctIds(s: seq<Contact>) {
    forall i, j :: 0 <= i < j < |s| ==> s[i].nodeId != s[j].nodeId
  }

  function Ids(s: seq<Contact>): set<NodeId> {
    set c | c in s :: c.nodeId
  }

  function Take<T>(s: seq<T>, k: nat): (r: seq<T>)
    ensures |r| == if k < |s| then k else |s|
    ensures r == s[..|r|]
  {
    if k < |s| then s[..k] else s
  }

  lemma {:induction false} InsertedRanked(key: NodeId, c: Contact, s: seq<Contact>)
    requires Ranked(key, s) && c.nodeId !in Ids(s)
    ensures Ranked(key, Inserted(key, c, s))
  {
    hide Rank, Dist, LexLess;
    if s != [] {
      NearerIsRank(key, c.nodeId, s[0].nodeId);
      assert s[0].nodeId in Ids(s);
      if LexLess(Dist(c.nodeId, key), Dist(s[0].nodeId, key)) {
        FrontRanked(key, c, s);
      } else {
        assert forall x :: x in s[1..] ==> x in s;
        InsertedRanked(key, c, s[1..]);
        var rest := Inserted(key, c, s[1..]);
        forall x | x in rest
          ensures Rank(key, s[0].nodeId) < Rank(key, x.nodeId)
        {
          assert x in multiset(rest);
          assert x in s[1..] || x == c;
        }
        FrontRanked(key, s[0], rest);
      }
    }
  }

  lemma FrontRanked(key: NodeId, c: Contact, s: seq<Contact>)
    requires Ranked(key, s) && (s == [] || Rank(key, c.nodeId) < Rank(key, s[0].nodeId))
    ensures Ranked(key, [c] + s)
  {
    hide Rank;
  }

  lemma {:induction false} SortedRanked(key: NodeId, s: seq<Contact>)
    requires DistinctIds(s)
    ensures Ranked(key, SortBy(key, s))
  {
    if s != [] {
      var n := |s| - 1;
      SortedRanked(key, s[..n]);
      SameMembers(SortBy(key, s[..n]), s[..n]);
      InsertedRanked(key, s[n], SortBy(key, s[..n]));
    }
  }

  lemma SameMembers(a: seq<Contact>, b: seq<Contact>)
    requires multiset(a) == multiset(b)
    ensures forall x :: x in a <==> x in b
    ensures Ids(a) == Ids(b)
  {
    forall x
      ensures x in a <==> x in b
    {
      assert x in multiset(a) <==> x in multiset(b);
    }
  }

  // ---- the operations ----

  /** `closest`: sort a copy by distance to the key, keep k. */
  function Closest(rt: seq<Contact>, key: NodeId, k: nat): seq<Contact> {
    Take(SortBy(key, rt), k)
  }

  function Known(rt: seq<Contact>, id: NodeId): (b: bool)
    ensures b <==> id in Ids(rt)
  {
    exists i :: 0 <= i < |rt| && rt[i].nodeId == id
  }

  /** The push loop of `try_merge`. */
  function Pushed(self: NodeId, rt: seq<Contact>, contacts: seq<Contact>): seq<Contact> {
    if contacts == [] then rt
    else
      var n := |contacts| - 1;
      var r := Pushed(self, rt, contacts[..n]);
      if contacts[n].nodeId == self || Known(r, contacts[n].nodeId) then r else r + [contacts[n]]
  }

  /** `try_merge`. */
  function Merged(self: NodeId, rt: seq<Contact>, contacts: seq<Contact>): (r: seq<Contact>)
    ensures |r| <= TABLE_MAX
  {
    Take(SortBy(self, Pushed(self, rt, contacts)), TABLE_MAX)
  }

  /** What a node's table always looks like: ranked, at most 64 long, its own contact first. */
  ghost predicate TableOk(own: Contact, rt: seq<Contact>) {
    0 < |rt| <= TABLE_MAX && rt[0] == own && Ranked(own.nodeId, rt)
  }

  lemma InitialTable(own: Contact)
    ensures TableOk(own, [own])
  {
  }

  lemma RankedDistinct(key: NodeId, s: seq<Contact>)
    requires Ranked(key, s)
    ensures DistinctIds(s)
  {
  }

  lemma {:induction false} PushedIds(self: NodeId, rt: seq<Contact>, contacts: seq<Contact>)
    requires DistinctIds(rt) && self in Ids(rt)
    ensures var r := Pushed(self, rt, contacts);
            DistinctIds(r) && Ids(r) == Ids(rt) + Ids(contacts) && rt <= r
  {
    assert Ids([]) == {};
    if contacts != [] {
      hide Ids, DistinctIds;
      var n := |contacts| - 1;
      var c := contacts[n];
      PushedIds(self, rt, contacts[..n]);
      var r := Pushed(self, rt, contacts[..n]);
      assert contacts == contacts[..n] + [c];
      IdsAppend(contacts[..n], c);
      if c.nodeId !in Ids(r) {
        IdsAppend(r, c);
        PushOne(r, c);
      }
    }
  }

  lemma PushOne(r: seq<Contact>, c: Contact)
    requires DistinctIds(r) && c.nodeId !in Ids(r)
    ensures DistinctIds(r + [c])
  {
    forall i | 0 <= i < |r|
      ensures r[i].nodeId != c.nodeId
    {
      assert r[i] in r;
    }
  }

  lemma IdsAppend(s: seq<Contact>, c: Contact)
    ensures Ids(s + [c]) == Ids(s) + {c.nodeId}
  {
    assert c in s + [c];
    forall x | x in Ids(s)
      ensures x in Ids(s + [c])
    {
      var d :| d in s && d.nodeId == x;
      assert d in s + [c];
    }
  }

  // ---- which ids are kept ----

  /** The members of U nearer to the key than rank r. */
  ghost function Below(key: NodeId, u: set<NodeId>, r: nat): set<NodeId> {
    set x | x in u && Rank(key, x) < r
  }

  /** The k ids of U nearest to the key: those with fewer than k ids nearer still. */
  ghost function Nearest(key: NodeId, u: set<NodeId>, k: nat): set<NodeId> {
    set x | x in u && |Below(key, u, Rank(key, x))| < k
  }

  ghost function Farthest(key: NodeId, u: set<NodeId>): (m: NodeId)
    requires u != {}
    ensures m in u && forall x :: x in u && x != m ==> Rank(key, x) < Rank(key, m)
  {
    var y :| y in u;
    var rest := u - {y};
    if rest == {} then
      assert forall x :: x in u ==> x == y by {
        assert forall x :: x in u && x != y ==> x in rest;
      }
      y
    else
      var z := Farthest(key, rest);
      NearerIsRank(key, y, z);
      assert forall x :: x in u && x != y ==> x in rest;
      if Rank(key, y) < Rank(key, z) then z else y
  }

  lemma WithFarthest(key: NodeId, rest: set<NodeId>, m: NodeId, k: nat)
    requires m !in rest && forall x :: x in rest ==> Rank(key, x) < Rank(key, m)
    ensures Nearest(key, rest + {m}, k) == Nearest(key, rest, k) + (if |rest| < k then {m} else {})
    ensures m !in Nearest(key, rest, k)
  {
    hide Rank;
    var u := rest + {m};
    assert Below(key, u, Rank(key, m)) == rest;
    forall x | x in rest
      ensures Below(key, u, Rank(key, x)) == Below(key, rest, Rank(key, x))
    {
    }
  }

  /** There are k of them, or all if there are fewer. */
  lemma {:induction false} NearestSize(key: NodeId, u: set<NodeId>, k: nat)
    ensures |Nearest(key, u, k)| == if k < |u| then k else |u|
  {
    if u == {} {
      assert Nearest(key, u, k) == {};
    } else {
      hide Rank, Farthest, Nearest;
      var m := Farthest(key, u);
      var rest := u - {m};
      NearestSize(key, rest, k);
      WithFarthest(key, rest, m, k);
      assert rest + {m} == u && |u| == |rest| + 1;
    }
  }

  /**
   Keeping the k nearest may be done early: dropping what is not among the k nearest of S
   before T is added loses nothing.
   */
  lemma NearestOfPart(key: NodeId, s: set<NodeId>, t: set<NodeId>, k: nat)
    ensures Nearest(key, Nearest(key, s, k) + t, k) == Nearest(key, s + t, k)
  {
    var u, v := s + t, Nearest(key, s, k) + t;
    forall x | x in Nearest(key, u, k)
      ensures x in Nearest(key, v, k)
    {
      SubsetSize(Below(key, v, Rank(key, x)), Below(key, u, Rank(key, x)));
      SubsetSize(Below(key, s, Rank(key, x)), Below(key, u, Rank(key, x)));
    }
    forall x | x in Nearest(key, v, k)
      ensures x in Nearest(key, u, k)
    {
      forall y | y in Below(key, u, Rank(key, x))
        ensures y in Below(key, v, Rank(key, x))
      {
        if y !in v {
          CrowdedOut(key, s, y, k);
          SubsetSize(Nearest(key, Below(key, s, Rank(key, y)), k), Below(key, v, Rank(key, x)));
          assert false;
        }
      }
      SubsetSize(Below(key, u, Rank(key, x)), Below(key, v, Rank(key, x)));
    }
  }

  /** An id of S outside the k nearest has k of the k nearest below it. */
  lemma CrowdedOut(key: NodeId, s: set<NodeId>, y: NodeId, k: nat)
    requires y in s && y !in Nearest(key, s, k)
    ensures var near := Nearest(key, Below(key, s, Rank(key, y)), k);
            && |near| == k
            && forall z :: z in near ==> z in Nearest(key, s, k) && Rank(key, z) < Rank(key, y)
  {
    var b := Below(key, s, Rank(key, y));
    NearestSize(key, b, k);
    forall z | z in b
      ensures Below(key, b, Rank(key, z)) == Below(key, s, Rank(key, z))
    {
    }
  }

  /** The first k of a ranked list are the k nearest of its ids. */
  lemma TakeIsNearest(key: NodeId, s: seq<Contact>, k: nat)
    requires Ranked(key, s)
    ensures Ids(Take(s, k)) == Nearest(key, Ids(s), k)
  {
    forall i | 0 <= i < |s|
      ensures |Below(key, Ids(s), Rank(key, s[i].nodeId))| == i
    {
      BelowAt(key, s, i);
    }
    var kept := Take(s, k);
    forall x | x in Ids(kept)
      ensures x in Nearest(key, Ids(s), k)
    {
      var i :| 0 <= i < |kept| && kept[i].nodeId == x;
      assert s[i] == kept[i] && s[i] in s;
    }
    forall x | x in Nearest(key, Ids(s), k)
      ensures x in Ids(kept)
    {
      var i :| 0 <= i < |s| && s[i].nodeId == x;
      assert kept[i] == s[i];
    }
  }

  lemma BelowAt(key: NodeId, s: seq<Contact>, i: nat)
    requires Ranked(key, s) && i < |s|
    ensures |Below(key, Ids(s), Rank(key, s[i].nodeId))| == i
  {
    var r := Rank(key, s[i].nodeId);
    assert Below(key, Ids(s), r) == Ids(s[..i]) by {
      forall x | x in Below(key, Ids(s), r)
        ensures x in Ids(s[..i])
      {
        var j :| 0 <= j < |s| && s[j].nodeId == x;
        assert j < i;
        assert s[..i][j] == s[j];
      }
      forall x | x in Ids(s[..i])
        ensures x in Below(key, Ids(s), r)
      {
        var j :| 0 <= j < i && s[j].nodeId == x;
        assert s[j] in s;
      }
    }
    RankedDistinct(key, s);
    IdsSize(s[..i]);
  }

  lemma {:induction false} IdsSize(s: seq<Contact>)
    requires DistinctIds(s)
    ensures |Ids(s)| == |s|
  {
    if s != [] {
      var n := |s| - 1;
      IdsSize(s[..n]);
      assert s == s[..n] + [s[n]];
      IdsAppend(s[..n], s[n]);
      assert s[n].nodeId !in Ids(s[..n]);
    }
  }

  // ---- the theorems ----

  /**
   One merge: the table stays well formed, keeps the node's own contact in front, and
   holds exactly the 64 nearest ids of what it held and what came in.
   */
  lemma MergeKeepsNearest(own: Contact, rt: seq<Contact>, contacts: seq<Contact>)
    requires TableOk(own, rt)
    ensures var r := Merged(own.nodeId, rt, contacts);
            && TableOk(own, r)
            && Ids(r) == Nearest(own.nodeId, Ids(rt) + Ids(contacts), TABLE_MAX)
  {
    var self := own.nodeId;
    var all := Pushed(self, rt, contacts);
    assert rt[0] in rt;
    RankedDistinct(self, rt);
    PushedIds(self, rt, contacts);
    SortedRanked(self, all);
    var sorted := SortBy(self, all);
    SameMembers(sorted, all);
    TakeIsNearest(self, sorted, TABLE_MAX);
    assert all[0] == own && own in sorted;
    OwnIsFirst(own, sorted);
  }

  lemma FirstIsNearest(key: NodeId, s: seq<Contact>, i: nat)
    requires Ranked(key, s) && i < |s|
    ensures i > 0 ==> Rank(key, s[0].nodeId) < Rank(key, s[i].nodeId)
  {
  }

  lemma OwnIsFirst(own: Contact, s: seq<Contact>)
    requires Ranked(own.nodeId, s) && own in s
    ensures s[0] == own
  {
    SelfIsNearest(own.nodeId);
    var i :| 0 <= i < |s| && s[i] == own;
    FirstIsNearest(own.nodeId, s, i);
  }

  /** Ranked tables with the same ids list them in the same order. */
  lemma {:induction false} SameIdsSameOrder(key: NodeId, a: seq<Contact>, b: seq<Contact>)
    requires Ranked(key, a) && Ranked(key, b) && Ids(a) == Ids(b)
    ensures |a| == |b| && forall i :: 0 <= i < |a| ==> a[i].nodeId == b[i].nodeId
  {
    RankedDistinct(key, a);
    RankedDistinct(key, b);
    IdsSize(a);
    IdsSize(b);
    forall i | 0 <= i < |a|
      ensures a[i].nodeId == b[i].nodeId
    {
      BelowAt(key, a, i);
      assert a[i].nodeId in Ids(b);
      var j :| 0 <= j < |b| && b[j].nodeId == a[i].nodeId;
      BelowAt(key, b, j);
    }
  }

  /**
   Confluence: merging A then B, B then A, or both at once gives the same ids in the same
   order, whatever the table held and however many contacts are cut off in between.
   */
  lemma MergeConfluent(own: Contact, rt: seq<Contact>, a: seq<Contact>, b: seq<Contact>)
    requires TableOk(own, rt)
    ensures var self := own.nodeId;
            var ab, ba := Merged(self, Merged(self, rt, a), b), Merged(self, Merged(self, rt, b), a);
            var once := Merged(self, rt, a + b);
            && |ab| == |ba| == |once|
            && forall i :: 0 <= i < |ab| ==> ab[i].nodeId == ba[i].nodeId == once[i].nodeId
  {
    hide Merged, Nearest, Ids, Ranked;
    var self := own.nodeId;
    TwoMerges(own, rt, a, b);
    TwoMerges(own, rt, b, a);
    MergeKeepsNearest(own, rt, a + b);
    IdsConcat(a, b);
    assert Ids(rt) + Ids(a) + Ids(b) == Ids(rt) + Ids(b) + Ids(a) == Ids(rt) + (Ids(a) + Ids(b));
    var ab, ba := Merged(self, Merged(self, rt, a), b), Merged(self, Merged(self, rt, b), a);
    var once := Merged(self, rt, a + b);
    SameIdsSameOrder(self, ab, ba);
    SameIdsSameOrder(self, ab, once);
  }

  // ---- which contacts are kept ----

  /** The first contact listed for an id. */
  function First(s: seq<Contact>, id: NodeId): (c: Contact)
    requires Known(s, id)
    ensures c in s && c.nodeId == id
  {
    var n := |s| - 1;
    assert s == s[..n] + [s[n]];
    if Known(s[..n], id) then First(s[..n], id) else s[n]
  }

  /** `First`, one contact at a time. */
  lemma FirstSnoc(s: seq<Contact>, c: Contact, id: NodeId)
    ensures Known(s + [c], id) <==> Known(s, id) || c.nodeId == id
    ensures Known(s, id) ==> First(s + [c], id) == First(s, id)
    ensures !Known(s, id) && c.nodeId == id ==> First(s + [c], id) == c
  {
    IdsAppend(s, c);
    assert (s + [c])[..|s + [c]| - 1] == s && (s + [c])[|s|] == c;
  }

  lemma {:induction false} FirstOfPrefix(a: seq<Contact>, b: seq<Contact>, id: NodeId)
    requires Known(a, id)
    ensures Known(a + b, id) && First(a + b, id) == First(a, id)
    decreases |b|
  {
    hide First;
    if b == [] {
      assert a + b == a;
    } else {
      var init, last := b[..|b| - 1], b[|b| - 1];
      assert a + b == a + init + [last];
      FirstOfPrefix(a, init, id);
      FirstSnoc(a + init, last, id);
    }
  }

  lemma {:induction false} FirstOfSuffix(a: seq<Contact>, b: seq<Contact>, id: NodeId)
    requires !Known(a, id) && Known(b, id)
    ensures Known(a + b, id) && First(a + b, id) == First(b, id)
    decreases |b|
  {
    hide First;
    var init, last := b[..|b| - 1], b[|b| - 1];
    assert b == init + [last] && a + b == a + init + [last];
    FirstSnoc(init, last, id);
    FirstSnoc(a + init, last, id);
    if Known(init, id) {
      FirstOfSuffix(a, init, id);
    } else {
      IdsConcat(a, init);
    }
  }

  lemma {:induction false} FirstIsUnique(s: seq<Contact>, c: Contact)
    requires DistinctIds(s) && c in s
    ensures First(s, c.nodeId) == c
  {
    var f := First(s, c.nodeId);
    var i :| 0 <= i < |s| && s[i] == c;
    var j :| 0 <= j < |s| && s[j] == f;
  }

  /** Every contact is the first one `heard` for its id. */
  predicate AllFirst(s: seq<Contact>, heard: seq<Contact>) {
    forall c :: c in s ==> Known(heard, c.nodeId) && c == First(heard, c.nodeId)
  }

  lemma FirstKept(s: seq<Contact>, heard: seq<Contact>, c: Contact)
    requires AllFirst(s, heard)
    ensures AllFirst(s, heard + [c])
    ensures !Known(heard, c.nodeId) ==> AllFirst(s + [c], heard + [c])
  {
    forall x | x in s
      ensures Known(heard + [c], x.nodeId) && x == First(heard + [c], x.nodeId)
    {
      FirstSnoc(heard, c, x.nodeId);
    }
    if !Known(heard, c.nodeId) {
      FirstSnoc(heard, c, c.nodeId);
    }
  }

  /** Whatever is pushed is the first contact heard for its id. */
  lemma {:induction false} PushedFirst(self: NodeId, rt: seq<Contact>, contacts: seq<Contact>)
    requires DistinctIds(rt) && self in Ids(rt)
    ensures AllFirst(Pushed(self, rt, contacts), rt + contacts)
  {
    hide AllFirst, Ids, DistinctIds, First, Pushed;
    PushedLast(self, rt, contacts);
    if contacts == [] {
      assert rt + contacts == rt;
      DistinctAreFirst(rt);
    } else {
      var init, last := contacts[..|contacts| - 1], contacts[|contacts| - 1];
      PushedFirst(self, rt, init);
      PushedIds(self, rt, init);
      IdsConcat(rt, init);
      assert rt + contacts == rt + init + [last];
      FirstKept(Pushed(self, rt, init), rt + init, last);
    }
  }

  lemma PushedLast(self: NodeId, rt: seq<Contact>, contacts: seq<Contact>)
    ensures contacts == [] ==> Pushed(self, rt, contacts) == rt
    ensures contacts != [] ==>
              var n := |contacts| - 1;
              var r := Pushed(self, rt, contacts[..n]);
              Pushed(self, rt, contacts)
              == if contacts[n].nodeId == self || Known(r, contacts[n].nodeId) then r else r + [contacts[n]]
  {
  }

  lemma DistinctAreFirst(s: seq<Contact>)
    requires DistinctIds(s)
    ensures AllFirst(s, s)
  {
    forall c | c in s
      ensures Known(s, c.nodeId) && c == First(s, c.nodeId)
    {
      FirstIsUnique(s, c);
    }
  }

  /** Whatever a merge keeps is the first contact heard for its id. */
  lemma MergedFirst(own: Contact, rt: seq<Contact>, contacts: seq<Contact>)
    requires TableOk(own, rt)
    ensures AllFirst(Merged(own.nodeId, rt, contacts), rt + contacts)
  {
    var self := own.nodeId;
    assert rt[0] in rt;
    RankedDistinct(self, rt);
    PushedFirst(self, rt, contacts);
    SameMembers(SortBy(self, Pushed(self, rt, contacts)), Pushed(self, rt, contacts));
  }

  /** An id near enough to be kept at the end was near enough to be kept on the way. */
  lemma NearestEarlier(key: NodeId, s: set<NodeId>, t: set<NodeId>, k: nat, x: NodeId)
    requires x in s && x in Nearest(key, s + t, k)
    ensures x in Nearest(key, s, k)
  {
    SubsetSize(Below(key, s, Rank(key, x)), Below(key, s + t, Rank(key, x)));
  }

  /** What two merges in a row keep for an id is the first contact heard for it in all. */
  lemma TwoMergesFirst(own: Contact, rt: seq<Contact>, a: seq<Contact>, b: seq<Contact>, c: Contact)
    requires TableOk(own, rt) && c in Merged(own.nodeId, Merged(own.nodeId, rt, a), b)
    ensures Known(rt + (a + b), c.nodeId) && c == First(rt + (a + b), c.nodeId)
  {
    hide Merged, Nearest, TableOk, Ids;
    var self, x := own.nodeId, c.nodeId;
    var mid := Merged(self, rt, a);
    MergeKeepsNearest(own, rt, a);
    TwoMerges(own, rt, a, b);
    MergedFirst(own, rt, a);
    MergedFirst(own, mid, b);
    IdsConcat(rt, a);
    IdsConcat(mid, b);
    assert rt + (a + b) == rt + a + b;
    InIds(Merged(self, mid, b), c);
    if Known(mid, x) {
      FirstOfPrefix(mid, b, x);
      var d := First(mid, x);
      FirstOfPrefix(rt + a, b, x);
    } else {
      if Known(rt + a, x) {
        NearestEarlier(self, Ids(rt) + Ids(a), Ids(b), TABLE_MAX, x);
        assert false;
      }
      FirstOfSuffix(mid, b, x);
      FirstOfSuffix(rt + a, b, x);
    }
  }

  lemma InIds(s: seq<Contact>, c: Contact)
    requires c in s
    ensures c.nodeId in Ids(s)
  {
  }

  /** Tables that list the same ids in the same order are equal exactly if they agree on each id's contact. */
  lemma SameTable(a: seq<Contact>, b: seq<Contact>, la: seq<Contact>, lb: seq<Contact>)
    requires |a| == |b| && forall i :: 0 <= i < |a| ==> a[i].nodeId == b[i].nodeId
    requires AllFirst(a, la) && AllFirst(b, lb)
    ensures a == b <==> forall x :: x in Ids(a) && Known(la, x) && Known(lb, x) ==> First(la, x) == First(lb, x)
  {
    if forall x :: x in Ids(a) && Known(la, x) && Known(lb, x) ==> First(la, x) == First(lb, x) {
      forall i | 0 <= i < |a|
        ensures a[i] == b[i]
      {
        assert a[i] in a && b[i] in b && a[i].nodeId in Ids(a);
      }
    }
    if a == b {
      forall x | x in Ids(a) && Known(la, x) && Known(lb, x)
        ensures First(la, x) == First(lb, x)
      {
        var c :| c in a && c.nodeId == x;
      }
    }
  }

  /** Merging in two batches is merging at once, contacts and all. */
  lemma MergeTwiceIsOnce(own: Contact, rt: seq<Contact>, a: seq<Contact>, b: seq<Contact>)
    requires TableOk(own, rt)
    ensures var self := own.nodeId;
            Merged(self, Merged(self, rt, a), b) == Merged(self, rt, a + b)
  {
    hide Merged, TableOk;
    var self := own.nodeId;
    var twice, once := Merged(self, Merged(self, rt, a), b), Merged(self, rt, a + b);
    MergeConfluent(own, rt, a, b);
    forall c | c in twice
      ensures Known(rt + (a + b), c.nodeId) && c == First(rt + (a + b), c.nodeId)
    {
      TwoMergesFirst(own, rt, a, b, c);
    }
    MergedFirst(own, rt, a + b);
    SameTable(twice, once, rt + (a + b), rt + (a + b));
  }

  /** The batches announce the same contact for every id that both bring and that is kept. */
  ghost predicate AgreeOnKept(own: Contact, rt: seq<Contact>, a: seq<Contact>, b: seq<Contact>) {
    forall x :: x in Nearest(own.nodeId, Ids(rt) + Ids(a) + Ids(b), TABLE_MAX) && x !in Ids(rt) ==>
      (Known(a, x) && Known(b, x) ==> First(a, x) == First(b, x))
  }

  /**
   The order of two batches leaves no trace at all, if and only if they announce the same
   contact first for every new id that both bring and that is among the 64 kept.
   */
  lemma MergeConfluentTables(own: Contact, rt: seq<Contact>, a: seq<Contact>, b: seq<Contact>)
    requires TableOk(own, rt)
    ensures var self := own.nodeId;
            Merged(self, Merged(self, rt, a), b) == Merged(self, Merged(self, rt, b), a) <==> AgreeOnKept(own, rt, a, b)
  {
    hide Merged, TableOk, Nearest;
    var self := own.nodeId;
    MergeConfluent(own, rt, a, b);
    MergeTwiceIsOnce(own, rt, a, b);
    MergeTwiceIsOnce(own, rt, b, a);
    MergedFirst(own, rt, a + b);
    MergedFirst(own, rt, b + a);
    MergeKeepsNearest(own, rt, a + b);
    IdsConcat(a, b);
    assert Ids(rt) + Ids(a) + Ids(b) == Ids(rt) + Ids(a + b);
    SameTable(Merged(self, rt, a + b), Merged(self, rt, b + a), rt + (a + b), rt + (b + a));
    forall x | Known(rt + (a + b), x) && Known(rt + (b + a), x)
      ensures First(rt + (a + b), x) == First(rt + (b + a), x) <==>
              (x !in Ids(rt) && Known(a, x) && Known(b, x) ==> First(a, x) == First(b, x))
    {
      FirstOfEither(rt, a, b, x);
    }
    KnownSwapped(rt, a, b);
  }

  lemma KnownSwapped(rt: seq<Contact>, a: seq<Contact>, b: seq<Contact>)
    ensures forall x :: Known(rt + (a + b), x) <==> Known(rt + (b + a), x)
    ensures forall x :: Known(rt + (a + b), x) <==> x in Ids(rt) || x in Ids(a) || x in Ids(b)
  {
    IdsConcat(a, b);
    IdsConcat(b, a);
    IdsConcat(rt, a + b);
    IdsConcat(rt, b + a);
  }

  lemma FirstOfEither(rt: seq<Contact>, a: seq<Contact>, b: seq<Contact>, x: NodeId)
    requires Known(rt + (a + b), x) && Known(rt + (b + a), x)
    ensures First(rt + (a + b), x) == First(rt + (b + a), x) <==>
            (x !in Ids(rt) && Known(a, x) && Known(b, x) ==> First(a, x) == First(b, x))
  {
    hide First;
    KnownSwapped(rt, a, b);
    if Known(rt, x) {
      FirstOfPrefix(rt, a + b, x);
      FirstOfPrefix(rt, b + a, x);
    } else {
      IdsConcat(a, b);
      IdsConcat(b, a);
      FirstOfSuffix(rt, a + b, x);
      FirstOfSuffix(rt, b + a, x);
      if Known(a, x) {
        FirstOfPrefix(a, b, x);
      } else {
        FirstOfSuffix(a, b, x);
      }
      if Known(b, x) {
        FirstOfPrefix(b, a, x);
      } else {
        FirstOfSuffix(b, a, x);
      }
    }
  }

  /** It does leave one: a fresh node told of two addresses for one id keeps whichever it hears first. */
  lemma MergeOrderMatters(own: Contact, c: Contact, d: Contact)
    requires c.nodeId == d.nodeId != own.nodeId && c != d
    ensures TableOk(own, [own])
    ensures var self := own.nodeId;
            && Merged(self, Merged(self, [own], [c]), [d]) == [own, c]
            && Merged(self, Merged(self, [own], [d]), [c]) == [own, d]
  {
    InitialTable(own);
    MergeOne(own, c);
    MergeOne(own, d);
    MergeKnown(own, c, d);
    MergeKnown(own, d, c);
  }

  lemma MergeOne(own: Contact, c: Contact)
    requires c.nodeId != own.nodeId
    ensures Merged(own.nodeId, [own], [c]) == [own, c]
  {
    var self := own.nodeId;
    assert [c][..0] == [] && Pushed(self, [own], []) == [own];
    assert [own][0].nodeId == own.nodeId;
    assert !Known([own], c.nodeId);
    assert Pushed(self, [own], [c]) == [own] + [c] == [own, c];
    SortPair(own, c);
  }

  lemma MergeKnown(own: Contact, c: Contact, d: Contact)
    requires c.nodeId == d.nodeId != own.nodeId
    ensures Merged(own.nodeId, [own, c], [d]) == [own, c]
  {
    var self, two := own.nodeId, [own, c];
    assert [d][..0] == [] && Pushed(self, two, []) == two;
    assert two[1].nodeId == d.nodeId;
    assert Known(two, d.nodeId);
    assert Pushed(self, two, [d]) == two;
    SortPair(own, c);
  }

  /** A node's own contact sorts in front of any other. */
  lemma SortPair(own: Contact, c: Contact)
    requires c.nodeId != own.nodeId
    ensures SortBy(own.nodeId, [own, c]) == [own, c]
  {
    var self := own.nodeId;
    SelfIsNearest(self);
    NearerIsRank(self, own.nodeId, c.nodeId);
    NearerIsRank(self, c.nodeId, own.nodeId);
    assert [own, c][..1] == [own] && [own][..0] == [];
    assert SortBy(self, []) == [];
    assert SortBy(self, [own]) == Inserted(self, own, []) == [own];
    assert Inserted(self, c, []) == [c];
    assert [own][1..] == [];
    assert Inserted(self, c, [own]) == [own] + [c];
  }

  /** A contact once in the table is never replaced by another one for the same id. */
  lemma FirstHeardStays(own: Contact, rt: seq<Contact>, contacts: seq<Contact>)
    requires TableOk(own, rt)
    ensures forall c :: c in Merged(own.nodeId, rt, contacts) && Known(rt, c.nodeId) ==> c in rt
  {
    var self := own.nodeId;
    var all := Pushed(self, rt, contacts);
    assert rt[0] in rt;
    RankedDistinct(self, rt);
    PushedIds(self, rt, contacts);
    SameMembers(SortBy(self, all), all);
    forall c | c in Merged(self, rt, contacts) && Known(rt, c.nodeId)
      ensures c in rt
    {
      assert c in SortBy(self, all);
      var i :| 0 <= i < |all| && all[i] == c;
      var j :| 0 <= j < |rt| && rt[j].nodeId == c.nodeId;
      assert all[j] == rt[j];
    }
  }

  lemma TwoMerges(own: Contact, rt: seq<Contact>, a: seq<Contact>, b: seq<Contact>)
    requires TableOk(own, rt)
    ensures var r := Merged(own.nodeId, Merged(own.nodeId, rt, a), b);
            && TableOk(own, r)
            && Ids(r) == Nearest(own.nodeId, Ids(rt) + Ids(a) + Ids(b), TABLE_MAX)
  {
    hide Merged, Nearest, Ids;
    MergeKeepsNearest(own, rt, a);
    MergeKeepsNearest(own, Merged(own.nodeId, rt, a), b);
    NearestOfPart(own.nodeId, Ids(rt) + Ids(a), Ids(b), TABLE_MAX);
  }

  lemma IdsConcat(a: seq<Contact>, b: seq<Contact>)
    ensures Ids(a + b) == Ids(a) + Ids(b)
  {
    forall x | x in Ids(a) + Ids(b)
      ensures x in Ids(a + b)
    {
      var c :| (c in a || c in b) && c.nodeId == x;
      assert c in a + b;
    }
  }

  /**
   `closest` returns min(k, table size) contacts of the table, nearest first, and every
   contact it leaves out is strictly farther from the key than every one it returns.
   */
  lemma ClosestIsNearest(own: Contact, rt: seq<Contact>, key: NodeId, k: nat)
    requires TableOk(own, rt)
    ensures var r := Closest(rt, key, k);
            && |r| == (if k < |rt| then k else |rt|)
            && Ranked(key, r) && (forall c :: c in r ==> c in rt)
            && (forall c, d :: c in r && d in rt && d !in r ==> Rank(key, c.nodeId) < Rank(key, d.nodeId))
            && Ids(r) == Nearest(key, Ids(rt), k)
  {
    hide Nearest, Rank, SortBy, Ids;
    var s := SortBy(key, rt);
    RankedDistinct(own.nodeId, rt);
    SortedRanked(key, rt);
    SameMembers(s, rt);
    TakeIsNearest(key, s, k);
    TakeOmitsFarther(key, s, k);
  }

  lemma TakeOmitsFarther(key: NodeId, s: seq<Contact>, k: nat)
    requires Ranked(key, s)
    ensures Ranked(key, Take(s, k)) && forall c :: c in Take(s, k) ==> c in s
    ensures forall c, d :: c in Take(s, k) && d in s && d !in Take(s, k) ==> Rank(key, c.nodeId) < Rank(key, d.nodeId)
  {
    hide Rank;
    var r := Take(s, k);
    assert forall m :: 0 <= m < |r| ==> r[m] == s[m] && s[m] in r;
  }
}
