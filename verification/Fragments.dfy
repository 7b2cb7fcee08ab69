/**
 CREATE fragments `[total u16][idx u16][chunk]` and their reassembly, keyed by
 circuit id, from any arrival order.
 */
module Fragments {
  import opened Wrappers
  import opened Octets
  import opened Cells

  const CHUNK := 1268 // CELL_DATA - 4

  /** `len.div_ceil(CHUNK).max(1)`: how many chunks a payload needs. */
  function Chunks(len: nat): (n: nat)
    ensures n > 0 && len <= 1268 * n && (n == 1 || 1268 * (n - 1) < len)
  {
    if len == 0 then 1 else (len + 1267) / 1268
  }

  /** The fragment count as written on the wire: `as u16` keeps the low 16 bits. */
  function Total(payload: Bytes): u16 {
    Chunks(|payload|) % 0x1_0000
  }

  function ChunkAt(payload: Bytes, i: nat): (c: Bytes)
    ensures |c| <= CHUNK
  {
    if 1268 * i >= |payload| then []
    else if 1268 * (i + 1) <= |payload| then payload[1268 * i..1268 * (i + 1)]
    else payload[1268 * i..]
  }

  function FragmentAt(payload: Bytes, i: nat): Bytes
    requires i < 0x1_0000
  {
    Le16(Total(payload)) + Le16(i) + ChunkAt(payload, i)
  }

  function Fragmented(payload: Bytes): (frags: seq<Bytes>)
    ensures |frags| == Total(payload)
    ensures forall i :: 0 <= i < |frags| ==> frags[i] == FragmentAt(payload, i)
  {
    seq(Total(payload), i requires 0 <= i < 0x1_0000 => FragmentAt(payload, i))
  }

  /** Chunk i as the slice the loop takes; the count on the wire never exceeds the chunks there are. */
  lemma ChunkSlice(payload: Bytes, i: nat)
    requires i < Total(payload)
    ensures var a, b := 1268 * i, if 1268 * (i + 1) <= |payload| then 1268 * (i + 1) else |payload|;
            a <= b <= |payload| && ChunkAt(payload, i) == payload[a..b]
  {
    var n := Chunks(|payload|);
    assert i < n;
  }

  method Fragment(payload: Bytes) returns (frags: seq<Bytes>)
    ensures frags == Fragmented(payload)
  {
    hide Total, ChunkAt;
    var cnt: u16 := Total(payload);
    frags := [];
    for i := 0 to cnt
      invariant |frags| == i && forall j :: 0 <= j < i ==> frags[j] == FragmentAt(payload, j)
    {
      ChunkSlice(payload, i);
      var a := 1268 * i;
      var b := if 1268 * (i + 1) <= |payload| then 1268 * (i + 1) else |payload|;
      var p := Le16(cnt) + Le16(i);
      p := p + payload[a..b];
      frags := frags + [p];
    }
  }

  function ParseFrag(payload: Bytes): Result<(u16, u16, Bytes), NetError> {
    if |payload| < 4 then Err(TooShort)
    else Ok((Get16(payload[..2]), Get16(payload[2..4]), payload[4..]))
  }

  // ---- reassembly ----

  datatype FragBuf = FragBuf(total: u16, got: seq<Option<Bytes>>, count: nat)

  function NoneSlots(n: nat): (s: seq<Option<Bytes>>)
    ensures |s| == n && forall i :: 0 <= i < n ==> s[i] == None
  {
    seq(n, _ => None)
  }

  function Slot(fb: FragBuf, idx: nat, chunk: Bytes): FragBuf {
    if idx < |fb.got| && fb.got[idx].None?
    then FragBuf(fb.total, fb.got[idx := Some(chunk)], fb.count + 1)
    else fb
  }

  predicate AllSome(got: seq<Option<Bytes>>) {
    forall i :: 0 <= i < |got| ==> got[i].Some?
  }

  function Joined(got: seq<Option<Bytes>>): Bytes
    requires AllSome(got)
  {
    if got == [] then [] else got[0].value + Joined(got[1..])
  }

  /** The specification of `reassemble`: what it returns and the table it leaves. */
  function Reassembled(bufs: map<u32, FragBuf>, cid: u32, idx: u16, total: u16, chunk: Bytes):
    (Option<Bytes>, map<u32, FragBuf>)
  {
    var before := if cid in bufs && bufs[cid].total == total then bufs[cid] else FragBuf(total, NoneSlots(total), 0);
    var fb := Slot(before, idx, chunk);
    if fb.count != total then (None, bufs[cid := fb])
    else if AllSome(fb.got) then (Some(Joined(fb.got)), bufs - {cid})
    else (None, bufs[cid := fb.(got := [])]) // `slot?` on a missing slot, the vector already drained
  }

  class FragTable {
    var bufs: map<u32, FragBuf>

    constructor ()
      ensures bufs == map[]
    {
      bufs := map[];
    }

    method Reassemble(cid: u32, idx: u16, total: u16, chunk: Bytes) returns (r: Option<Bytes>)
      modifies this
      ensures (r, bufs) == Reassembled(old(bufs), cid, idx, total, chunk)
    {
      hide AllSome, Joined;
      if cid !in bufs {
        bufs := bufs[cid := FragBuf(total, NoneSlots(total), 0)];
      }
      if bufs[cid].total != total {
        bufs := bufs[cid := FragBuf(total, NoneSlots(total), 0)];
      }
      var fb := bufs[cid];
      if idx as int < |fb.got| && fb.got[idx].None? {
        fb := FragBuf(fb.total, fb.got[idx := Some(chunk)], fb.count + 1);
        bufs := bufs[cid := fb];
      }
      assert bufs == old(bufs)[cid := fb];
      if fb.count == fb.total {
        bufs := bufs[cid := fb.(got := [])];
        assert bufs == old(bufs)[cid := fb.(got := [])];
        var out := JoinSlots(fb.got);
        if out.Some? {
          bufs := bufs - {cid};
          assert bufs == old(bufs) - {cid};
        }
        return out;
      }
      return None;
    }
  }

  /** The draining loop of `reassemble`: `slot?` gives up at the first missing slot. */
  method JoinSlots(slots: seq<Option<Bytes>>) returns (r: Option<Bytes>)
    ensures r == if AllSome(slots) then Some(Joined(slots)) else None
  {
    var out: Bytes := [];
    for i := 0 to |slots|
      invariant AllSome(slots[i..]) <==> AllSome(slots)
      invariant AllSome(slots) ==> out + Joined(slots[i..]) == Joined(slots)
    {
      if slots[i].None? {
        return None;
      }
      var rest := slots[i..];
      assert rest[1..] == slots[i + 1..] && rest[0] == slots[i];
      assert AllSome(rest) <==> AllSome(rest[1..]) by {
        assert rest == [rest[0]] + rest[1..];
      }
      ghost var before := out;
      out := out + slots[i].value;
      assert AllSome(slots) ==> before + Joined(rest) == out + Joined(rest[1..]);
    }
    assert slots[|slots|..] == [] && out + [] == out;
    return Some(out);
  }

  // ---- the table invariant ----

  function CountSome(got: seq<Option<Bytes>>): (n: nat)
    ensures n <= |got|
  {
    if got == [] then 0 else (if got[0].Some? then 1 else 0) + CountSome(got[1..])
  }

  /** A stored buffer is always short of at least one fragment, and its counter is right. */
  predicate BufOk(fb: FragBuf) {
    |fb.got| == fb.total as int && fb.count == CountSome(fb.got) && fb.count < fb.total as int
  }

  predicate TableOk(bufs: map<u32, FragBuf>) {
    forall cid :: cid in bufs ==> BufOk(bufs[cid])
  }

  lemma {:induction false} CountFull(got: seq<Option<Bytes>>)
    ensures CountSome(got) == |got| <==> AllSome(got)
  {
    if got != [] {
      CountFull(got[1..]);
      assert AllSome(got) <==> got[0].Some? && AllSome(got[1..]);
    }
  }

  lemma {:induction false} CountFill(got: seq<Option<Bytes>>, i: nat, chunk: Bytes)
    requires i < |got| && got[i].None?
    ensures CountSome(got[i := Some(chunk)]) == CountSome(got) + 1
  {
    var after := got[i := Some(chunk)];
    if i > 0 {
      CountFill(got[1..], i - 1, chunk);
      assert after[1..] == got[1..][i - 1 := Some(chunk)];
    } else {
      assert after[1..] == got[1..];
    }
  }

  lemma {:induction false} CountNone(n: nat)
    ensures CountSome(NoneSlots(n)) == 0
  {
    if n > 0 {
      CountNone(n - 1);
      assert NoneSlots(n)[1..] == NoneSlots(n - 1);
    }
  }

  /**
   Whatever fragments arrive (changing totals, zero totals, indices out of range), the
   table stays well formed, a missing slot is never met while joining, and a result is
   returned exactly when the counter reaches the total.
   */
  lemma TableKept(bufs: map<u32, FragBuf>, cid: u32, idx: u16, total: u16, chunk: Bytes)
    requires TableOk(bufs)
    ensures var (r, after) := Reassembled(bufs, cid, idx, total, chunk);
            && TableOk(after)
            && (r.Some? <==> cid !in after)
            && after - {cid} == bufs - {cid}
  {
    CountNone(total);
    var before := if cid in bufs && bufs[cid].total == total then bufs[cid] else FragBuf(total, NoneSlots(total), 0);
    if idx as int < |before.got| && before.got[idx].None? {
      CountFill(before.got, idx, chunk);
    }
    CountFull(Slot(before, idx, chunk).got);
  }

  /** A fragment with another total is answered as if nothing had been held for its circuit. */
  lemma OtherTotalRestarts(bufs: map<u32, FragBuf>, cid: u32, idx: u16, total: u16, chunk: Bytes)
    requires cid in bufs && bufs[cid].total != total
    ensures Reassembled(bufs, cid, idx, total, chunk) == Reassembled(bufs - {cid}, cid, idx, total, chunk)
  {
    hide AllSome, Joined, Slot;
    var before := FragBuf(total, NoneSlots(total), 0);
    var fb := Slot(before, idx, chunk);
    assert bufs[cid := fb] == (bufs - {cid})[cid := fb];
    assert bufs[cid := fb.(got := [])] == (bufs - {cid})[cid := fb.(got := [])];
    assert bufs - {cid} == (bufs - {cid}) - {cid};
  }

  // ---- any order ----

  /** The indices 0 .. n - 1. */
  function Idx(n: nat): (d: set<nat>)
    ensures forall i: nat :: i in d <==> i < n
  {
    if n == 0 then {} else Idx(n - 1) + {n - 1}
  }

  lemma {:induction false} IdxSize(n: nat)
    ensures |Idx(n)| == n
  {
    if n > 0 {
      IdxSize(n - 1);
    }
  }

  lemma ProperIsSmaller(d: set<nat>, n: nat)
    requires d <= Idx(n)
    ensures |d| <= n && (|d| == n <==> d == Idx(n))
  {
    IdxSize(n);
    SubsetSize(d, Idx(n));
  }

  function Slots(payload: Bytes, d: set<nat>): (s: seq<Option<Bytes>>)
    ensures |s| == Chunks(|payload|)
    ensures forall i :: 0 <= i < |s| ==> s[i] == if i in d then Some(ChunkAt(payload, i)) else None
  {
    seq(Chunks(|payload|), i requires 0 <= i => if i in d then Some(ChunkAt(payload, i)) else None)
  }

  /** Nothing is held for `cid`, or leftovers of something with another fragment count. */
  predicate Stale(bufs: map<u32, FragBuf>, cid: u32, payload: Bytes) {
    cid in bufs ==> bufs[cid].total != Total(payload)
  }

  /** Apart from leftovers the table holds exactly the fragments `d` of `payload` for circuit `cid`. */
  ghost predicate Collected(bufs: map<u32, FragBuf>, cid: u32, payload: Bytes, d: set<nat>) {
    if d == {} then Stale(bufs, cid, payload)
    else cid in bufs && bufs[cid] == FragBuf(Total(payload), Slots(payload, d), |d|)
  }

  /** The largest payload whose fragment count fits its 16-bit field. */
  const MAX_FRAGMENTED := 83_098_380 // 65535 * 1268

  lemma TotalExact(payload: Bytes)
    ensures Total(payload) == Chunks(|payload|) <==> |payload| <= MAX_FRAGMENTED
  {
  }

  lemma {:induction false} JoinedSuffix(payload: Bytes, k: nat)
    requires k <= Chunks(|payload|)
    ensures var s := Slots(payload, Idx(Chunks(|payload|)));
            && AllSome(s[k..])
            && Joined(s[k..]) == if 1268 * k <= |payload| then payload[1268 * k..] else []
    decreases Chunks(|payload|) - k
  {
    hide Slots, ChunkAt, Chunks, Idx;
    var n := Chunks(|payload|);
    var s := Slots(payload, Idx(n));
    if k == n {
      assert s[n..] == [];
    } else {
      JoinedSuffix(payload, k + 1);
      ChunkThenRest(payload, k);
      JoinedFirst(s[k..], ChunkAt(payload, k), s[k + 1..]);
    }
  }

  lemma JoinedFirst(got: seq<Option<Bytes>>, chunk: Bytes, rest: seq<Option<Bytes>>)
    requires got != [] && got[0] == Some(chunk) && got[1..] == rest && AllSome(rest)
    ensures AllSome(got) && Joined(got) == chunk + Joined(rest)
  {
    assert got == [got[0]] + rest;
  }

  lemma ChunkThenRest(payload: Bytes, k: nat)
    requires k < Chunks(|payload|)
    ensures 1268 * k <= |payload|
    ensures payload[1268 * k..]
            == ChunkAt(payload, k) + if 1268 * (k + 1) <= |payload| then payload[1268 * (k + 1)..] else []
  {
    if 1268 * (k + 1) <= |payload| {
      assert payload[1268 * k..] == payload[1268 * k..1268 * (k + 1)] + payload[1268 * (k + 1)..];
    }
  }

  /** Feeding fragment `i`: the last missing one completes the payload, any other is kept. */
  lemma FeedFragment(bufs: map<u32, FragBuf>, cid: u32, payload: Bytes, d: set<nat>, i: u16)
    requires |payload| <= MAX_FRAGMENTED
    requires d < Idx(Chunks(|payload|)) && i < Chunks(|payload|)
    requires Collected(bufs, cid, payload, d)
    ensures var (r, after) := Reassembled(bufs, cid, i, Total(payload), ChunkAt(payload, i));
            if d + {i} == Idx(Chunks(|payload|)) then r == Some(payload) && after == bufs - {cid}
            else r == None && Collected(after, cid, payload, d + {i}) && after - {cid} == bufs - {cid}
  {
    hide Slot, Slots, Joined, Chunks, Idx, ChunkAt;
    var n := Chunks(|payload|);
    TotalExact(payload);
    var d': set<nat> := d + {i};
    ProperIsSmaller(d, n);
    ProperIsSmaller(d', n);
    var before := if d == {} then FragBuf(n, NoneSlots(n), 0) else bufs[cid];
    assert before == FragBuf(n, Slots(payload, d), |d|) by {
      assert d == {} ==> NoneSlots(n) == Slots(payload, d);
    }
    SlotFills(payload, d, i);
    if d' == Idx(n) {
      JoinedSuffix(payload, 0);
      assert Slots(payload, d')[0..] == Slots(payload, d');
      assert payload[1268 * 0..] == payload;
    }
  }

  lemma SlotFills(payload: Bytes, d: set<nat>, i: u16)
    requires Total(payload) == Chunks(|payload|) && i < Chunks(|payload|)
    ensures Slot(FragBuf(Total(payload), Slots(payload, d), |d|), i, ChunkAt(payload, i))
            == FragBuf(Total(payload), Slots(payload, d + {i}), |d + {i}|)
  {
    if i in d {
      assert d + {i} == d;
    } else {
      assert Slots(payload, d)[i := Some(ChunkAt(payload, i))] == Slots(payload, d + {i});
    }
  }

  datatype Event = Event(cid: u32, idx: u16, total: u16, chunk: Bytes)

  /** Feeding a whole list of fragments: one answer per fragment and the final table. */
  function Feed(bufs: map<u32, FragBuf>, es: seq<Event>): (r: (seq<Option<Bytes>>, map<u32, FragBuf>))
    ensures |r.0| == |es|
  {
    if es == [] then ([], bufs)
    else
      var n := |es| - 1;
      var (outs, mid) := Feed(bufs, es[..n]);
      var (out, after) := Reassembled(mid, es[n].cid, es[n].idx, es[n].total, es[n].chunk);
      (outs + [out], after)
  }

  /** Hence any list of fragments whatever leaves a well-formed table. */
  lemma {:induction false} FeedKept(bufs: map<u32, FragBuf>, es: seq<Event>)
    requires TableOk(bufs)
    ensures TableOk(Feed(bufs, es).1)
  {
    hide Reassembled, TableOk;
    if es != [] {
      var n := |es| - 1;
      FeedKept(bufs, es[..n]);
      TableKept(Feed(bufs, es[..n]).1, es[n].cid, es[n].idx, es[n].total, es[n].chunk);
    }
  }

  /** The indices seen so far on one circuit. */
  function Seen(es: seq<Event>, cid: u32): set<nat> {
    if es == [] then {}
    else
      var n := |es| - 1;
      if es[n].cid == cid then Seen(es[..n], cid) + {es[n].idx} else Seen(es[..n], cid)
  }

  ghost predicate IsFragmentOf(e: Event, payload: Bytes) {
    e.total == Total(payload) && e.idx < Chunks(|payload|) && e.chunk == ChunkAt(payload, e.idx)
  }

  ghost predicate FragmentsOf(es: seq<Event>, cid: u32, payload: Bytes) {
    forall k :: 0 <= k < |es| && es[k].cid == cid ==> IsFragmentOf(es[k], payload)
  }

  ghost predicate SilentOn(es: seq<Event>, outs: seq<Option<Bytes>>, cid: u32, upTo: nat)
    requires |es| == |outs| && upTo <= |es|
  {
    forall k :: 0 <= k < upTo && es[k].cid == cid ==> outs[k] == None
  }

  /**
   Reassembly from any order: whatever is interleaved on other circuits, however often
   fragments repeat, and whatever was left behind by a payload with another fragment count,
   the circuit stays silent until its last missing fragment, whose arrival returns exactly
   the payload and clears the circuit's entry.
   */
  lemma {:induction false} AnyOrder(bufs: map<u32, FragBuf>, es: seq<Event>, cid: u32, payload: Bytes)
    requires |payload| <= MAX_FRAGMENTED && Stale(bufs, cid, payload)
    requires FragmentsOf(es, cid, payload)
    requires es != [] ==> Seen(es[..|es| - 1], cid) != Idx(Chunks(|payload|))
    ensures var (outs, after) := Feed(bufs, es);
            if Seen(es, cid) == Idx(Chunks(|payload|)) then
              && es != [] && SilentOn(es, outs, cid, |es| - 1) && outs[|es| - 1] == Some(payload) && cid !in after
            else
              SilentOn(es, outs, cid, |es|) && Collected(after, cid, payload, Seen(es, cid))
  {
    hide Reassembled, Collected, Chunks, Total, ChunkAt;
    if es == [] {
      NothingCollected(bufs, cid, payload);
    } else {
      var init, e := es[..|es| - 1], es[|es| - 1];
      if init != [] {
        SeenBound(init, cid, payload);
        SeenGrows(init, cid);
      }
      AnyOrder(bufs, init, cid, payload);
      NextEvent(Feed(bufs, init).1, init, e, cid, payload);
    }
  }

  /** The step of AnyOrder: one more event on a table that holds what was seen. */
  lemma NextEvent(mid: map<u32, FragBuf>, init: seq<Event>, e: Event, cid: u32, payload: Bytes)
    requires |payload| <= MAX_FRAGMENTED
    requires FragmentsOf(init, cid, payload) && (e.cid == cid ==> IsFragmentOf(e, payload))
    requires Seen(init, cid) != Idx(Chunks(|payload|))
    requires Collected(mid, cid, payload, Seen(init, cid))
    ensures var (out, after) := Reassembled(mid, e.cid, e.idx, e.total, e.chunk);
            var seen := if e.cid == cid then Seen(init, cid) + {e.idx as nat} else Seen(init, cid);
            if seen == Idx(Chunks(|payload|)) then e.cid == cid && out == Some(payload) && cid !in after
            else (e.cid == cid ==> out == None) && Collected(after, cid, payload, seen)
  {
    hide Reassembled, Collected, Chunks, Total, ChunkAt;
    SeenBound(init, cid, payload);
    if e.cid == cid {
      FeedFragment(mid, cid, payload, Seen(init, cid), e.idx);
    } else {
      Untouched(mid, e, cid, payload, Seen(init, cid));
    }
  }

  lemma SeenGrows(es: seq<Event>, cid: u32)
    requires es != []
    ensures Seen(es[..|es| - 1], cid) <= Seen(es, cid)
  {
  }

  lemma NothingCollected(bufs: map<u32, FragBuf>, cid: u32, payload: Bytes)
    requires Stale(bufs, cid, payload)
    ensures Collected(bufs, cid, payload, {}) && {} != Idx(Chunks(|payload|))
  {
    assert 0 in Idx(Chunks(|payload|));
  }

  lemma {:induction false} SeenBound(es: seq<Event>, cid: u32, payload: Bytes)
    requires FragmentsOf(es, cid, payload)
    ensures Seen(es, cid) <= Idx(Chunks(|payload|))
  {
    if es != [] {
      SeenBound(es[..|es| - 1], cid, payload);
    }
  }

  /** A fragment of one circuit leaves every other circuit's buffer alone. */
  lemma Untouched(bufs: map<u32, FragBuf>, e: Event, cid: u32, payload: Bytes, d: set<nat>)
    requires e.cid != cid
    ensures var after := Reassembled(bufs, e.cid, e.idx, e.total, e.chunk).1;
            && (cid in after <==> cid in bufs) && (cid in bufs ==> after[cid] == bufs[cid])
            && (Collected(bufs, cid, payload, d) ==> Collected(after, cid, payload, d))
  {
  }

  // ---- as a function of the history ----

  /** Some event carries index i. */
  predicate Has(es: seq<Event>, i: nat) {
    exists k :: 0 <= k < |es| && es[k].idx == i
  }

  /** The first chunk to arrive for index i. */
  function First(es: seq<Event>, i: nat): Bytes
    requires Has(es, i)
  {
    if es[0].idx == i then es[0].chunk
    else
      HasRest(es, i);
      First(es[1..], i)
  }

  lemma HasRest(es: seq<Event>, i: nat)
    requires Has(es, i) && es[0].idx != i
    ensures Has(es[1..], i)
  {
    var k :| 0 <= k < |es| && es[k].idx == i;
    assert es[1..][k - 1].idx == i;
  }

  predicate Full(es: seq<Event>, total: nat) {
    forall i: nat :: i < total ==> Has(es, i)
  }

  /** The first chunks of all indices below n, in order. */
  function Whole(es: seq<Event>, n: nat): Bytes
    requires Full(es, n)
  {
    if n == 0 then [] else Whole(es, n - 1) + First(es, n - 1)
  }

  /** A circuit's events since its last result, when one more arrives: another total starts afresh. */
  function Joining(before: seq<Event>, e: Event): (now: seq<Event>)
    ensures now != [] && now[|now| - 1] == e
  {
    if before != [] && before[0].total != e.total then [e] else before + [e]
  }

  /** A circuit's events since its last result or change of total. */
  function Round(es: seq<Event>, cid: u32): seq<Event> {
    if es == [] then []
    else
      var n := |es| - 1;
      var before, e := Round(es[..n], cid), es[n];
      if e.cid != cid then before
      else if Full(Joining(before, e), e.total) then []
      else Joining(before, e)
  }

  /** The answer to the last event. */
  function AnswerTo(es: seq<Event>): Option<Bytes>
    requires es != []
  {
    var n := |es| - 1;
    var now := Joining(Round(es[..n], es[n].cid), es[n]);
    if Full(now, es[n].total) then Some(Whole(now, es[n].total)) else None
  }

  /** The table holds for `cid` the first chunks among the events `es`, which share a total. */
  ghost predicate Reflects(bufs: map<u32, FragBuf>, cid: u32, es: seq<Event>) {
    if es == [] then cid !in bufs
    else
      && cid in bufs && BufOk(bufs[cid])
      && (forall k :: 0 <= k < |es| ==> es[k].total == bufs[cid].total)
      && HoldsFirsts(bufs[cid].got, es)
  }

  ghost predicate HoldsFirsts(got: seq<Option<Bytes>>, es: seq<Event>) {
    forall i: nat :: i < |got| ==> got[i] == if Has(es, i) then Some(First(es, i)) else None
  }

  lemma {:induction false} FirstAppend(es: seq<Event>, e: Event, i: nat)
    ensures Has(es + [e], i) <==> Has(es, i) || e.idx == i
    ensures Has(es + [e], i) ==> First(es + [e], i) == if Has(es, i) then First(es, i) else e.chunk
  {
    var all := es + [e];
    assert all[|es|] == e;
    if Has(es, i) {
      var k :| 0 <= k < |es| && es[k].idx == i;
      assert all[k].idx == i;
    }
    if es == [] {
      assert all == [e];
    } else {
      assert all[1..] == es[1..] + [e];
      FirstAppend(es[1..], e, i);
      if Has(es, i) && es[0].idx != i {
        HasRest(es, i);
      }
      if Has(es[1..], i) {
        var k :| 0 <= k < |es[1..]| && es[1..][k].idx == i;
        assert es[k + 1].idx == i;
      }
    }
  }

  /** One more event fills the slot of its index, unless that index has come before or is out of range. */
  lemma SlotFirst(fb: FragBuf, es: seq<Event>, e: Event)
    requires |fb.got| == fb.total as int && fb.count == CountSome(fb.got) && HoldsFirsts(fb.got, es)
    ensures var after := Slot(fb, e.idx, e.chunk);
            && after.total == fb.total && |after.got| == |fb.got| && after.count == CountSome(after.got)
            && HoldsFirsts(after.got, es + [e])
  {
    hide First, Has;
    if e.idx as int < |fb.got| && fb.got[e.idx].None? {
      CountFill(fb.got, e.idx, e.chunk);
    }
    var after := Slot(fb, e.idx, e.chunk);
    forall i: nat | i < |after.got|
      ensures after.got[i] == if Has(es + [e], i) then Some(First(es + [e], i)) else None
    {
      FirstAppend(es, e, i);
    }
  }

  lemma {:induction false} JoinedIsWhole(got: seq<Option<Bytes>>, es: seq<Event>, n: nat)
    requires n <= |got| && HoldsFirsts(got, es) && AllSome(got)
    ensures Full(es, n) && AllSome(got[..n]) && Joined(got[..n]) == Whole(es, n)
  {
    hide First, Has;
    if n > 0 {
      JoinedIsWhole(got, es, n - 1);
      assert got[..n] == got[..n - 1] + [got[n - 1]];
      JoinedAppend(got[..n - 1], got[n - 1].value);
    }
  }

  lemma {:induction false} JoinedAppend(got: seq<Option<Bytes>>, chunk: Bytes)
    requires AllSome(got)
    ensures AllSome(got + [Some(chunk)]) && Joined(got + [Some(chunk)]) == Joined(got) + chunk
  {
    var all := got + [Some(chunk)];
    if got == [] {
      assert all == [Some(chunk)] && all[1..] == [];
    } else {
      JoinedAppend(got[1..], chunk);
      assert all[1..] == got[1..] + [Some(chunk)];
    }
  }

  /** One event: the answer and the table are what the circuit's events so far make them. */
  lemma EventReflected(bufs: map<u32, FragBuf>, es: seq<Event>, e: Event)
    requires Reflects(bufs, e.cid, es)
    ensures var (r, after) := Reassembled(bufs, e.cid, e.idx, e.total, e.chunk);
            var now := Joining(es, e);
            if Full(now, e.total) then r == Some(Whole(now, e.total)) && Reflects(after, e.cid, [])
            else r == None && Reflects(after, e.cid, now)
  {
    hide First, Has, Joined, Whole, Full, AllSome, HoldsFirsts, Slot;
    var now := Joining(es, e);
    var kept := if now == [e] then [] else es;
    assert now == kept + [e];
    var before := if e.cid in bufs && bufs[e.cid].total == e.total then bufs[e.cid]
                  else FragBuf(e.total, NoneSlots(e.total), 0);
    CountNone(e.total);
    NothingHeld(e.total);
    SlotFirst(before, kept, e);
    var fb := Slot(before, e.idx, e.chunk);
    CountFull(fb.got);
    FullExactly(fb.got, now);
    if AllSome(fb.got) {
      JoinedIsWhole(fb.got, now, e.total);
      assert fb.got[..e.total] == fb.got;
    }
  }

  lemma FullExactly(got: seq<Option<Bytes>>, es: seq<Event>)
    requires HoldsFirsts(got, es)
    ensures AllSome(got) <==> Full(es, |got|)
  {
    hide First, Has;
    if !AllSome(got) {
      var i :| 0 <= i < |got| && got[i].None?;
      assert !Has(es, i);
    }
  }

  lemma NothingHeld(n: nat)
    ensures HoldsFirsts(NoneSlots(n), [])
  {
  }

  /** An event of another circuit changes nothing for this one. */
  lemma OthersReflected(bufs: map<u32, FragBuf>, cid: u32, es: seq<Event>, e: Event)
    requires Reflects(bufs, cid, es) && e.cid != cid
    ensures Reflects(Reassembled(bufs, e.cid, e.idx, e.total, e.chunk).1, cid, es)
  {
    hide First, Has, Joined, BufOk;
  }

  /**
   Reassembly of any fragments whatever, from an empty table: an answer is given exactly when
   every index below the total has come since the circuit's last answer or change of total,
   and it is the first chunks to come for each index, in order. Repeated indices, indices out
   of range and other circuits change nothing.
   */
  lemma {:induction false} FeedIsHistory(es: seq<Event>, cid: u32)
    ensures var (outs, after) := Feed(map[], es);
            && Reflects(after, cid, Round(es, cid))
            && forall k :: 0 <= k < |es| ==> outs[k] == AnswerTo(es[..k + 1])
  {
    hide Reassembled, Reflects, Joining, Full, Whole;
    if es == [] {
      EmptyReflects(cid);
    } else {
      var n := |es| - 1;
      var (outs, mid) := Feed(map[], es[..n]);
      FeedIsHistory(es[..n], cid);
      FeedIsHistory(es[..n], es[n].cid);
      EventReflected(mid, Round(es[..n], es[n].cid), es[n]);
      if es[n].cid != cid {
        OthersReflected(mid, cid, Round(es[..n], cid), es[n]);
      }
      assert es[..n + 1] == es;
      forall k | 0 <= k < n
        ensures outs[k] == AnswerTo(es[..k + 1])
      {
        assert es[..n][..k + 1] == es[..k + 1];
      }
    }
  }

  lemma EmptyReflects(cid: u32)
    ensures Reflects(map[], cid, [])
  {
  }

  // ---- fragment, then reassemble ----

  /** The fragments of a payload as they arrive, parsed, in sending order. */
  function Arrivals(cid: u32, payload: Bytes): (es: seq<Event>)
    ensures |es| == Total(payload)
    ensures forall i :: 0 <= i < |es| ==> es[i] == Event(cid, i, Total(payload), ChunkAt(payload, i))
  {
    seq(Total(payload), i requires 0 <= i < 0x1_0000 => Event(cid, i, Total(payload), ChunkAt(payload, i)))
  }

  /** Parsing a fragment recovers what was sent. */
  lemma ParseFragment(payload: Bytes, i: u16)
    ensures ParseFrag(FragmentAt(payload, i)) == Ok((Total(payload), i, ChunkAt(payload, i)))
  {
    var f := FragmentAt(payload, i);
    assert f[..2] == Le16(Total(payload)) && f[2..4] == Le16(i) && f[4..] == ChunkAt(payload, i);
    assert Le16(Get16(f[..2])) == Le16(Total(payload)) && Le16(Get16(f[2..4])) == Le16(i);
  }

  /** A fragment is any payload of four bytes or more, the first four being the count and the index. */
  lemma ParseFragExactly(payload: Bytes, total: u16, idx: u16, chunk: Bytes)
    ensures ParseFrag(payload) == Ok((total, idx, chunk)) <==> payload == Le16(total) + Le16(idx) + chunk
    ensures ParseFrag(payload) == Err(TooShort) <==> |payload| < 4
  {
    var f := Le16(total) + Le16(idx) + chunk;
    assert f[..2] == Le16(total) && f[2..4] == Le16(idx) && f[4..] == chunk;
    assert Le16(Get16(Le16(total))) == Le16(total) && Le16(Get16(Le16(idx))) == Le16(idx);
    if |payload| >= 4 {
      assert payload == payload[..2] + payload[2..4] + payload[4..];
    }
  }

  /** What a node that has nothing buffered answers to the last fragment of a payload sent in order. */
  function Received(payload: Bytes): Option<Bytes> {
    var outs := Feed(map[], Arrivals(0, payload)).0;
    if outs == [] then None else outs[|outs| - 1]
  }

  lemma {:induction false} SeenArrivals(payload: Bytes, k: nat)
    requires k <= Total(payload)
    ensures Seen(Arrivals(0, payload)[..k], 0) == Idx(k)
  {
    var es := Arrivals(0, payload);
    if k > 0 {
      SeenArrivals(payload, k - 1);
      assert es[..k][..k - 1] == es[..k - 1];
    }
  }

  lemma ReceivedWhole(payload: Bytes)
    requires |payload| <= MAX_FRAGMENTED
    ensures Received(payload) == Some(payload)
  {
    var es := Arrivals(0, payload);
    var n := Chunks(|payload|);
    TotalExact(payload);
    SeenArrivals(payload, n);
    SeenArrivals(payload, n - 1);
    assert es[..n] == es;
    assert n - 1 in Idx(n);
    AnyOrder(map[], es, 0, payload);
  }

  /**
   Fragmenting and reassembling gives the payload back exactly when its fragment count
   fits the 16-bit total; beyond that only a prefix (or nothing) comes out.
   */
  lemma ReceivedExactly(payload: Bytes)
    ensures Received(payload) == Some(payload) <==> |payload| <= MAX_FRAGMENTED
  {
    if |payload| <= MAX_FRAGMENTED {
      ReceivedWhole(payload);
    } else if Total(payload) > 0 {
      var short := payload[..1268 * Total(payload)];
      assert Total(short) == Total(payload);
      forall i | 0 <= i < Total(payload) as int
        ensures ChunkAt(short, i) == ChunkAt(payload, i)
      {
      }
      assert Arrivals(0, short) == Arrivals(0, payload);
      ReceivedWhole(short);
    }
  }
}
