/**
 The traffic of one circuit without its cryptography: a row of FIFO links, each hop
 passing on only sequence numbers above the last it accepted, the last hop turning
 ECHO messages around. What finally comes out does not depend on the interleaving.
 */
module Pipeline {
  import opened Octets
  import opened Cells

  datatype SendRec = SendRec(seqNo: u32, rcmd: RCmd, stream: u16, msg: Bytes)

  /** Messages that pass the MSG_MAX check. */
  type Sent = r: SendRec | |r.msg| <= MSG_MAX witness SendRec(0, Drop, 0, [])

  /**
   `fwd[i]` is on its way into hop i, `bwd[i]` on its way out of hop i towards the origin,
   `last[i]` is the highest sequence number hop i has accepted, `got` has reached the origin.
   */
  datatype Pipe = Pipe(fwd: seq<seq<Sent>>, last: seq<u32>, bwd: seq<seq<Sent>>, got: seq<Sent>)
  {
    ghost predicate Valid() {
      |fwd| > 0 && |last| == |fwd| && |bwd| == |fwd|
    }
  }

  // ---- steps ----

  function Say(p: Pipe, r: Sent): (q: Pipe)
    requires p.Valid()
    ensures q.Valid()
  {
    p.(fwd := p.fwd[0 := p.fwd[0] + [r]])
  }

  /** Hop i takes the next message from its forward link. */
  function Forward(p: Pipe, i: nat): (q: Pipe)
    requires p.Valid() && i < |p.fwd| && p.fwd[i] != []
    ensures q.Valid() && |q.fwd| == |p.fwd|
  {
    var r := p.fwd[i][0];
    var taken := p.(fwd := p.fwd[i := p.fwd[i][1..]]);
    if r.seqNo <= p.last[i] then taken
    else
      var q := taken.(last := p.last[i := r.seqNo]);
      if i + 1 < |p.fwd| then q.(fwd := q.fwd[i + 1 := q.fwd[i + 1] + [r]])
      else if r.rcmd.Echo? then q.(bwd := q.bwd[i := q.bwd[i] + [r]])
      else q
  }

  /** Position i (the origin at 0, hop i - 1 otherwise) takes the next message from backward link i. */
  function Backward(p: Pipe, i: nat): (q: Pipe)
    requires p.Valid() && i < |p.bwd| && p.bwd[i] != []
    ensures q.Valid() && |q.fwd| == |p.fwd|
  {
    var r := p.bwd[i][0];
    var taken := p.(bwd := p.bwd[i := p.bwd[i][1..]]);
    if i == 0 then taken.(got := p.got + [r])
    else taken.(bwd := taken.bwd[i - 1 := taken.bwd[i - 1] + [r]])
  }

  // ---- what will come out ----

  /** The messages a monotonic check starting at `last` lets through. */
  function Passed(last: u32, rs: seq<Sent>): seq<Sent>
    decreases rs
  {
    if rs == [] then []
    else if rs[0].seqNo <= last then Passed(last, rs[1..])
    else [rs[0]] + Passed(rs[0].seqNo, rs[1..])
  }

  lemma {:induction false} PassedShorter(last: u32, rs: seq<Sent>)
    ensures |Passed(last, rs)| <= |rs|
    decreases rs
  {
    if rs != [] {
      PassedShorter(last, rs[1..]);
      PassedShorter(rs[0].seqNo, rs[1..]);
    }
  }

  function Echoes(rs: seq<Sent>): seq<Sent> {
    if rs == [] then [] else (if rs[0].rcmd.Echo? then [rs[0]] else []) + Echoes(rs[1..])
  }

  /** What the terminal will have accepted once all links have drained, if `more` is still to be sent. */
  function Eventually(fwd: seq<seq<Sent>>, last: seq<u32>, more: seq<Sent>): seq<Sent>
    requires |fwd| == |last|
  {
    if fwd == [] then more else Eventually(fwd[1..], last[1..], Passed(last[0], fwd[0] + more))
  }

  function Joined(qs: seq<seq<Sent>>): seq<Sent> {
    if qs == [] then [] else qs[0] + Joined(qs[1..])
  }

  /** Everything the origin will have received, in order, if `more` is still to be sent. */
  function Outcome(p: Pipe, more: seq<Sent>): seq<Sent>
    requires p.Valid()
  {
    p.got + Joined(p.bwd) + Echoes(Eventually(p.fwd, p.last, more))
  }

  lemma {:induction false} EchoesAppend(a: seq<Sent>, b: seq<Sent>)
    ensures Echoes(a + b) == Echoes(a) + Echoes(b)
  {
    if a == [] {
      assert a + b == b;
    } else {
      assert (a + b)[1..] == a[1..] + b;
      EchoesAppend(a[1..], b);
    }
  }

  lemma Regroup4(a: seq<Sent>, b: seq<Sent>, c: seq<Sent>, d: seq<Sent>)
    ensures a + (b + c + d) == a + b + c + d
  {
    Regroup(a, b + c, d);
    Regroup(a, b, c);
  }

  lemma {:induction false} JoinedUpdate(qs: seq<seq<Sent>>, i: nat, q: seq<Sent>)
    requires i < |qs|
    ensures Joined(qs[i := q]) == Joined(qs[..i]) + q + Joined(qs[i + 1..])
    ensures Joined(qs) == Joined(qs[..i]) + qs[i] + Joined(qs[i + 1..])
  {
    if i == 0 {
      assert qs[0 := q][1..] == qs[1..] && qs[..0] == [];
    } else {
      JoinedUpdate(qs[1..], i - 1, q);
      assert qs[i := q][1..] == qs[1..][i - 1 := q];
      assert qs[..i][1..] == qs[1..][..i - 1] && qs[..i][0] == qs[0];
      assert qs[1..][i..] == qs[i + 1..];
      var mid, tail := Joined(qs[1..][..i - 1]), Joined(qs[i + 1..]);
      assert Joined(qs[..i]) == qs[0] + mid;
      Regroup4(qs[0], mid, q, tail);
      Regroup4(qs[0], mid, qs[i], tail);
    }
  }

  /** Saying the next message does not change what comes out. */
  lemma SayKeeps(p: Pipe, r: Sent, more: seq<Sent>)
    requires p.Valid()
    ensures Outcome(Say(p, r), more) == Outcome(p, [r] + more)
  {
    var f := Say(p, r).fwd;
    assert f[1..] == p.fwd[1..];
    assert f[0] + more == p.fwd[0] + ([r] + more);
  }

  /** The head of forward link i, rejected or moved on: what the terminal eventually accepts is the same. */
  lemma {:induction false} ForwardMoves(fwd: seq<seq<Sent>>, last: seq<u32>, more: seq<Sent>, i: nat)
    requires |fwd| == |last| && i < |fwd| && fwd[i] != []
    ensures var r := fwd[i][0];
            var f := fwd[i := fwd[i][1..]];
            if r.seqNo <= last[i] then Eventually(f, last, more) == Eventually(fwd, last, more)
            else if i + 1 < |fwd| then
              Eventually(f[i + 1 := f[i + 1] + [r]], last[i := r.seqNo], more) == Eventually(fwd, last, more)
            else [r] + Eventually(f, last[i := r.seqNo], more) == Eventually(fwd, last, more)
  {
    var r := fwd[i][0];
    var f, l := fwd[i := fwd[i][1..]], last[i := r.seqNo];
    if i == 0 {
      var rest := fwd[0][1..] + more;
      assert fwd[0] + more == [r] + rest;
      assert ([r] + rest)[1..] == rest;
      assert f[1..] == fwd[1..] && l[1..] == last[1..];
      if r.seqNo > last[0] && 1 < |fwd| {
        var g := f[1 := f[1] + [r]];
        assert g[1..][1..] == fwd[1..][1..];
        assert g[1..][0] + Passed(r.seqNo, rest) == fwd[1..][0] + ([r] + Passed(r.seqNo, rest));
      }
    } else {
      ForwardMoves(fwd[1..], last[1..], Passed(last[0], fwd[0] + more), i - 1);
      assert f[1..] == fwd[1..][i - 1 := fwd[i][1..]] && l[1..] == last[1..][i - 1 := r.seqNo];
      if i + 1 < |fwd| {
        var g := f[i + 1 := f[i + 1] + [r]];
        assert g[1..] == f[1..][i := f[1..][i] + [r]];
      }
    }
  }

  lemma ForwardKeeps(p: Pipe, i: nat, more: seq<Sent>)
    requires p.Valid() && i < |p.fwd| && p.fwd[i] != []
    ensures Outcome(Forward(p, i), more) == Outcome(p, more)
  {
    var r := p.fwd[i][0];
    ForwardMoves(p.fwd, p.last, more, i);
    if r.seqNo > p.last[i] && i + 1 == |p.fwd| {
      var q := Forward(p, i);
      var after := Eventually(q.fwd, q.last, more);
      EchoesAppend([r], after);
      assert Echoes([r]) == if r.rcmd.Echo? then [r] else [];
      if r.rcmd.Echo? {
        JoinedUpdate(p.bwd, i, p.bwd[i] + [r]);
        assert p.bwd[i + 1..] == [];
        assert Joined(q.bwd) == Joined(p.bwd) + [r];
      }
    }
  }

  /** Moving the head of one queue to the end of the one before it. */
  lemma {:induction false} JoinedShift(qs: seq<seq<Sent>>, i: nat)
    requires 0 < i < |qs| && qs[i] != []
    ensures Joined(qs[i := qs[i][1..]][i - 1 := qs[i - 1] + [qs[i][0]]]) == Joined(qs)
  {
    var r, rest := qs[i][0], qs[i][1..];
    var after := qs[i := rest][i - 1 := qs[i - 1] + [r]];
    if i == 1 {
      assert after[1..][1..] == qs[1..][1..];
      assert (qs[0] + [r]) + (rest + Joined(qs[1..][1..])) == qs[0] + (([r] + rest) + Joined(qs[1..][1..]));
      assert [r] + rest == qs[1];
    } else {
      JoinedShift(qs[1..], i - 1);
      assert after[1..] == qs[1..][i - 1 := rest][i - 2 := qs[i - 1] + [r]];
    }
  }

  lemma BackwardKeeps(p: Pipe, i: nat, more: seq<Sent>)
    requires p.Valid() && i < |p.bwd| && p.bwd[i] != []
    ensures Outcome(Backward(p, i), more) == Outcome(p, more)
  {
    var q := Backward(p, i);
    if i > 0 {
      JoinedShift(p.bwd, i);
    } else {
      var r := p.bwd[0][0];
      assert q.bwd[1..] == p.bwd[1..];
      assert p.got + Joined(p.bwd) == q.got + Joined(q.bwd) by {
        assert p.bwd[0] == [r] + q.bwd[0];
      }
    }
  }

  /** A drained pipe has delivered its whole outcome. */
  ghost predicate Drained(p: Pipe)
    requires p.Valid()
  {
    forall i :: 0 <= i < |p.fwd| ==> p.fwd[i] == [] && p.bwd[i] == []
  }

  lemma {:induction false} JoinedEmpty(qs: seq<seq<Sent>>)
    requires forall i :: 0 <= i < |qs| ==> qs[i] == []
    ensures Joined(qs) == []
  {
    if qs != [] {
      JoinedEmpty(qs[1..]);
    }
  }

  lemma {:induction false} EventuallyEmpty(fwd: seq<seq<Sent>>, last: seq<u32>)
    requires |fwd| == |last| && forall i :: 0 <= i < |fwd| ==> fwd[i] == []
    ensures Eventually(fwd, last, []) == []
  {
    if fwd != [] {
      assert fwd[0] + [] == [];
      EventuallyEmpty(fwd[1..], last[1..]);
    }
  }

  lemma DrainedOutcome(p: Pipe)
    requires p.Valid() && Drained(p)
    ensures Outcome(p, []) == p.got
  {
    JoinedEmpty(p.bwd);
    EventuallyEmpty(p.fwd, p.last);
  }

  // ---- the outcome of an empty pipe ----

  function Max(a: u32, b: u32): u32 {
    if a < b then b else a
  }

  function MaxOf(last: seq<u32>): u32 {
    if last == [] then 0 else Max(last[0], MaxOf(last[1..]))
  }

  /** Two checks in a row are one check at the higher mark. */
  lemma {:induction false} PassedTwice(a: u32, b: u32, rs: seq<Sent>)
    ensures Passed(b, Passed(a, rs)) == Passed(Max(a, b), rs)
    decreases rs
  {
    if rs != [] {
      var r := rs[0];
      if r.seqNo <= a {
        PassedTwice(a, b, rs[1..]);
      } else {
        var p := Passed(r.seqNo, rs[1..]);
        assert Passed(a, rs) == [r] + p && ([r] + p)[1..] == p;
        PassedTwice(r.seqNo, if r.seqNo <= b then b else r.seqNo, rs[1..]);
      }
    }
  }

  lemma {:induction false} EventuallyPassed(fwd: seq<seq<Sent>>, last: seq<u32>, more: seq<Sent>)
    requires |fwd| == |last| > 0 && forall i :: 0 <= i < |fwd| ==> fwd[i] == []
    ensures Eventually(fwd, last, more) == Passed(MaxOf(last), more)
  {
    assert fwd[0] + more == more;
    if |fwd| == 1 {
      assert fwd[1..] == [] && MaxOf(last[1..]) == 0;
      assert Eventually(fwd[1..], last[1..], Passed(last[0], more)) == Passed(last[0], more);
    } else {
      EventuallyPassed(fwd[1..], last[1..], Passed(last[0], more));
      PassedTwice(last[0], MaxOf(last[1..]), more);
    }
  }

  /** What an idle circuit gives back for a list of sends: the echoes among those a monotonic check passes. */
  lemma IdleOutcome(p: Pipe, more: seq<Sent>)
    requires p.Valid() && Drained(p)
    ensures Outcome(p, more) == p.got + Echoes(Passed(MaxOf(p.last), more))
  {
    JoinedEmpty(p.bwd);
    EventuallyPassed(p.fwd, p.last, more);
  }

  // ---- progress ----

  function Cost(q: seq<Sent>, each: nat): nat {
    if q == [] then 0 else each + Cost(q[1..], each)
  }

  lemma {:induction false} CostAppend(q: seq<Sent>, r: Sent, each: nat)
    ensures Cost(q + [r], each) == Cost(q, each) + each
  {
    if q == [] {
      assert q + [r] == [r] && [r][1..] == [];
    } else {
      assert (q + [r])[1..] == q[1..] + [r];
      CostAppend(q[1..], r, each);
    }
  }

  function CostAll(qs: seq<seq<Sent>>, each: seq<nat>): nat
    requires |qs| == |each|
  {
    if qs == [] then 0 else Cost(qs[0], each[0]) + CostAll(qs[1..], each[1..])
  }

  lemma {:induction false} CostUpdate(qs: seq<seq<Sent>>, each: seq<nat>, i: nat, q: seq<Sent>)
    requires |qs| == |each| && i < |qs|
    ensures CostAll(qs[i := q], each) + Cost(qs[i], each[i]) == CostAll(qs, each) + Cost(q, each[i])
  {
    if i == 0 {
      assert qs[0 := q][1..] == qs[1..];
    } else {
      CostUpdate(qs[1..], each[1..], i - 1, q);
      assert qs[i := q][1..] == qs[1..][i - 1 := q];
    }
  }

  /** How many deliveries are left at most: a message on forward link i has 2n - i to go, on backward link i, i + 1. */
  function Remaining(p: Pipe): nat
    requires p.Valid()
  {
    CostAll(p.fwd, FwdLeft(|p.fwd|)) + CostAll(p.bwd, BwdLeft(|p.fwd|))
  }

  function FwdLeft(n: nat): (w: seq<nat>)
    ensures |w| == n && forall i :: 0 <= i < n ==> w[i] == 2 * n - i
  {
    seq(n, i requires 0 <= i < n => 2 * n - i)
  }

  function BwdLeft(n: nat): (w: seq<nat>)
    ensures |w| == n && forall i :: 0 <= i < n ==> w[i] == i + 1
  {
    seq(n, i requires 0 <= i => i + 1)
  }

  lemma ForwardProgress(p: Pipe, i: nat)
    requires p.Valid() && i < |p.fwd| && p.fwd[i] != []
    ensures Remaining(Forward(p, i)) < Remaining(p)
  {
    var n, r := |p.fwd|, p.fwd[i][0];
    var f := p.fwd[i := p.fwd[i][1..]];
    CostUpdate(p.fwd, FwdLeft(n), i, p.fwd[i][1..]);
    if r.seqNo > p.last[i] && i + 1 < n {
      CostUpdate(f, FwdLeft(n), i + 1, f[i + 1] + [r]);
      CostAppend(f[i + 1], r, 2 * n - (i + 1));
    } else if r.seqNo > p.last[i] && r.rcmd.Echo? {
      CostUpdate(p.bwd, BwdLeft(n), i, p.bwd[i] + [r]);
      CostAppend(p.bwd[i], r, i + 1);
    }
  }

  lemma BackwardProgress(p: Pipe, i: nat)
    requires p.Valid() && i < |p.bwd| && p.bwd[i] != []
    ensures Remaining(Backward(p, i)) < Remaining(p)
  {
    var n, r := |p.fwd|, p.bwd[i][0];
    var b := p.bwd[i := p.bwd[i][1..]];
    CostUpdate(p.bwd, BwdLeft(n), i, p.bwd[i][1..]);
    if i > 0 {
      CostUpdate(b, BwdLeft(n), i - 1, b[i - 1] + [r]);
      CostAppend(b[i - 1], r, i);
    }
  }
}
