/**
 The XOR metric: distances are byte strings compared lexicographically. Read as
 big-endian numbers they become ranks, and for a fixed key different ids have
 different ranks, so "nearer" is a strict total order on ids.
 */
module Metric {
  import opened Octets
  import opened Identity

  function Pow2(n: nat): (p: nat)
    ensures p >= 1
  {
    if n == 0 then 1 else 2 * Pow2(n - 1)
  }

  /** The exclusive or of the low n bits: a bit is set where exactly one of the two is. */
  function XorBits(x: nat, y: nat, n: nat): (z: nat)
    ensures z < Pow2(n)
  {
    if n == 0 then 0 else (if x % 2 == y % 2 then 0 else 1) + 2 * XorBits(x / 2, y / 2, n - 1)
  }

  function Xor(x: byte, y: byte): byte {
    assert Pow2(8) == 256;
    XorBits(x, y, 8)
  }

  lemma {:induction false} XorBitsCancel(a: nat, b: nat, k: nat, n: nat)
    requires a < Pow2(n) && b < Pow2(n) && XorBits(a, k, n) == XorBits(b, k, n)
    ensures a == b
  {
    if n > 0 {
      XorBitsCancel(a / 2, b / 2, k / 2, n - 1);
    }
  }

  lemma XorCancels(a: byte, b: byte, k: byte)
    requires Xor(a, k) == Xor(b, k)
    ensures a == b
  {
    hide XorBits;
    assert Pow2(8) == 256;
    XorBitsCancel(a, b, k, 8);
  }

  lemma {:induction false} XorBitsSelf(a: nat, n: nat)
    ensures XorBits(a, a, n) == 0
  {
    if n > 0 {
      XorBitsSelf(a / 2, n - 1);
    }
  }

  /** `dist`: the byte-wise XOR. */
  function Dist(a: NodeId, b: NodeId): (d: Bytes)
    ensures |d| == 20 && forall i :: 0 <= i < 20 ==> d[i] == Xor(a[i], b[i])
  {
    seq(20, i requires 0 <= i < 20 => Xor(a[i], b[i]))
  }

  lemma DistCancels(a: NodeId, b: NodeId, key: NodeId)
    requires Dist(a, key) == Dist(b, key)
    ensures a == b
  {
    forall i | 0 <= i < 20
      ensures a[i] == b[i]
    {
      assert Dist(a, key)[i] == Dist(b, key)[i];
      XorCancels(a[i], b[i], key[i]);
    }
  }

  lemma {:induction false} XorBitsUndone(a: nat, k: nat, n: nat)
    requires a < Pow2(n)
    ensures XorBits(XorBits(a, k, n), k, n) == a
    ensures XorBits(a, k, n) == XorBits(k, a, n)
  {
    if n > 0 {
      XorBitsUndone(a / 2, k / 2, n - 1);
    }
  }

  /** Distance is symmetric, and for every distance there is exactly one id at that distance from a key. */
  lemma DistUndone(a: NodeId, key: NodeId)
    ensures Dist(a, key) == Dist(key, a)
    ensures Dist(Dist(a, key), key) == a
  {
    hide XorBits;
    assert Pow2(8) == 256;
    forall i | 0 <= i < 20
      ensures Dist(a, key)[i] == Dist(key, a)[i] && Dist(Dist(a, key), key)[i] == a[i]
    {
      XorBitsUndone(a[i], key[i], 8);
    }
  }

  /** The order of byte vectors. */
  predicate LexLess(a: Bytes, b: Bytes) {
    if b == [] then false
    else if a == [] then true
    else a[0] < b[0] || (a[0] == b[0] && LexLess(a[1..], b[1..]))
  }

  /** The big-endian number of a byte string. */
  function Number(b: Bytes): nat {
    if b == [] then 0 else b[0] * Pow256(|b| - 1) + Number(b[1..])
  }

  lemma {:induction false} NumberBound(b: Bytes)
    ensures Number(b) < Pow256(|b|)
  {
    if b != [] {
      NumberBound(b[1..]);
      Digit(b[0], 255, Pow256(|b| - 1), Number(b[1..]));
    }
  }

  lemma Digit(d: nat, e: nat, p: nat, low: nat)
    requires low < p && d <= e
    ensures d * p + low < e * p + p
    ensures d < e ==> d * p + low < e * p
  {
    if d < e {
      assert e * p == d * p + (e - d) * p;
      assert (e - d) * p >= p by {
        Product(e - d, p);
      }
    }
  }

  lemma Product(n: nat, p: nat)
    requires n >= 1
    ensures n * p >= p
  {
    assert n * p == p + (n - 1) * p;
  }

  /** For equal lengths the lexicographic order is the order of the numbers. */
  lemma {:induction false} LexIsNumeric(a: Bytes, b: Bytes)
    requires |a| == |b|
    ensures LexLess(a, b) <==> Number(a) < Number(b)
    ensures a == b <==> Number(a) == Number(b)
  {
    if a != [] {
      var p := Pow256(|a| - 1);
      NumberBound(a[1..]);
      NumberBound(b[1..]);
      if a[0] < b[0] {
        Digit(a[0], b[0], p, Number(a[1..]));
      } else if b[0] < a[0] {
        Digit(b[0], a[0], p, Number(b[1..]));
      } else {
        LexIsNumeric(a[1..], b[1..]);
        assert a == b <==> a[1..] == b[1..] by {
          assert a == [a[0]] + a[1..] && b == [b[0]] + b[1..];
        }
      }
    }
  }

  /** How far an id is from a key. */
  function Rank(key: NodeId, id: NodeId): nat {
    Number(Dist(id, key))
  }

  /** The comparison the source sorts by, as an order on ranks; only one id has a given rank. */
  lemma NearerIsRank(key: NodeId, a: NodeId, b: NodeId)
    ensures LexLess(Dist(a, key), Dist(b, key)) <==> Rank(key, a) < Rank(key, b)
    ensures Rank(key, a) == Rank(key, b) <==> a == b
  {
    LexIsNumeric(Dist(a, key), Dist(b, key));
    if Dist(a, key) == Dist(b, key) {
      DistCancels(a, b, key);
    }
  }

  lemma {:induction false} NumberZero(b: Bytes)
    requires forall i :: 0 <= i < |b| ==> b[i] == 0
    ensures Number(b) == 0
  {
    if b != [] {
      NumberZero(b[1..]);
    }
  }

  /** Nothing is nearer to a node than itself. */
  lemma SelfIsNearest(id: NodeId)
    ensures Rank(id, id) == 0
  {
    forall i | 0 <= i < 20
      ensures Dist(id, id)[i] == 0
    {
      XorBitsSelf(id[i], 8);
    }
    NumberZero(Dist(id, id));
  }
}
