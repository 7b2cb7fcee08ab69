/** Bytes, fixed-size byte arrays and little-endian integers, as the wire formats use them. */
module Octets {

  type byte = x: int | 0 <= x < 256
  type Bytes = seq<byte>

  type u16 = x: int | 0 <= x < 0x1_0000
  type u32 = x: int | 0 <= x < 0x1_0000_0000
  type u64 = x: int | 0 <= x < 0x1_0000_0000_0000_0000

  type Bytes4 = b: Bytes | |b| == 4 witness Zeros(4)
  type Bytes12 = b: Bytes | |b| == 12 witness Zeros(12)
  type Bytes16 = b: Bytes | |b| == 16 witness Zeros(16)
  type Bytes20 = b: Bytes | |b| == 20 witness Zeros(20)
  type Bytes32 = b: Bytes | |b| == 32 witness Zeros(32)
  type Bytes64 = b: Bytes | |b| == 64 witness Zeros(64)

  function Zeros(n: nat): (b: Bytes)
    ensures |b| == n
  {
    Filled(n, 0)
  }

  function Filled(n: nat, v: byte): (b: Bytes)
    ensures |b| == n && forall i :: 0 <= i < n ==> b[i] == v
  {
    seq(n, _ => v)
  }

  /** `buf[off..off + src.len()].copy_from_slice(src)`. */
  function Splice(buf: Bytes, off: nat, src: Bytes): (b: Bytes)
    requires off + |src| <= |buf|
    ensures |b| == |buf|
  {
    buf[..off] + src + buf[off + |src|..]
  }

  function Pow256(n: nat): (p: nat)
    ensures p >= 1
  {
    if n == 0 then 1 else 256 * Pow256(n - 1)
  }

  /** The low `n` bytes of `x`, least significant first: `(x as uN).to_le_bytes()`. */
  function ToLe(x: nat, n: nat): (b: Bytes)
    ensures |b| == n
  {
    if n == 0 then [] else [x % 256] + ToLe(x / 256, n - 1)
  }

  /** `uN::from_le_bytes(b)`. */
  function FromLe(b: Bytes): nat {
    if b == [] then 0 else b[0] + 256 * FromLe(b[1..])
  }

  lemma {:induction false} FromLeBound(b: Bytes)
    ensures FromLe(b) < Pow256(|b|)
  {
    if b != [] {
      FromLeBound(b[1..]);
    }
  }

  /** Encoding then decoding keeps exactly the low bytes. */
  lemma {:induction false} LeRoundTrip(x: nat, n: nat)
    requires x < Pow256(n)
    ensures FromLe(ToLe(x, n)) == x
  {
    if n > 0 {
      LeRoundTrip(x / 256, n - 1);
      assert ToLe(x, n)[1..] == ToLe(x / 256, n - 1);
    }
  }

  lemma {:induction false} LeCanonical(b: Bytes)
    ensures ToLe(FromLe(b), |b|) == b
  {
    if b != [] {
      LeCanonical(b[1..]);
      assert FromLe(b) % 256 == b[0] && FromLe(b) / 256 == FromLe(b[1..]);
      assert b == [b[0]] + b[1..];
    }
  }

  function Le16(x: u16): (b: Bytes)
    ensures |b| == 2 && FromLe(b) == x
  {
    LeRoundTrip(x, 2);
    ToLe(x, 2)
  }

  function Le32(x: u32): (b: Bytes4)
    ensures FromLe(b) == x
  {
    LeRoundTrip(x, 4);
    ToLe(x, 4)
  }

  function Le64(x: u64): (b: Bytes)
    ensures |b| == 8 && FromLe(b) == x
  {
    LeRoundTrip(x, 8);
    ToLe(x, 8)
  }

  function Get16(b: Bytes): (x: u16)
    requires |b| == 2
    ensures Le16(x) == b
  {
    FromLeBound(b);
    LeCanonical(b);
    FromLe(b)
  }

  function Get32(b: Bytes): (x: u32)
    requires |b| == 4
    ensures Le32(x) == b
  {
    FromLeBound(b);
    LeCanonical(b);
    FromLe(b)
  }

  function Get64(b: Bytes): (x: u64)
    requires |b| == 8
    ensures Le64(x) == b
  {
    FromLeBound(b);
    LeCanonical(b);
    FromLe(b)
  }

  // ---- records of consecutive fields ----

  function Concat(parts: seq<Bytes>): Bytes {
    if parts == [] then [] else parts[0] + Concat(parts[1..])
  }

  function Sum(lens: seq<nat>): nat {
    if lens == [] then 0 else lens[0] + Sum(lens[1..])
  }

  /** Cuts `b` into consecutive fields of the given lengths. */
  function Split(b: Bytes, lens: seq<nat>): (parts: seq<Bytes>)
    requires Sum(lens) == |b|
    ensures |parts| == |lens| && forall i :: 0 <= i < |lens| ==> |parts[i]| == lens[i]
  {
    if lens == [] then [] else [b[..lens[0]]] + Split(b[lens[0]..], lens[1..])
  }

  lemma {:induction false} ConcatSplit(b: Bytes, lens: seq<nat>)
    requires Sum(lens) == |b|
    ensures Concat(Split(b, lens)) == b
  {
    if lens != [] {
      ConcatSplit(b[lens[0]..], lens[1..]);
      assert Split(b, lens)[1..] == Split(b[lens[0]..], lens[1..]);
    }
  }

  lemma {:induction false} SplitConcat(parts: seq<Bytes>, lens: seq<nat>)
    requires |parts| == |lens| && forall i :: 0 <= i < |lens| ==> |parts[i]| == lens[i]
    ensures Sum(lens) == |Concat(parts)|
    ensures Split(Concat(parts), lens) == parts
  {
    if parts != [] {
      SplitConcat(parts[1..], lens[1..]);
      assert Concat(parts)[..lens[0]] == parts[0];
      assert Concat(parts)[lens[0]..] == Concat(parts[1..]);
    }
  }

  lemma {:induction false} ConcatAppend(a: seq<Bytes>, b: seq<Bytes>)
    ensures Concat(a + b) == Concat(a) + Concat(b)
  {
    if a == [] {
      assert a + b == b;
    } else {
      ConcatAppend(a[1..], b);
      var all := a + b;
      assert all[0] == a[0] && all[1..] == a[1..] + b;
      Regroup(a[0], Concat(a[1..]), Concat(b));
    }
  }

  lemma Regroup<T>(a: seq<T>, b: seq<T>, c: seq<T>)
    ensures a + (b + c) == a + b + c
  {
  }

  lemma Slice(b: Bytes, o: nat, n: nat, i: nat, j: nat)
    requires i <= j <= n && o + n <= |b|
    ensures b[o..o + n][i..j] == b[o + i..o + j]
  {
    var s, t := b[o..o + n][i..j], b[o + i..o + j];
    assert forall k :: 0 <= k < j - i ==> s[k] == t[k];
  }

  lemma SliceTail(b: Bytes, o: nat, i: nat, j: nat)
    requires i <= j && o + j <= |b|
    ensures b[o..][i..j] == b[o + i..o + j]
  {
    Slice(b, o, |b| - o, i, j);
    assert b[o..o + (|b| - o)] == b[o..];
  }

  lemma SubsetSize<T>(a: set<T>, b: set<T>)
    requires a <= b
    ensures |a| <= |b| && (|a| == |b| <==> a == b)
  {
    assert b == a + (b - a);
    assert |b| == |a| + |b - a|;
  }

  /** Field `k` of a cut lies right after the first `k` fields. */
  lemma {:induction false} SplitAt(b: Bytes, lens: seq<nat>, k: nat)
    requires Sum(lens) == |b| && k < |lens|
    ensures Sum(lens[..k]) + lens[k] <= |b|
    ensures Split(b, lens)[k] == b[Sum(lens[..k])..Sum(lens[..k]) + lens[k]]
  {
    if k == 0 {
      assert lens[..k] == [];
    } else {
      SplitAt(b[lens[0]..], lens[1..], k - 1);
      assert lens[..k][1..] == lens[1..][..k - 1];
      var x := Sum(lens[1..][..k - 1]);
      assert Sum(lens[..k]) == lens[0] + x;
      assert b[lens[0]..][x..x + lens[k]] == b[lens[0] + x..lens[0] + x + lens[k]];
    }
  }
}
