/**
 Scalars of Curve25519: residues modulo the group order, with the canonical
 32-byte little-endian encoding that the header slots carry.
 */
module Scalars {
  import opened Octets

  const ELL: int := 7237005577332262213973186563042994240857116359379907606001950938285454250989

  type Scalar = x: int | 0 <= x < ELL

  function Mul(x: Scalar, y: Scalar): Scalar {
    (x * y) % ELL
  }

  lemma Pow256Quarter()
    ensures Pow256(8) == 0x1_0000_0000_0000_0000
  {
    assert Pow256(4) == 0x1_0000_0000;
    Pow256Add(4, 4);
  }

  lemma EllFits()
    ensures ELL < Pow256(32)
  {
    Pow256Quarter();
    Pow256Add(8, 8);
    Pow256Add(16, 16);
  }

  lemma {:induction false} Pow256Add(m: nat, n: nat)
    ensures Pow256(m + n) == Pow256(m) * Pow256(n)
  {
    if m > 0 {
      Pow256Add(m - 1, n);
      assert Pow256(m + n) == 256 * (Pow256(m - 1) * Pow256(n));
      assert 256 * (Pow256(m - 1) * Pow256(n)) == (256 * Pow256(m - 1)) * Pow256(n);
    }
  }

  /** `Scalar::to_bytes`. */
  function ScalarBytes(x: Scalar): (b: Bytes32)
    ensures FromBytesModOrder(b) == x
  {
    EllFits();
    LeRoundTrip(x, 32);
    assert x % ELL == x;
    ToLe(x, 32)
  }

  /** `Scalar::from_bytes_mod_order`. */
  function FromBytesModOrder(b: Bytes32): Scalar {
    FromLe(b) % ELL
  }

  lemma ModAddMultiple(x: int, q: int, m: int)
    requires m > 0
    ensures (x + q * m) % m == x % m
  {
    var a := x / m;
    assert x == a * m + x % m;
    assert (a + q) * m == a * m + q * m;
    assert x + q * m == (a + q) * m + x % m;
    DivModUnique(x + q * m, a + q, x % m, m);
  }

  lemma DivModUnique(x: int, q: int, r: int, m: int)
    requires m > 0 && 0 <= r < m && x == q * m + r
    ensures x % m == r
  {
    var d := x / m - q;
    assert x == (x / m) * m + x % m;
    assert d * m == (x / m) * m - q * m;
    NonzeroMultiple(d, m);
  }

  lemma {:induction false} NonzeroMultiple(d: int, m: int)
    requires m > 0
    ensures d == 0 || d * m >= m || d * m <= -m
    decreases if d < 0 then -d else d
  {
    if d > 1 {
      NonzeroMultiple(d - 1, m);
      assert d * m == (d - 1) * m + m;
    } else if d < -1 {
      NonzeroMultiple(d + 1, m);
      assert d * m == (d + 1) * m - m;
    }
  }

  lemma Products(a: int, b: int, c: int)
    ensures (a * b) * c == a * (b * c) && (a * b) * c == (a * c) * b
  {
  }

  lemma Distributes(a: int, b: int, c: int)
    ensures (a + b) * c == a * c + b * c
  {
  }

  lemma Commutes(a: int, b: int)
    ensures a * b == b * a
  {
  }

  /** Reducing a factor first does not change the reduced product. */
  lemma ModMulLeft(a: int, z: int, m: int)
    requires m > 0
    ensures ((a % m) * z) % m == (a * z) % m
  {
    var k, r := a / m, a % m;
    assert a == k * m + r;
    Distributes(k * m, r, z);
    Products(k, m, z);
    ModAddMultiple(r * z, k * z, m);
  }

  lemma ModAssoc(x: int, y: int, z: int, m: int)
    requires m > 0
    ensures (((x * y) % m) * z) % m == (x * ((y * z) % m)) % m
  {
    ModMulLeft(x * y, z, m);
    ModMulLeft(y * z, x, m);
    Commutes((y * z) % m, x);
    Products(x, y, z);
    Commutes(y * z, x);
  }

  /** Blinding step by step is blinding by the accumulated product. */
  lemma MulAssoc(x: Scalar, y: Scalar, z: Scalar)
    ensures Mul(Mul(x, y), z) == Mul(x, Mul(y, z))
  {
    ModAssoc(x, y, z, ELL);
  }

  lemma MulOne(x: Scalar)
    ensures Mul(x, 1) == x && Mul(1, x) == x
  {
  }
}
