/**
  The scalar field of curve25519: the integers modulo the prime group order
  L = 2^252 + 27742317777372353535851937790883648493, with the 32-byte
  little-endian encoding that `Scalar::from_bytes_mod_order` reads.
 */
module Field {

  /** The order of the curve25519 prime-order group. */
  const L: int := 7237005577332262213973186563042994240857116359379907606001950938285454250989

  /** A canonical field element. */
  type Scalar = x: int | 0 <= x < L

  type Byte = x: int | 0 <= x < 256

  function Add(a: Scalar, b: Scalar): Scalar { (a + b) % L }

  function Mul(a: Scalar, b: Scalar): Scalar { (a * b) % L }

  // ---------------------------------------------------------------------------
  // Reduction modulo L

  lemma ModShift(k: int, z: int)
    ensures (L * k + z) % L == z % L
  {
  }

  lemma ModAddLeft(x: int, y: int)
    ensures ((x % L) + y) % L == (x + y) % L
  {
    ModShift(x / L, x % L + y);
  }

  lemma ModMulLeft(x: int, y: int)
    ensures ((x % L) * y) % L == (x * y) % L
  {
    var q, r := x / L, x % L;
    assert x == L * q + r;
    assert x * y == L * (q * y) + r * y by {
      assert x * y == (L * q + r) * y;
    }
    ModShift(q * y, r * y);
  }

  // ---------------------------------------------------------------------------
  // The field laws the permutation and its circuit rely on

  lemma AddComm(a: Scalar, b: Scalar)
    ensures Add(a, b) == Add(b, a)
  {
  }

  lemma AddAssoc(a: Scalar, b: Scalar, c: Scalar)
    ensures Add(Add(a, b), c) == Add(a, Add(b, c))
  {
    ModAddLeft(a + b, c);
    ModAddLeft(b + c, a);
  }

  lemma AddZero(a: Scalar)
    ensures Add(a, 0) == a && Add(0, a) == a
  {
  }

  lemma MulOne(a: Scalar)
    ensures Mul(1, a) == a && Mul(a, 1) == a
  {
  }

  lemma MulComm(a: Scalar, b: Scalar)
    ensures Mul(a, b) == Mul(b, a)
  {
  }

  lemma MulAssoc(a: Scalar, b: Scalar, c: Scalar)
    ensures Mul(Mul(a, b), c) == Mul(a, Mul(b, c))
  {
    ModMulLeft(a * b, c);
    ModMulLeft(b * c, a);
    assert (a * b) * c == (b * c) * a;
  }

  lemma ModAddBoth(x: int, y: int)
    ensures ((x % L) + (y % L)) % L == (x + y) % L
  {
    ModAddLeft(x, y % L);
    ModAddLeft(y, x);
  }

  lemma ModMulRight(x: int, y: int)
    ensures (y * (x % L)) % L == (y * x) % L
  {
    ModMulLeft(x, y);
  }

  /** Multiplication distributes over addition (scalar on the left). */
  lemma MulAddDistrib(a: Scalar, b: Scalar, c: Scalar)
    ensures Mul(a, Add(b, c)) == Add(Mul(a, b), Mul(a, c))
  {
    calc {
      Mul(a, Add(b, c));
      (a * ((b + c) % L)) % L;
      { ModMulRight(b + c, a); }
      (a * (b + c)) % L;
      { assert a * (b + c) == a * b + a * c; }
      (a * b + a * c) % L;
      { ModAddBoth(a * b, a * c); }
      ((a * b) % L + (a * c) % L) % L;
      Add(Mul(a, b), Mul(a, c));
    }
  }

  /** Multiplication distributes over addition (scalar on the right). */
  lemma AddMulDistrib(a: Scalar, b: Scalar, c: Scalar)
    ensures Mul(Add(a, b), c) == Add(Mul(a, c), Mul(b, c))
  {
    MulComm(Add(a, b), c);
    MulAddDistrib(c, a, b);
    MulComm(c, a);
    MulComm(c, b);
  }

  // ---------------------------------------------------------------------------
  // Little-endian byte strings

  function Pow256(n: nat): (r: nat)
    ensures r >= 1
  {
    if n == 0 then 1 else 256 * Pow256(n - 1)
  }

  /** The number a little-endian byte string denotes. */
  function LeValue(bytes: seq<Byte>): nat
  {
    if |bytes| == 0 then 0 else bytes[0] + 256 * LeValue(bytes[1..])
  }

  /** The `n`-byte little-endian encoding of `x` (higher digits are dropped). */
  function LeBytes(x: nat, n: nat): (r: seq<Byte>)
    ensures |r| == n
  {
    if n == 0 then [] else [x % 256] + LeBytes(x / 256, n - 1)
  }

  lemma {:induction false} Pow256Add(m: nat, n: nat)
    ensures Pow256(m + n) == Pow256(m) * Pow256(n)
  {
    if m > 0 {
      Pow256Add(m - 1, n);
    }
  }

  /** Every scalar fits in 32 bytes. */
  lemma ScalarFits32Bytes()
    ensures L < Pow256(32)
  {
    assert Pow256(2) == 65536;
    Pow256Add(2, 2);
    assert Pow256(4) == 4294967296;
    Pow256Add(4, 4);
    assert Pow256(8) == 18446744073709551616;
    Pow256Add(8, 8);
    assert Pow256(16) == 340282366920938463463374607431768211456;
    Pow256Add(16, 16);
    assert Pow256(32) == 115792089237316195423570985008687907853269984665640564039457584007913129639936;
  }

  lemma {:induction false} LeValueBound(bytes: seq<Byte>)
    ensures LeValue(bytes) < Pow256(|bytes|)
  {
    if |bytes| > 0 {
      LeValueBound(bytes[1..]);
    }
  }

  /** Encoding a number that fits in `n` bytes and reading it back gives the number. */
  lemma {:induction false} LeRoundTrip(x: nat, n: nat)
    requires x < Pow256(n)
    ensures LeValue(LeBytes(x, n)) == x
  {
    if n > 0 {
      LeRoundTrip(x / 256, n - 1);
    }
  }

  /** `Scalar::from_bytes_mod_order`: the little-endian value of 32 bytes, reduced modulo L. */
  function FromBytesModOrder(bytes: seq<Byte>): (r: Scalar)
    requires |bytes| == 32
    ensures LeValue(bytes) < L ==> r == LeValue(bytes)
  {
    LeValue(bytes) % L
  }

  /** `Scalar::to_bytes`: the canonical 32-byte little-endian encoding. */
  function ToBytes(x: Scalar): (r: seq<Byte>)
    ensures |r| == 32
  {
    LeBytes(x, 32)
  }

  /** Every scalar survives the trip through its 32-byte encoding. */
  lemma ScalarBytesRoundTrip(x: Scalar)
    ensures FromBytesModOrder(ToBytes(x)) == x
  {
    ScalarFits32Bytes();
    LeRoundTrip(x, 32);
  }
}
