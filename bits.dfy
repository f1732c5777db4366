/**
  Arithmetic on unbounded naturals that stands in for the source's BigInt
  bit operations: powers of two, the bitwise OR `|`, and the division
  facts the packing proofs need.
*/
module Bits {

  /** 2^k. */
  function Pow2(k: nat): (r: nat)
    ensures r >= 1
  {
    if k == 0 then 1 else 2 * Pow2(k - 1)
  }

  /** Bitwise OR of two non-negative BigInts, least-significant bit first. */
  function Or(a: nat, b: nat): (r: nat)
    ensures a <= r && b <= r && r <= a + b
    decreases a + b
  {
    if a == 0 && b == 0 then 0
    else 2 * Or(a / 2, b / 2) + (if a % 2 == 1 || b % 2 == 1 then 1 else 0)
  }

  /** The quotient and remainder of a division are the only pair that fits. */
  lemma DivModUnique(n: int, d: int, q: int, r: int)
    requires d > 0 && 0 <= r < d && n == d * q + r
    ensures n / d == q && n % d == r
  {
    var q', r' := n / d, n % d;
    assert n == d * q' + r';
    if q' > q {
      assert d * q' >= d * (q + 1) by { MulMonotone(d, q + 1, q'); }
      assert false;
    } else if q' < q {
      assert d * q >= d * (q' + 1) by { MulMonotone(d, q' + 1, q); }
      assert false;
    }
  }

  lemma DoubleFactor(x: int, y: int)
    ensures 2 * (x * y) == x * (2 * y)
  {
  }

  lemma MulMonotone(d: int, x: int, y: int)
    requires d >= 0 && x <= y
    ensures d * x <= d * y
  {
  }

  lemma {:induction false} Pow2Add(a: nat, b: nat)
    ensures Pow2(a + b) == Pow2(a) * Pow2(b)
  {
    if b > 0 {
      Pow2Add(a, b - 1);
      assert Pow2(a + b) == 2 * (Pow2(a) * Pow2(b - 1));
      DoubleFactor(Pow2(a), Pow2(b - 1));
    }
  }

  /** (n / 2^k) / 2 == n / 2^(k+1): shifting right twice is one longer shift. */
  lemma DivDiv(n: nat, p: nat, d: nat)
    requires p >= 1 && d >= 1
    ensures (n / p) / d == n / (p * d)
  {
    var q := (n / p) / d;
    var r1 := n % p;
    var r2 := (n / p) % d;
    assert n / p == d * q + r2;
    assert n == p * (d * q + r2) + r1;
    assert n == (p * d) * q + (p * r2 + r1);
    assert p * r2 + r1 < p * d by {
      MulMonotone(p, r2, d - 1);
    }
    DivModUnique(n, p * d, q, p * r2 + r1);
  }

  lemma {:induction false} OrZero(a: nat)
    ensures Or(a, 0) == a
  {
    if a != 0 {
      OrZero(a / 2);
    }
  }

  /**
    OR-ing in a value that fits below bit k of a value shifted left by k
    is the same as adding it: the bits do not overlap.
  */
  lemma {:induction false} OrDisjoint(x: nat, y: nat, k: nat)
    requires y < Pow2(k)
    ensures Or(x * Pow2(k), y) == x * Pow2(k) + y
  {
    if k == 0 {
      OrZero(x);
    } else {
      var h := x * Pow2(k - 1);
      assert x * Pow2(k) == 2 * h;
      if h != 0 || y != 0 {
        assert (2 * h) / 2 == h && (2 * h) % 2 == 0;
        OrDisjoint(x, y / 2, k - 1);
        assert Or(2 * h, y) == 2 * (h + y / 2) + y % 2;
      }
    }
  }

  /** Shifting both operands left by k shifts their OR left by k. */
  lemma {:induction false} OrShift(a: nat, b: nat, k: nat)
    ensures Or(a * Pow2(k), b * Pow2(k)) == Or(a, b) * Pow2(k)
  {
    if k > 0 {
      var p := Pow2(k - 1);
      assert Pow2(k) == 2 * p;
      calc {
        Or(a * Pow2(k), b * Pow2(k));
        == { DoubleFactor(a, p); DoubleFactor(b, p); }
        Or(2 * (a * p), 2 * (b * p));
        == { OrDouble(a * p, b * p); }
        2 * Or(a * p, b * p);
        == { OrShift(a, b, k - 1); }
        2 * (Or(a, b) * p);
        == { DoubleFactor(Or(a, b), p); }
        Or(a, b) * Pow2(k);
      }
    }
  }

  /** Or(2a, 2b) == 2 Or(a, b): a shift by one position. */
  lemma OrDouble(a: nat, b: nat)
    ensures Or(2 * a, 2 * b) == 2 * Or(a, b)
  {
    if a != 0 || b != 0 {
      assert (2 * a) / 2 == a && (2 * a) % 2 == 0;
      assert (2 * b) / 2 == b && (2 * b) % 2 == 0;
    }
  }

  /** Halving a value below 2p gives a value below p. */
  lemma HalfBelow(n: nat, p: nat)
    requires n < 2 * p
    ensures n / 2 < p
  {
  }

  /** The low bits modulo 2p are the low bits of n / 2 modulo p, shifted, plus the last bit. */
  lemma ModDouble(n: nat, p: nat)
    requires p >= 1
    ensures n % (2 * p) == 2 * ((n / 2) % p) + n % 2
  {
    var q, low := (n / 2) / p, (n / 2) % p;
    assert n / 2 == p * q + low;
    assert n == (2 * p) * q + (2 * low + n % 2);
    DivModUnique(n, 2 * p, q, 2 * low + n % 2);
  }

  /**
    n with its k lowest bits dropped. A proof device: it names the value
    whose fixed bits form the run that starts k bits up in a binary text.
  */
  function Shr(n: nat, k: nat): nat {
    if k == 0 then n else Shr(n / 2, k - 1)
  }

  /** Shifting right by k bits is dividing by 2^k. */
  lemma {:induction false} ShrIsDiv(n: nat, k: nat, p: nat)
    requires p == Pow2(k)
    ensures Shr(n, k) == n / p
  {
    if k > 0 {
      ShrIsDiv(n / 2, k - 1, Pow2(k - 1));
      DivDiv(n, 2, Pow2(k - 1));
    }
  }
}
