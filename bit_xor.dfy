/**
 * Bitwise exclusive-or on unbounded naturals, as Python's `^` computes it on the
 * non-negative integers that hold the collected entropy.
 */
module BitXor {
  import opened Radix

  /**
   * Exclusive-or, one binary digit at a time from the least significant end. The result is
   * 0 exactly when the operands are equal, and it never exceeds their sum.
   */
  function Xor(a: nat, b: nat): (r: nat)
    ensures r == 0 <==> a == b
    ensures r <= a + b
    decreases a + b
  {
    if a == 0 && b == 0 then 0
    else
      var p, q := a / 2, b / 2;
      assert a == 2 * p + a % 2 && b == 2 * q + b % 2;
      2 * Xor(p, q) + (if a % 2 == b % 2 then 0 else 1)
  }

  function XorBit(x: Bit, y: Bit): Bit {
    if x == y then 0 else 1
  }

  /** Exclusive-or of two values split into their high part and their lowest bit. */
  lemma XorStep(p: nat, x: Bit, q: nat, y: Bit)
    ensures Xor(2 * p + x, 2 * q + y) == 2 * Xor(p, q) + XorBit(x, y)
  {
    var a, b := 2 * p + x, 2 * q + y;
    assert a / 2 == p && a % 2 == x && b / 2 == q && b % 2 == y;
    if a == 0 && b == 0 {
      assert p == 0 && q == 0;
    } else {
      assert Xor(a, b) == 2 * Xor(p, q) + (if x == y then 0 else 1);
    }
  }

  /** 0 is the neutral element: a single enabled source passes through unchanged. */
  lemma {:induction false} XorZero(a: nat)
    ensures Xor(a, 0) == a && Xor(0, a) == a
    decreases a
  {
    if a > 0 {
      XorZero(a / 2);
    }
  }

  lemma {:induction false} XorCommutes(a: nat, b: nat)
    ensures Xor(a, b) == Xor(b, a)
    decreases a + b
  {
    if a != 0 || b != 0 {
      XorCommutes(a / 2, b / 2);
    }
  }

  /** Combining two N-bit values gives an N-bit value. */
  lemma {:induction false} XorBound(a: nat, b: nat, n: nat)
    requires a < Pow(2, n) && b < Pow(2, n)
    ensures Xor(a, b) < Pow(2, n)
  {
    if n > 0 && (a != 0 || b != 0) {
      XorBound(a / 2, b / 2, n - 1);
    }
  }

  /** Exclusive-or with the same value twice restores the original. */
  lemma {:induction false} XorCancels(a: nat, b: nat)
    ensures Xor(Xor(a, b), b) == a
    decreases a + b
  {
    if a != 0 || b != 0 {
      var p, x, q, y := a / 2, a % 2, b / 2, b % 2;
      assert a == 2 * p + x && b == 2 * q + y;
      XorStep(p, x, q, y);
      XorStep(Xor(p, q), XorBit(x, y), q, y);
      XorCancels(p, q);
      assert XorBit(XorBit(x, y), y) == x;
    }
  }

  /**
   * For a fixed N-bit value a, b |-> Xor(a, b) is a permutation of the N-bit values:
   * it is one-to-one and reaches every N-bit value. Combining a fixed (or biased) value
   * with a uniformly drawn one therefore leaves it uniformly distributed.
   */
  lemma XorPermutes(a: nat, n: nat)
    requires a < Pow(2, n)
    ensures forall b, c :: Xor(a, b) == Xor(a, c) ==> b == c
    ensures forall d: nat :: d < Pow(2, n) ==> Xor(a, Xor(a, d)) == d && Xor(a, d) < Pow(2, n)
  {
    forall b, c | Xor(a, b) == Xor(a, c)
      ensures b == c
    {
      XorCommutes(a, b);
      XorCommutes(a, c);
      XorCancels(b, a);
      XorCancels(c, a);
    }
    forall d: nat | d < Pow(2, n)
      ensures Xor(a, Xor(a, d)) == d && Xor(a, d) < Pow(2, n)
    {
      XorBound(a, d, n);
      XorCommutes(a, Xor(a, d));
      XorCommutes(a, d);
      XorCancels(d, a);
    }
  }

  function XorBits(u: seq<Bit>, v: seq<Bit>): (w: seq<Bit>)
    requires |u| == |v|
    ensures |w| == |u|
  {
    seq(|u|, i requires 0 <= i < |u| => XorBit(u[i], v[i]))
  }

  /** Xor agrees with position-by-position exclusive-or of two equally long big-endian bit strings. */
  lemma {:induction false} XorMatchesBits(u: seq<Bit>, v: seq<Bit>)
    requires |u| == |v|
    ensures Xor(Eval(u, 2), Eval(v, 2)) == Eval(XorBits(u, v), 2)
  {
    if u != [] {
      var k := |u| - 1;
      XorMatchesBits(u[..k], v[..k]);
      assert XorBits(u, v)[..k] == XorBits(u[..k], v[..k]);
      XorStep(Eval(u[..k], 2), u[k], Eval(v[..k], 2), v[k]);
    } else {
      assert XorBits(u, v) == [];
    }
  }
}
