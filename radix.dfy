/**
 * Positional notation: NumToBase, which turns the entropy value into offsets into the
 * symbol set, and NumToBitString, which shows a value as a padded string of bits.
 */
module Radix {

  /** A base-2 digit, as the source's lists of 0s and 1s hold them. */
  type Bit = b: nat | b < 2

  function Pow(base: nat, k: nat): nat {
    if k == 0 then 1 else base * Pow(base, k - 1)
  }

  /** The value of a digit sequence read most-significant first: the sum of ds[i] * base^(|ds|-1-i). */
  function Eval(ds: seq<nat>, base: nat): nat {
    if ds == [] then 0 else Eval(ds[..|ds| - 1], base) * base + ds[|ds| - 1]
  }

  predicate DigitsBelow(ds: seq<nat>, base: nat) {
    forall i :: 0 <= i < |ds| ==> ds[i] < base
  }

  /** A digit sequence as NumToBase writes it: digits in range, and no leading zero unless it is the lone digit. */
  predicate Canonical(ds: seq<nat>, base: nat) {
    |ds| >= 1 && DigitsBelow(ds, base) && (|ds| == 1 || ds[0] != 0)
  }

  lemma MulMono(a: nat, b: nat, c: nat)
    requires a <= b
    ensures a * c <= b * c
  {}

  /** One more low digit: a value below p followed by a digit below base stays below p * base. */
  lemma DigitStep(e: nat, p: nat, d: nat, base: nat)
    requires e < p && d < base
    ensures e * base + d < p * base
  {
    MulMono(e + 1, p, base);
    assert (e + 1) * base == e * base + base;
  }

  lemma DivMod(x: nat, base: nat)
    requires base >= 2
    ensures x == (x / base) * base + x % base && x % base < base
    ensures x >= base ==> 0 < x / base < x
  {}

  lemma DivModUnique(x: nat, base: nat, q: nat, r: nat)
    requires base >= 1 && r < base && x == q * base + r
    ensures x / base == q && x % base == r
  {
    var q', r' := x / base, x % base;
    if q' < q {
      MulMono(q' + 1, q, base);
    } else if q < q' {
      MulMono(q + 1, q', base);
    }
  }

  /** n digits below base hold a value below base^n. */
  lemma {:induction false} EvalBound(ds: seq<nat>, base: nat)
    requires DigitsBelow(ds, base)
    ensures Eval(ds, base) < Pow(base, |ds|)
  {
    if ds != [] {
      var init := ds[..|ds| - 1];
      EvalBound(init, base);
      DigitStep(Eval(init, base), Pow(base, |init|), ds[|ds| - 1], base);
    }
  }

  /** Zeros in front of a digit sequence do not change its value. */
  lemma {:induction false} EvalLeadingZeros(k: nat, ds: seq<nat>, base: nat)
    ensures Eval(Zeros(k) + ds, base) == Eval(ds, base)
  {
    if ds == [] {
      assert Zeros(k) + ds == Zeros(k);
      EvalZeros(k, base);
    } else {
      var init := ds[..|ds| - 1];
      assert (Zeros(k) + ds)[..|Zeros(k) + ds| - 1] == Zeros(k) + init;
      EvalLeadingZeros(k, init, base);
    }
  }

  function Zeros(k: nat): (z: seq<nat>)
    ensures |z| == k && forall i :: 0 <= i < k ==> z[i] == 0
  {
    seq(k, _ => 0)
  }

  lemma {:induction false} EvalZeros(k: nat, base: nat)
    ensures Eval(Zeros(k), base) == 0
  {
    if k > 0 {
      assert Zeros(k)[..k - 1] == Zeros(k - 1);
      EvalZeros(k - 1, base);
    }
  }

  /**
   * The digits of x in the given base, most significant first, without padding;
   * zero is the single digit 0.
   */
  function ToDigits(x: nat, base: nat): (ds: seq<nat>)
    requires base >= 2
    ensures Canonical(ds, base)
    decreases x
  {
    DivMod(x, base);
    if x < base then [x]
    else
      var high := ToDigits(x / base, base);
      assert high[0] != 0 || |high| > 1;
      high + [x % base]
  }

  /** The digits of x read back give x. */
  lemma {:induction false} ToDigitsValue(x: nat, base: nat)
    requires base >= 2
    ensures Eval(ToDigits(x, base), base) == x
    decreases x
  {
    DivMod(x, base);
    if x >= base {
      var high := ToDigits(x / base, base);
      ToDigitsValue(x / base, base);
      assert ToDigits(x, base) == high + [x % base];
      assert (high + [x % base])[..|high|] == high;
    }
  }

  /** Zero, and only zero, is written as the single digit 0; every other value starts with a non-zero digit. */
  lemma {:induction false} ToDigitsLeading(x: nat, base: nat)
    requires base >= 2
    ensures x == 0 <==> ToDigits(x, base) == [0]
    ensures x > 0 ==> ToDigits(x, base)[0] != 0
  {
    DivMod(x, base);
    if x >= base {
      ToDigitsLeading(x / base, base);
      assert ToDigits(x, base) == ToDigits(x / base, base) + [x % base];
    }
  }

  /** A positive value has exactly as many digits as it needs: base^(len-1) <= x < base^len. */
  lemma {:induction false} ToDigitsLength(x: nat, base: nat)
    requires base >= 2 && x > 0
    ensures Pow(base, |ToDigits(x, base)| - 1) <= x < Pow(base, |ToDigits(x, base)|)
  {
    ToDigitsValue(x, base);
    EvalBound(ToDigits(x, base), base);
    DivMod(x, base);
    if x >= base {
      var q := x / base;
      var k := |ToDigits(q, base)|;
      assert ToDigits(x, base) == ToDigits(q, base) + [x % base];
      ToDigitsLength(q, base);
      MulMono(Pow(base, k - 1), q, base);
      assert Pow(base, k) == base * Pow(base, k - 1);
    }
  }

  /** Reading a canonical digit sequence and writing the value back gives the same digits. */
  lemma {:induction false} ToDigitsEval(ds: seq<nat>, base: nat)
    requires base >= 2 && Canonical(ds, base)
    ensures ToDigits(Eval(ds, base), base) == ds
  {
    var init, d := ds[..|ds| - 1], ds[|ds| - 1];
    if |ds| == 1 {
      assert init == [];
      assert ds == [d];
    } else {
      assert init[0] == ds[0];
      ToDigitsEval(init, base);
      var e := Eval(init, base);
      ToDigitsLeading(e, base);
      MulMono(1, e, base);
      DivModUnique(e * base + d, base, e, d);
      DivMod(e * base + d, base);
      assert ds == init + [d];
    }
  }

  /** Canonical digit sequences and natural numbers are in one-to-one correspondence. */
  lemma ToDigitsInjective(x: nat, y: nat, base: nat)
    requires base >= 2 && ToDigits(x, base) == ToDigits(y, base)
    ensures x == y
  {
    ToDigitsValue(x, base);
    ToDigitsValue(y, base);
  }

  /** The digits in the opposite order: the first of the result is the last of s, and so on. */
  function Reversed(s: seq<nat>): (r: seq<nat>)
    ensures |r| == |s|
    ensures forall i :: 0 <= i < |s| ==> r[i] == s[|s| - 1 - i]
  {
    if s == [] then [] else Reversed(s[1..]) + [s[0]]
  }

  /** The digits of x least significant first, as repeated division produces them; none for zero. */
  function LowDigits(x: nat, base: nat): seq<nat>
    requires base >= 2
    decreases x
  {
    if x == 0 then [] else
      DivMod(x, base);
      [x % base] + LowDigits(x / base, base)
  }

  /** One division by the base splits off the lowest digit and leaves a smaller value. */
  lemma LowDigitsStep(x: nat, base: nat)
    requires base >= 2 && x > 0
    ensures 0 <= x / base < x && 0 <= x % base < base
    ensures x < base ==> x / base == 0 && x % base == x
    ensures x >= base ==> x / base > 0
    ensures LowDigits(x, base) == [x % base] + LowDigits(x / base, base)
  {
    DivMod(x, base);
    if x < base {
      DivModUnique(x, base, 0, x);
    }
  }

  /** Reading the digits produced by repeated division backwards gives the canonical digits. */
  lemma {:induction false} LowDigitsReversed(x: nat, base: nat)
    requires base >= 2 && x > 0
    ensures |LowDigits(x, base)| > 0 && Reversed(LowDigits(x, base)) == ToDigits(x, base)
    decreases x
  {
    LowDigitsStep(x, base);
    var low := LowDigits(x, base);
    assert low[1..] == LowDigits(x / base, base);
    if x < base {
      assert low == [x];
    } else {
      LowDigitsReversed(x / base, base);
    }
  }

  /**
   * NumToBase: collects the digits least significant first by repeated division, writes a
   * lone 0 when nothing was collected, and reverses. When x is 0 the base is never used.
   */
  method NumToBase(x: nat, base: nat) returns (digits: seq<nat>)
    requires x == 0 || base >= 2
    ensures x == 0 ==> digits == [0]
    ensures base >= 2 ==> digits == ToDigits(x, base)
  {
    var rest: nat := x;
    var lowFirst: seq<nat> := [];
    while rest > 0
      invariant x == 0 ==> rest == 0 && lowFirst == []
      invariant x > 0 ==> base >= 2 && LowDigits(x, base) == lowFirst + LowDigits(rest, base)
      decreases rest
    {
      LowDigitsStep(rest, base);
      var digit, high := rest % base, rest / base;
      lowFirst := lowFirst + [digit];
      rest := high;
    }
    if x > 0 {
      assert lowFirst == LowDigits(x, base);
      LowDigitsReversed(x, base);
    }
    if |lowFirst| == 0 {
      lowFirst := lowFirst + [0];
    }
    digits := Reversed(lowFirst);
    if x == 0 && base >= 2 {
      ToDigitsLeading(0, base);
    }
  }

  /** The two conversions the NumToBase documentation gives: 32 in base 2 and 0x20 in base 10. */
  lemma NumToBaseExamples()
    ensures ToDigits(32, 2) == [1, 0, 0, 0, 0, 0]
    ensures ToDigits(0x20, 10) == [3, 2]
  {
    assert ToDigits(2, 2) == [1, 0];
    assert ToDigits(4, 2) == [1, 0, 0];
    assert ToDigits(8, 2) == [1, 0, 0, 0];
    assert ToDigits(16, 2) == [1, 0, 0, 0, 0];
    var dec: seq<nat> := [3, 2];
    assert dec[..1] == [3];
    ToDigitsEval(dec, 10);
  }

  /** The characters '0' and '1' for a sequence of binary digits. */
  function BitChars(ds: seq<nat>): (s: string)
    ensures |s| == |ds|
  {
    seq(|ds|, i requires 0 <= i < |ds| => if ds[i] == 0 then '0' else '1')
  }

  /** The value a string of '0' and '1' characters denotes, most significant first. */
  function BitStringValue(s: string): nat {
    Eval(seq(|s|, i requires 0 <= i < |s| => if s[i] == '1' then 1 else 0), 2)
  }

  /** A string of bit characters denotes the value of the bits it was written from. */
  lemma BitCharsValue(ds: seq<nat>)
    requires DigitsBelow(ds, 2)
    ensures BitStringValue(BitChars(ds)) == Eval(ds, 2)
  {
    var s := BitChars(ds);
    assert seq(|s|, i requires 0 <= i < |s| => if s[i] == '1' then 1 else 0) == ds;
  }

  /**
   * NumToBitString: the binary digits of x, left-padded with zeros to the given width
   * (the requested entropy size) when they are fewer.
   */
  function NumToBitString(x: nat, width: int): (s: string)
    ensures |s| == if width > |ToDigits(x, 2)| then width else |ToDigits(x, 2)|
    ensures forall i :: 0 <= i < |s| ==> s[i] == '0' || s[i] == '1'
    ensures BitStringValue(s) == x
  {
    var bs := ToDigits(x, 2);
    ToDigitsValue(x, 2);
    var pad := if |bs| < width then width - |bs| else 0;
    EvalLeadingZeros(pad, bs, 2);
    assert DigitsBelow(Zeros(pad) + bs, 2);
    BitCharsValue(Zeros(pad) + bs);
    BitChars(Zeros(pad) + bs)
  }
}
