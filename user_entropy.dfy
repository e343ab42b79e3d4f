/**
 * The interactive entropy source: the operator types coin flips or die rolls, each
 * accepted token yields one or two bits, and GetUserBits packs exactly n of them into
 * an integer, most significant first. The operator's typing is a finite script of tokens.
 */
module UserEntropy {
  import opened Results
  import opened Radix

  datatype Source = Coin | Dice

  /** The user-source selector that GetUserEntropyOnce dispatches on. */
  function ParseSource(name: string): (r: Option<Source>)
    ensures r.Some? <==> name == "coin" || name == "dice"
  {
    if name == "coin" then Some(Coin)
    else if name == "dice" then Some(Dice)
    else None
  }

  /** Upper-casing of one character; only the ASCII letters a-z change. */
  function UpperChar(c: char): char {
    if 'a' <= c <= 'z' then (c as int - 'a' as int + 'A' as int) as char else c
  }

  function Upper(s: string): (r: string)
    ensures |r| == |s|
  {
    seq(|s|, i requires 0 <= i < |s| => UpperChar(s[i]))
  }

  /**
   * Upper-casing keeps the length, leaves no lower-case letter, turns each lower-case letter
   * into the matching capital, keeps every other character, and changes nothing a second time.
   */
  lemma UpperCases(s: string)
    ensures |Upper(s)| == |s|
    ensures forall i :: 0 <= i < |s| ==> !('a' <= Upper(s)[i] <= 'z')
    ensures forall i :: 0 <= i < |s| && !('a' <= s[i] <= 'z') ==> Upper(s)[i] == s[i]
    ensures forall i :: 0 <= i < |s| && 'a' <= s[i] <= 'z' ==>
      'A' <= Upper(s)[i] <= 'Z' && Upper(s)[i] as int - 'A' as int == s[i] as int - 'a' as int
    ensures Upper(Upper(s)) == Upper(s)
  {}

  /** One answer to the coin prompt: upper-cased, H is bit 0 and T is bit 1; anything else is rejected. */
  function CoinFlip(token: string): (bits: Option<seq<Bit>>)
    ensures bits.Some? ==> |bits.value| == 1
  {
    var value := Upper(token);
    if value == "H" then Some([0])
    else if value == "T" then Some([1])
    else None
  }

  /** One answer to the die prompt: faces 1-4 give two bits, faces 5-6 one bit; anything else is rejected. */
  function DiceRoll(token: string): (bits: Option<seq<Bit>>)
    ensures bits.Some? ==> 1 <= |bits.value| <= 2
  {
    if token == "1" then Some([0, 0])
    else if token == "2" then Some([0, 1])
    else if token == "3" then Some([1, 0])
    else if token == "4" then Some([1, 1])
    else if token == "5" then Some([0])
    else if token == "6" then Some([1])
    else None
  }

  function EventBits(source: Source, token: string): (bits: Option<seq<Bit>>)
    ensures bits.Some? ==> 1 <= |bits.value| <= 2
  {
    match source
    case Coin => CoinFlip(token)
    case Dice => DiceRoll(token)
  }

  lemma UpperSingle(token: string, c: char)
    requires 'A' <= c <= 'Z' && Upper(token) == [c]
    ensures token == [c] || token == [c - 'A' + 'a']
  {
    assert |token| == 1 && Upper(token)[0] == c;
    assert token == [token[0]];
  }

  /** The coin prompt accepts h, H, t and T and nothing else, case-insensitively. */
  lemma CoinFlipTable(token: string)
    ensures CoinFlip(token) == Some([0]) <==> token == "h" || token == "H"
    ensures CoinFlip(token) == Some([1]) <==> token == "t" || token == "T"
    ensures CoinFlip(token).None? <==> token != "h" && token != "H" && token != "t" && token != "T"
  {
    if Upper(token) == "H" {
      UpperSingle(token, 'H');
    } else if Upper(token) == "T" {
      UpperSingle(token, 'T');
    }
    assert Upper("h") == "H" && Upper("H") == "H";
    assert Upper("t") == "T" && Upper("T") == "T";
  }

  /**
   * The die prompt accepts exactly the faces 1 to 6, and no two faces give the same bits:
   * each of the four two-bit patterns comes from one face, each single bit from one face.
   */
  lemma DiceRollTable(token: string, other: string)
    ensures DiceRoll(token).Some? <==> token in ["1", "2", "3", "4", "5", "6"]
    ensures DiceRoll(token).Some? && |DiceRoll(token).value| == 2 <==> token in ["1", "2", "3", "4"]
    ensures DiceRoll(token).Some? && DiceRoll(token) == DiceRoll(other) ==> token == other
  {}

  /** Every one- or two-bit pattern is what some face of the die yields. */
  lemma DiceRollCovers(bits: seq<Bit>)
    requires 1 <= |bits| <= 2
    ensures exists face :: DiceRoll(face) == Some(bits)
  {
    if |bits| == 1 {
      assert bits == [bits[0]];
      if bits[0] == 0 { assert DiceRoll("5") == Some(bits); }
      else { assert DiceRoll("6") == Some(bits); }
    } else if bits[0] == 0 {
      assert bits == [bits[0], bits[1]];
      if bits[1] == 0 { assert DiceRoll("1") == Some(bits); }
      else { assert DiceRoll("2") == Some(bits); }
    } else {
      assert bits == [bits[0], bits[1]];
      if bits[1] == 0 { assert DiceRoll("3") == Some(bits); }
      else { assert DiceRoll("4") == Some(bits); }
    }
  }

  /** The bits of every accepted token of a script, in order; a rejected token adds nothing. */
  function AllBits(source: Source, tokens: seq<string>): seq<Bit> {
    if tokens == [] then []
    else AllBits(source, tokens[..|tokens| - 1]) + EventBits(source, tokens[|tokens| - 1]).GetOr([])
  }

  lemma {:induction false} AllBitsAppend(source: Source, a: seq<string>, b: seq<string>)
    ensures AllBits(source, a + b) == AllBits(source, a) + AllBits(source, b)
    decreases |b|
  {
    if b == [] {
      assert a + b == a;
    } else {
      var k := |b| - 1;
      assert (a + b)[..|a + b| - 1] == a + b[..k] && (a + b)[|a + b| - 1] == b[k];
      var last := EventBits(source, b[k]).GetOr([]);
      assert AllBits(source, a + b) == AllBits(source, a + b[..k]) + last;
      assert AllBits(source, b) == AllBits(source, b[..k]) + last;
      AllBitsAppend(source, a, b[..k]);
    }
  }

  /** Reading one more token of a script adds that token's bits, if any, at the end. */
  lemma AllBitsSnoc(source: Source, script: seq<string>, i: nat)
    requires i < |script|
    ensures AllBits(source, script[..i + 1]) == AllBits(source, script[..i]) + EventBits(source, script[i]).GetOr([])
  {
    assert script[..i + 1][..i] == script[..i];
  }

  /** A rejected token, wherever it stands in the script, contributes no bits and shifts nothing. */
  lemma InvalidTokenSkipped(source: Source, before: seq<string>, token: string, after: seq<string>)
    requires EventBits(source, token).None?
    ensures AllBits(source, before + [token] + after) == AllBits(source, before + after)
  {
    AllBitsAppend(source, before + [token], after);
    AllBitsAppend(source, before, [token]);
    AllBitsAppend(source, before, after);
    assert [token][..0] == [];
  }

  /** The bits read from a prefix of the script are a prefix of the bits of the whole script. */
  lemma AllBitsPrefix(source: Source, tokens: seq<string>, k: nat)
    requires k <= |tokens|
    ensures AllBits(source, tokens[..k]) <= AllBits(source, tokens)
  {
    AllBitsAppend(source, tokens[..k], tokens[k..]);
    assert tokens[..k] + tokens[k..] == tokens;
  }

  /** One accepted event: its bits, and the script position just after the token that gave them. */
  datatype Read = Read(bits: seq<Bit>, next: nat)

  /**
   * GetCoinFlip / GetDiceRoll: prompt until the operator types an accepted token.
   * Rejected tokens are skipped; None means the script ran out first.
   */
  method ReadEvent(source: Source, script: seq<string>, pos: nat) returns (r: Option<Read>)
    requires pos <= |script|
    ensures r.None? ==> forall j :: pos <= j < |script| ==> EventBits(source, script[j]).None?
    ensures r.None? ==> AllBits(source, script) == AllBits(source, script[..pos])
    ensures r.Some? ==> pos < r.value.next <= |script|
    ensures r.Some? ==> EventBits(source, script[r.value.next - 1]) == Some(r.value.bits)
    ensures r.Some? ==> forall j :: pos <= j < r.value.next - 1 ==> EventBits(source, script[j]).None?
    ensures r.Some? ==> AllBits(source, script[..r.value.next]) == AllBits(source, script[..pos]) + r.value.bits
  {
    var i := pos;
    while i < |script|
      invariant pos <= i <= |script|
      invariant forall j :: pos <= j < i ==> EventBits(source, script[j]).None?
      invariant AllBits(source, script[..i]) == AllBits(source, script[..pos])
    {
      AllBitsSnoc(source, script, i);
      var bits := EventBits(source, script[i]);
      if bits.Some? {
        return Some(Read(bits.value, i + 1));
      }
      i := i + 1;
    }
    assert script[..i] == script;
    return None;
  }

  /** Python's s[:stop] for any integer stop: a negative stop counts from the end; the bounds are clamped. */
  function SliceTo<T>(s: seq<T>, stop: int): (r: seq<T>)
    ensures r <= s
  {
    var end := if stop < 0 then |s| + stop else stop;
    s[..if end < 0 then 0 else if end > |s| then |s| else end]
  }

  /**
   * The truncation of an event that would overshoot: its negative slice bound keeps exactly
   * the leading n - collected bits, so the count lands on n.
   */
  lemma OvershootKeepsLeadingBits(event: seq<Bit>, collected: nat, n: nat)
    requires collected < n < collected + |event|
    ensures SliceTo(event, n - collected - |event|) == event[..n - collected]
    ensures collected + |SliceTo(event, n - collected - |event|)| == n
  {}

  /**
   * What GetUserBits returns: the big-endian value of the first n bits the operator's
   * accepted tokens supply, in event order and left to right within an event.
   */
  function UserBits(sourceName: string, n: nat, script: seq<string>): Result<nat> {
    if n == 0 then Ok(0)
    else match ParseSource(sourceName)
      case None => Err(InvalidUserSource)
      case Some(source) =>
        var bits := AllBits(source, script);
        if |bits| < n then Err(OutOfTokens) else Ok(Eval(bits[..n], 2))
  }

  /** The collected value occupies at most n bits. */
  lemma UserBitsBound(sourceName: string, n: nat, script: seq<string>)
    ensures UserBits(sourceName, n, script).Ok? ==> UserBits(sourceName, n, script).value < Pow(2, n)
  {
    if n > 0 && ParseSource(sourceName).Some? {
      var bits := AllBits(ParseSource(sourceName).value, script);
      if |bits| >= n {
        EvalBound(bits[..n], 2);
      }
    }
  }

  /**
   * Rolls 1, 2, 3 for 5 bits: the events give 00, 01 and 10; the third overshoots by one and
   * only its leading 1 is kept, so the bits are 00011, the value 3.
   */
  lemma DiceTruncationScenario()
    ensures UserBits("dice", 5, ["1", "2", "3"]) == Ok(3)
  {
    AllBitsAppend(Dice, ["1"], ["2"]);
    assert ["1"] + ["2"] == ["1", "2"];
    AllBitsAppend(Dice, ["1", "2"], ["3"]);
    assert ["1", "2"] + ["3"] == ["1", "2", "3"];
    var bits: seq<nat> := [0, 0, 0, 1, 1, 0];
    assert AllBits(Dice, ["1", "2", "3"]) == bits;
    assert bits[..5] == Zeros(3) + [1, 1];
    EvalLeadingZeros(3, [1, 1], 2);
  }

  /**
   * The inner `for bit in new_bits` loop of GetUserBits: each bit is shifted in at the low
   * end of x and counted. Holding the value of the bits so far, x ends up holding the value
   * of those bits followed by the new ones.
   */
  method ShiftIn(x: nat, collected: nat, bits: seq<Bit>, ghost held: seq<Bit>) returns (y: nat, count: nat)
    requires x == Eval(held, 2) && collected == |held|
    ensures count == collected + |bits|
    ensures y == Eval(held + bits, 2)
  {
    y, count := x, collected;
    assert held + bits[..0] == held;
    for k := 0 to |bits|
      invariant count == collected + k
      invariant y == Eval(held + bits[..k], 2)
    {
      assert (held + bits[..k + 1])[..count] == held + bits[..k];
      // y <<= 1 clears the lowest bit, so y |= bit adds the bit
      y := 2 * y + bits[k];
      count := count + 1;
    }
    assert bits[..|bits|] == bits;
  }

  /**
   * One round of GetUserBits: the bits kept from an event (all of them, or the truncated
   * ones) continue the bits held so far, and the count either lands on n or uses up the event.
   */
  lemma KeptBits(held: seq<Bit>, event: seq<Bit>, bits: seq<Bit>, n: nat)
    requires |held| < n
    requires bits == if |held| + |event| > n then SliceTo(event, n - |held| - |event|) else event
    ensures |held| + |bits| <= n && |held| + |bits| <= |held + event|
    ensures |held| + |bits| < n ==> |held| + |bits| == |held + event|
    ensures (held + event)[..|held| + |bits|] == held + bits
  {
    if |held| + |event| > n {
      OvershootKeepsLeadingBits(event, |held|, n);
    }
  }

  /**
   * The body of GetUserBits' loop after an event is read: an event that would overshoot n is
   * cut to its leading bits, and the kept bits are shifted in. The new count is at most n,
   * falls short of n only when the whole event was kept, and x holds the value of that many
   * leading bits of the old bits followed by the event's.
   */
  method AbsorbEvent(x: nat, collected: nat, n: nat, event: seq<Bit>, ghost held: seq<Bit>)
    returns (y: nat, count: nat)
    requires collected == |held| < n && x == Eval(held, 2)
    requires |event| >= 1
    ensures collected < count <= n && count <= |held + event|
    ensures count < n ==> count == |held + event|
    ensures y == Eval((held + event)[..count], 2)
  {
    var bits := event;
    if collected + |bits| > n {
      bits := SliceTo(bits, n - collected - |bits|);
    }
    KeptBits(held, event, bits, n);
    y, count := ShiftIn(x, collected, bits, held);
  }

  /**
   * GetUserBits: reads events until exactly n bits are held, shifting each bit in at the
   * low end, and cuts the tail off an event that would overshoot.
   */
  method GetUserBits(sourceName: string, n: nat, script: seq<string>) returns (r: Result<nat>)
    ensures r == UserBits(sourceName, n, script)
  {
    ghost var valid := ParseSource(sourceName).Some?;
    ghost var src := ParseSource(sourceName).GetOr(Coin);
    var x: nat := 0;
    var collected: nat := 0;
    var pos: nat := 0;
    ghost var taken: seq<Bit> := [];
    while collected < n
      invariant collected <= n && pos <= |script|
      invariant !valid ==> collected == 0 && x == 0
      invariant valid ==> taken == AllBits(src, script[..pos])
      invariant valid ==> collected <= |taken| && (collected < n ==> collected == |taken|)
      invariant valid ==> x == Eval(taken[..collected], 2)
      decreases |script| - pos
    {
      // GetUserEntropyOnce: an unknown source is fatal
      var source := ParseSource(sourceName);
      if source.None? {
        return Err(InvalidUserSource);
      }
      var read := ReadEvent(source.value, script, pos);
      if read.None? {
        return Err(OutOfTokens);
      }
      ghost var held := taken;
      assert held[..collected] == held;
      pos := read.value.next;
      taken := held + read.value.bits;
      x, collected := AbsorbEvent(x, collected, n, read.value.bits, held);
    }
    if n > 0 {
      AllBitsPrefix(src, script, pos);
      assert AllBits(src, script)[..n] == taken[..n];
    }
    r := Ok(x);
  }
}
