/**
 * The password itself: the symbol set chosen by mode and selector, the entropy written in
 * base |symbols| as offsets, and the selected symbols joined by "" (characters) or " " (words).
 */
module Password {
  import opened Results
  import opened Radix
  import opened UserEntropy
  import opened Entropy

  /** The run's configuration, one field per recognised option (the verbose switch only affects output). */
  datatype Config = Config(
    entropy: int,
    useUserEntropy: bool,
    useSystemEntropy: bool,
    userSource: string,
    mode: string,
    charset: string,
    wordlist: string)

  const Lowercase := "abcdefghijklmnopqrstuvwxyz"
  const Uppercase := "ABCDEFGHIJKLMNOPQRSTUVWXYZ"
  const DecimalDigits := "0123456789"
  const CustomPrefix := "custom="

  /** The named charsets, and a custom charset given literally after "custom=". */
  function GetCharset(selector: string): (r: Result<string>)
    ensures CustomPrefix <= selector ==> r == Ok(selector[|CustomPrefix|..])
    ensures r.Err? ==> r.error == InvalidCharset
  {
    assert CustomPrefix <= selector ==> selector[0] == 'c';
    if selector == "alphanumeric" then Ok(Lowercase + DecimalDigits)
    else if selector == "alphanumeric_full" then Ok(Lowercase + Uppercase + DecimalDigits)
    else if selector == "letters" then Ok(Lowercase)
    else if selector == "digits" then Ok(DecimalDigits)
    else if selector == "hex" then Ok(DecimalDigits + "abcdef")
    else if CustomPrefix <= selector then Ok(selector[|CustomPrefix|..])
    else Err(InvalidCharset)
  }

  /** "custom=" followed by any text selects exactly that text; the named charsets have their stated sizes. */
  lemma CharsetSelectors(chars: string, selector: string)
    ensures GetCharset(CustomPrefix + chars) == Ok(chars)
    ensures GetCharset("alphanumeric") == Ok(Lowercase + DecimalDigits) && |Lowercase + DecimalDigits| == 36
    ensures GetCharset("alphanumeric_full").Ok? && |GetCharset("alphanumeric_full").value| == 62
    ensures GetCharset("letters").Ok? && |GetCharset("letters").value| == 26
    ensures GetCharset("digits").Ok? && |GetCharset("digits").value| == 10
    ensures GetCharset("hex") == Ok("0123456789abcdef")
    ensures GetCharset(selector).Err? <==>
      selector !in ["alphanumeric", "alphanumeric_full", "letters", "digits", "hex"] && !(CustomPrefix <= selector)
  {
    assert CustomPrefix <= CustomPrefix + chars;
    assert CustomPrefix <= selector ==> selector[0] == 'c';
    assert (CustomPrefix + chars)[|CustomPrefix|..] == chars;
    assert DecimalDigits + "abcdef" == "0123456789abcdef";
  }

  /** The wordlist file for a selector: one of the bundled lists, or the path given after "custom=". */
  function WordlistFile(selector: string): (r: Result<string>)
    ensures CustomPrefix <= selector ==> r == Ok(selector[|CustomPrefix|..])
    ensures r.Err? <==>
      selector !in ["eff_large", "eff_short", "eff_short_v2"] && !(CustomPrefix <= selector)
  {
    assert CustomPrefix <= selector ==> selector[0] == 'c';
    if selector == "eff_large" then Ok("wordlists/eff_large_wordlist.txt")
    else if selector == "eff_short" then Ok("wordlists/eff_short_wordlist_1.txt")
    else if selector == "eff_short_v2" then Ok("wordlists/eff_short_wordlist_2_0.txt")
    else if CustomPrefix <= selector then Ok(selector[|CustomPrefix|..])
    else Err(InvalidWordlist)
  }

  /** A charset as a symbol set: each character is one symbol. */
  function Symbols(chars: string): (symbols: seq<string>)
    ensures |symbols| == |chars|
    ensures forall i :: 0 <= i < |chars| ==> symbols[i] == [chars[i]]
  {
    seq(|chars|, i requires 0 <= i < |chars| => [chars[i]])
  }

  /**
   * GetEntities: the symbol set for the mode. In wordlist mode `words` are the words read
   * from the selected file.
   */
  function GetEntities(mode: string, charset: string, wordlist: string, words: seq<string>): (r: Result<seq<string>>)
    ensures mode != "charset" && mode != "wordlist" ==> r == Err(InvalidMode)
    ensures mode == "charset" && GetCharset(charset).Ok? ==> r == Ok(Symbols(GetCharset(charset).value))
    ensures mode == "wordlist" && WordlistFile(wordlist).Ok? ==> r == Ok(words)
    ensures mode == "charset" && GetCharset(charset).Err? ==> r == Err(InvalidCharset)
    ensures mode == "wordlist" && WordlistFile(wordlist).Err? ==> r == Err(InvalidWordlist)
  {
    if mode == "charset" then
      match GetCharset(charset)
      case Err(e) => Err(e)
      case Ok(chars) => Ok(Symbols(chars))
    else if mode == "wordlist" then
      match WordlistFile(wordlist)
      case Err(e) => Err(e)
      case Ok(_) => Ok(words)
    else Err(InvalidMode)
  }

  /** The combined length of a sequence of strings. */
  function TotalLength(parts: seq<string>): nat {
    if parts == [] then 0 else |parts[0]| + TotalLength(parts[1..])
  }

  /**
   * Python's sep.join(parts): the parts in order, the first one leading, with one separator
   * between neighbours and none at either end.
   */
  function Join(parts: seq<string>, sep: string): (r: string)
    ensures parts == [] ==> r == ""
    ensures parts != [] ==> parts[0] <= r
    ensures parts != [] ==> |r| == TotalLength(parts) + |sep| * (|parts| - 1)
  {
    if parts == [] then ""
    else if |parts| == 1 then parts[0]
    else parts[0] + sep + Join(parts[1..], sep)
  }

  /**
   * Joining two non-empty runs of parts is joining each and putting one separator between
   * them. With the join of one part being that part, this fixes the join of any parts: each
   * part in order, one separator between neighbours.
   */
  lemma {:induction false} JoinAppend(a: seq<string>, b: seq<string>, sep: string)
    requires a != [] && b != []
    ensures Join([a[0]], sep) == a[0]
    ensures Join(a + b, sep) == Join(a, sep) + sep + Join(b, sep)
  {
    assert (a + b)[0] == a[0];
    if |a| == 1 {
      assert (a + b)[1..] == b;
    } else {
      assert (a + b)[1..] == a[1..] + b;
      JoinAppend(a[1..], b, sep);
    }
  }

  /**
   * Python's s.split(" "): the pieces between single spaces, empty pieces included; a string
   * without a space is one piece.
   */
  function SplitSpaces(s: string): (pieces: seq<string>)
    ensures |pieces| >= 1
  {
    if s == [] then [""]
    else if s[0] == ' ' then [""] + SplitSpaces(s[1..])
    else
      var rest := SplitSpaces(s[1..]);
      [[s[0]] + rest[0]] + rest[1..]
  }

  /** A space-free word in front of a string extends the string's first piece. */
  lemma {:induction false} SplitSpacesPrefix(w: string, t: string)
    requires ' ' !in w
    ensures SplitSpaces(w + t) == [w + SplitSpaces(t)[0]] + SplitSpaces(t)[1..]
  {
    if w != [] {
      assert (w + t)[1..] == w[1..] + t;
      assert ' ' !in w[1..];
      SplitSpacesPrefix(w[1..], t);
      assert [w[0]] + (w[1..] + SplitSpaces(t)[0]) == w + SplitSpaces(t)[0];
    } else {
      var pieces := SplitSpaces(t);
      assert w + t == t && w + pieces[0] == pieces[0];
      assert [pieces[0]] + pieces[1..] == pieces;
    }
  }

  /** Splitting words joined by single spaces gives the words back, provided none holds a space. */
  lemma {:induction false} SplitJoin(parts: seq<string>)
    requires |parts| >= 1
    requires forall i :: 0 <= i < |parts| ==> ' ' !in parts[i]
    ensures SplitSpaces(Join(parts, " ")) == parts
  {
    SplitSpacesPrefix(parts[0], []);
    assert parts[0] + [] == parts[0];
    if |parts| > 1 {
      var rest := Join(parts[1..], " ");
      SplitJoin(parts[1..]);
      assert (" " + rest)[1..] == rest;
      assert SplitSpaces(" " + rest) == [""] + parts[1..];
      SplitSpacesPrefix(parts[0], " " + rest);
      assert parts[0] + " " + rest == parts[0] + (" " + rest);
      assert parts[0] + "" == parts[0];
      assert [parts[0]] + parts[1..] == parts;
    } else {
      var w := parts[0];
      assert SplitSpaces([]) == [""];
      assert SplitSpaces(w + []) == [w + ""] + [];
      assert w + [] == w && w + "" == w;
      assert Join(parts, " ") == w;
      assert parts == [w];
    }
  }

  function Occurrences(c: char, s: string): nat {
    if s == [] then 0 else (if s[0] == c then 1 else 0) + Occurrences(c, s[1..])
  }

  lemma {:induction false} OccurrencesAppend(c: char, a: string, b: string)
    ensures Occurrences(c, a + b) == Occurrences(c, a) + Occurrences(c, b)
  {
    if a != [] {
      assert (a + b)[1..] == a[1..] + b;
      OccurrencesAppend(c, a[1..], b);
    } else {
      assert a + b == b;
    }
  }

  lemma {:induction false} OccurrencesAbsent(c: char, s: string)
    requires c !in s
    ensures Occurrences(c, s) == 0
  {
    if s != [] {
      assert c !in s[1..];
      OccurrencesAbsent(c, s[1..]);
    }
  }

  /** Joining one-character symbols with no separator gives one character per symbol, in order. */
  lemma {:induction false} JoinChars(parts: seq<string>)
    requires forall i :: 0 <= i < |parts| ==> |parts[i]| == 1
    ensures |Join(parts, "")| == |parts|
    ensures forall i :: 0 <= i < |parts| ==> Join(parts, "")[i] == parts[i][0]
  {
    if |parts| > 1 {
      JoinChars(parts[1..]);
      assert Join(parts, "") == parts[0] + Join(parts[1..], "");
    }
  }

  /** Joining space-free words with single spaces puts exactly one space between neighbours. */
  lemma {:induction false} JoinWords(parts: seq<string>)
    requires |parts| >= 1
    requires forall i :: 0 <= i < |parts| ==> ' ' !in parts[i]
    ensures Occurrences(' ', Join(parts, " ")) == |parts| - 1
  {
    OccurrencesAbsent(' ', parts[0]);
    if |parts| > 1 {
      JoinWords(parts[1..]);
      OccurrencesAppend(' ', parts[0] + " ", Join(parts[1..], " "));
      OccurrencesAppend(' ', parts[0], " ");
    }
  }

  /** The separator main joins with: a space between words, nothing between characters. */
  function Separator(mode: string): string {
    if mode == "wordlist" then " " else ""
  }

  /** The list comprehension of main: the symbol each offset selects, in offset order. */
  function Selected(symbols: seq<string>, offsets: seq<nat>): (parts: seq<string>)
    requires forall i :: 0 <= i < |offsets| ==> offsets[i] < |symbols|
    ensures |parts| == |offsets|
    ensures forall i :: 0 <= i < |offsets| ==> parts[i] == symbols[offsets[i]]
  {
    seq(|offsets|, i requires 0 <= i < |offsets| => symbols[offsets[i]])
  }

  /** The symbols the offsets select, joined. */
  function Render(symbols: seq<string>, offsets: seq<nat>, sep: string): string
    requires forall i :: 0 <= i < |offsets| ==> offsets[i] < |symbols|
  {
    Join(Selected(symbols, offsets), sep)
  }

  /** NumToBase's result for the entropy value; a zero value is the single offset 0 in any base. */
  function Offsets(entropy: nat, base: nat): (offsets: seq<nat>)
    requires entropy == 0 || base >= 2
    ensures entropy == 0 ==> offsets == [0]
  {
    if base >= 2 then ToDigits(entropy, base) else [0]
  }

  /**
   * Every offset main computes indexes the symbol set, provided the set has at least two
   * symbols, or at least one when the value is 0.
   */
  lemma OffsetsIndexSymbols(e: nat, symbols: seq<string>)
    requires |symbols| >= 2 || (e == 0 && |symbols| >= 1)
    ensures forall i :: 0 <= i < |Offsets(e, |symbols|)| ==> Offsets(e, |symbols|)[i] < |symbols|
  {
    if |symbols| >= 2 {
      var ds := ToDigits(e, |symbols|);
      assert DigitsBelow(ds, |symbols|);
    }
  }

  /** The system source returns a value of the requested width. */
  predicate SystemBitsFit(cfg: Config, systemBits: nat) {
    cfg.entropy > 0 && cfg.useSystemEntropy ==> systemBits < Pow(2, cfg.entropy)
  }

  /**
   * What a run of main produces: the configuration checks, the symbol set, the combined
   * entropy, its offsets in base |symbols| and the joined password. A symbol set of fewer
   * than two entries is not rejected: for a positive value the conversion divides by zero
   * (no symbols) or never ends (one symbol), and for the value 0 the lone offset 0 selects
   * the first symbol, if there is one.
   */
  function Generate(cfg: Config, words: seq<string>, script: seq<string>, systemBits: nat): Result<string>
    requires SystemBitsFit(cfg, systemBits)
  {
    if cfg.entropy <= 0 then Err(InvalidEntropy)
    else match GetEntities(cfg.mode, cfg.charset, cfg.wordlist, words)
      case Err(e) => Err(e)
      case Ok(symbols) =>
        match CombinedEntropy(cfg.entropy, cfg.useUserEntropy, cfg.useSystemEntropy, cfg.userSource, script, systemBits)
        case Err(e) => Err(e)
        case Ok(entropy) =>
          if entropy > 0 && |symbols| == 0 then Err(DivisionByZero)
          else if entropy > 0 && |symbols| == 1 then Err(Diverges)
          else if |symbols| == 0 then Err(IndexOutOfRange)
          else Ok(Render(symbols, Offsets(entropy, |symbols|), Separator(cfg.mode)))
  }

  /**
   * main: validates the bit count, loads the symbols, gathers the entropy, converts it to
   * offsets in base |symbols| and joins the selected symbols.
   */
  method GeneratePassword(cfg: Config, words: seq<string>, script: seq<string>, systemBits: nat)
    returns (r: Result<string>)
    requires SystemBitsFit(cfg, systemBits)
    ensures r == Generate(cfg, words, script, systemBits)
  {
    if cfg.entropy <= 0 {
      return Err(InvalidEntropy);
    }
    var entities := GetEntities(cfg.mode, cfg.charset, cfg.wordlist, words);
    if entities.Err? {
      return Err(entities.error);
    }
    var symbols := entities.value;
    var entropy := GetEntropy(cfg.entropy, cfg.useUserEntropy, cfg.useSystemEntropy,
                              cfg.userSource, script, systemBits);
    if entropy.Err? {
      return Err(entropy.error);
    }
    var x := entropy.value;
    if x > 0 && |symbols| < 2 {
      // NumToBase divides by zero in base 0 and loops forever in base 1
      return Err(if |symbols| == 0 then DivisionByZero else Diverges);
    }
    var offsets := NumToBase(x, |symbols|);
    if !(forall i :: 0 <= i < |offsets| ==> offsets[i] < |symbols|) {
      return Err(IndexOutOfRange);
    }
    var parts := Selected(symbols, offsets);
    var pwd := Join(parts, if cfg.mode == "wordlist" then " " else "");
    r := Ok(pwd);
  }

  /**
   * In charset mode with at least two characters, the password has one character per base-|charset|
   * digit of the combined entropy value, each the charset character that digit selects; the
   * digits read back give the entropy value, which is below 2^N.
   */
  lemma CharsetPassword(cfg: Config, words: seq<string>, script: seq<string>, systemBits: nat, chars: string, e: nat)
    requires SystemBitsFit(cfg, systemBits) && cfg.entropy > 0
    requires cfg.mode == "charset" && GetCharset(cfg.charset) == Ok(chars) && |chars| >= 2
    requires CombinedEntropy(cfg.entropy, cfg.useUserEntropy, cfg.useSystemEntropy, cfg.userSource, script, systemBits) == Ok(e)
    ensures e < Pow(2, cfg.entropy) && Eval(ToDigits(e, |chars|), |chars|) == e
    ensures Generate(cfg, words, script, systemBits).Ok?
    ensures var pwd := Generate(cfg, words, script, systemBits).value;
      |pwd| == |ToDigits(e, |chars|)| &&
      forall i :: 0 <= i < |pwd| ==> pwd[i] == chars[ToDigits(e, |chars|)[i]]
  {
    var offsets := ToDigits(e, |chars|);
    ToDigitsValue(e, |chars|);
    JoinChars(Selected(Symbols(chars), offsets));
  }

  /**
   * In wordlist mode with at least two space-free words, the password is one word per
   * base-|words| digit of the combined entropy value, with a single space between words:
   * split at its spaces it gives, in order, the word each digit selects.
   */
  lemma WordlistPassword(cfg: Config, words: seq<string>, script: seq<string>, systemBits: nat, e: nat)
    requires SystemBitsFit(cfg, systemBits) && cfg.entropy > 0
    requires cfg.mode == "wordlist" && WordlistFile(cfg.wordlist).Ok? && |words| >= 2
    requires forall i :: 0 <= i < |words| ==> ' ' !in words[i]
    requires CombinedEntropy(cfg.entropy, cfg.useUserEntropy, cfg.useSystemEntropy, cfg.userSource, script, systemBits) == Ok(e)
    ensures Generate(cfg, words, script, systemBits).Ok?
    ensures Occurrences(' ', Generate(cfg, words, script, systemBits).value) == |ToDigits(e, |words|)| - 1
    ensures var pieces := SplitSpaces(Generate(cfg, words, script, systemBits).value);
      |pieces| == |ToDigits(e, |words|)| &&
      forall i :: 0 <= i < |pieces| ==> pieces[i] == words[ToDigits(e, |words|)[i]]
  {
    var offsets := ToDigits(e, |words|);
    var parts := Selected(words, offsets);
    JoinWords(parts);
    SplitJoin(parts);
  }

  /** 15 in binary is 1111. */
  lemma FifteenInBinary()
    ensures ToDigits(15, 2) == [1, 1, 1, 1] && Eval([1, 1, 1, 1], 2) == 15
  {
    assert ToDigits(1, 2) == [1];
    assert ToDigits(3, 2) == [1, 1];
    assert ToDigits(7, 2) == [1, 1, 1];
  }

  /** Four flips of the same accepted side give that side's bit four times. */
  lemma FourFlipsBits(side: string, bit: Bit)
    requires CoinFlip(side) == Some([bit])
    ensures AllBits(Coin, [side, side, side, side]) == [bit, bit, bit, bit]
  {
    assert AllBits(Coin, [side]) == [bit];
    AllBitsAppend(Coin, [side], [side]);
    assert [side] + [side] == [side, side];
    AllBitsAppend(Coin, [side, side], [side, side]);
    assert [side, side] + [side, side] == [side, side, side, side];
  }

  /** The coin flips h,h,h,h,t,t,t,t give the bits 0,0,0,0,1,1,1,1. */
  lemma CoinFlipScriptBits()
    ensures AllBits(Coin, ["h", "h", "h", "h", "t", "t", "t", "t"]) == [0, 0, 0, 0, 1, 1, 1, 1]
  {
    CoinFlipTable("h");
    CoinFlipTable("t");
    FourFlipsBits("h", 0);
    FourFlipsBits("t", 1);
    AllBitsAppend(Coin, ["h", "h", "h", "h"], ["t", "t", "t", "t"]);
    assert ["h", "h", "h", "h"] + ["t", "t", "t", "t"] == ["h", "h", "h", "h", "t", "t", "t", "t"];
  }

  /** The operator's bits for the flips h,h,h,h,t,t,t,t are 00001111, the value 15. */
  lemma CoinFlipBits()
    ensures UserBits("coin", 8, ["h", "h", "h", "h", "t", "t", "t", "t"]) == Ok(15)
  {
    CoinFlipScriptBits();
    var bits: seq<nat> := [0, 0, 0, 0, 1, 1, 1, 1];
    assert bits[..8] == bits == Zeros(4) + [1, 1, 1, 1];
    EvalLeadingZeros(4, [1, 1, 1, 1], 2);
    FifteenInBinary();
  }

  /**
   * Eight coin flips h,h,h,h,t,t,t,t for 8 bits with only the operator's entropy, mapped onto
   * the charset "ab": the value 15, whose binary digits 1111 select "bbbb".
   */
  lemma CoinFlipScenario()
    ensures Generate(Config(8, true, false, "coin", "charset", "custom=ab", "eff_large"),
                     [], ["h", "h", "h", "h", "t", "t", "t", "t"], 0) == Ok("bbbb")
  {
    CoinFlipBits();
    FifteenInBinary();
    assert CustomPrefix <= "custom=ab";
    assert "custom=ab"[|CustomPrefix|..] == "ab";
    assert GetEntities("charset", "custom=ab", "eff_large", []) == Ok(Symbols("ab"));
    assert CombinedEntropy(8, true, false, "coin", ["h", "h", "h", "h", "t", "t", "t", "t"], 0) == Ok(15);
    assert Offsets(15, 2) == [1, 1, 1, 1];
    var parts := Selected(Symbols("ab"), [1, 1, 1, 1]);
    assert parts == ["b", "b", "b", "b"];
    assert Join(parts, "") == "bbbb" by {
      assert parts[1..][1..][1..] == ["b"];
      assert Join(parts[1..][1..], "") == "bb";
    }
  }

  /**
   * A four-word list with a zero entropy value (system source only, returning 0): the value 0
   * is the single offset 0, so the password is the one word "alpha", not four words.
   */
  lemma ZeroEntropyScenario()
    ensures Generate(Config(4, false, true, "coin", "wordlist", "alphanumeric", "custom=words.txt"),
                     ["alpha", "bravo", "charlie", "delta"], [], 0) == Ok("alpha")
  {
    var words := ["alpha", "bravo", "charlie", "delta"];
    assert CustomPrefix <= "custom=words.txt";
    assert GetEntities("wordlist", "alphanumeric", "custom=words.txt", words) == Ok(words);
    assert CombinedEntropy(4, false, true, "coin", [], 0) == Ok(0);
    assert Offsets(0, 4) == [0];
    assert Selected(words, [0]) == ["alpha"];
  }
}
