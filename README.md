# Interactive password generator, modelled in Dafny

`generate_password.py` builds a password from N bits of entropy. The bits come from two
sources. The first is an operator who types coin flips (`h`/`t`) or die rolls (`1`-`6`).
The second is the system's secure random generator. When both are enabled they are combined
with exclusive-or. The resulting number is written in base |symbols|, where the symbols are
the characters of a charset or the words of a wordlist. Each digit selects one symbol. The
selected symbols are joined with nothing (charset mode) or with single spaces (wordlist mode).

The model has six modules:

- `Results` (results.dfy): `Option`, `Result`, and the `Error` values. Each error stands for
  one way the program stops with a fatal message.
- `Radix` (radix.dfy): the big-endian value of a digit sequence, `Eval`, and the canonical
  digits of a number, `ToDigits`. `NumToBase` is the imperative division loop, proved equal to
  `ToDigits`. `NumToBitString` is the padded bit string.
- `BitXor` (bit_xor.dfy): exclusive-or on unbounded naturals, with its algebra.
- `UserEntropy` (user_entropy.dfy): the coin and die tables and the prompt-until-valid loop
  (`ReadEvent`). `UserBits` specifies the exact-count accumulator. `GetUserBits` is the loop
  itself, including the negative-index truncation of an event that overshoots.
- `Entropy` (entropy.dfy): `CombinedEntropy` specifies the combination; `GetEntropy` is the
  step-by-step exclusive-or accumulation.
- `Password` (password.dfy): the charset and wordlist selector tables and the symbol set.
  `Generate` specifies a whole run of `main`. `GeneratePassword` is `main` itself. Scenario
  lemmas work out concrete runs.

The operator's typing is a finite script of tokens, and the system's random value is a
parameter below 2^N. The wordlist's words are a parameter as well.

## Model

| member | source | states |
|---|---|---|
| UserEntropy.ParseSource | generate_password.py:127-133 | only "coin" and "dice" name an interactive source |
| UserEntropy.UpperCases | generate_password.py:95-96 | upper-casing keeps the length, leaves no lower-case letter, maps each lower-case letter to its capital, keeps all other characters, and is idempotent |
| UserEntropy.CoinFlip | generate_password.py:92-102 | an accepted coin answer is exactly one bit |
| UserEntropy.CoinFlipTable | generate_password.py:94-102 | after upper-casing, h/H and only they give [0]; t/T and only they give [1]; every other token is rejected |
| UserEntropy.DiceRoll | generate_password.py:104-125 | an accepted die face gives one or two bits |
| UserEntropy.DiceRollTable | generate_password.py:110-125 | exactly the faces 1-6 are accepted; exactly faces 1-4 give two bits; no two faces give the same bits |
| UserEntropy.DiceRollCovers | generate_password.py:107-123 | every one- and two-bit pattern comes from some face |
| UserEntropy.EventBits | generate_password.py:127-133 | one event of either source gives one or two bits |
| UserEntropy.ReadEvent | generate_password.py:94-125 | the retry loop skips only rejected tokens; it returns the bits of the first accepted token and the position after it, or reports that the script has no accepted token left |
| UserEntropy.AllBitsAppend | generate_password.py:139-148 | the bits of two consecutive stretches of input are the bits of the first followed by those of the second |
| UserEntropy.InvalidTokenSkipped | generate_password.py:101-102 | a rejected token anywhere in the input changes none of the bits read |
| UserEntropy.AllBitsPrefix | generate_password.py:139-140 | the bits of a prefix of the input are a prefix of its bits |
| UserEntropy.SliceTo | generate_password.py:144 | Python's s[:stop] for any integer stop is a prefix of s |
| UserEntropy.OvershootKeepsLeadingBits | generate_password.py:143-144 | when an event would overshoot, the negative slice bound keeps exactly its first n - bits_collected bits, so the count lands on n |
| UserEntropy.KeptBits | generate_password.py:143-148 | one round keeps at most n bits in total; the kept bits continue those held so far; fewer than n means the whole event was kept |
| UserEntropy.AllBitsSnoc | generate_password.py:139-140 | reading one more token adds that token's bits, if any, at the end |
| UserEntropy.AbsorbEvent | generate_password.py:143-148 | after an event the count grows, stays at most n, and falls short of n only when the whole event was kept; x holds that many leading bits of the input so far |
| UserEntropy.ShiftIn | generate_password.py:145-148 | shifting bits in at the low end yields the big-endian value of the old bits followed by the new ones; the count grows by their number |
| UserEntropy.GetUserBits | generate_password.py:135-149 | the result is the big-endian value of exactly the first n bits the accepted tokens supply; an unknown source or running out of tokens is an error |
| UserEntropy.UserBitsBound | generate_password.py:137-149 | the collected value is below 2^n |
| UserEntropy.DiceTruncationScenario | generate_password.py:139-148 | rolls 1, 2, 3 for 5 bits keep only the leading bit of the last roll and give 00011 = 3 |
| Radix.EvalBound | generate_password.py:145-147 | n digits below the base hold a value below base^n |
| Radix.ToDigits | generate_password.py:154-171 | the digits are in range and have no leading zero unless they are the lone 0 |
| Radix.ToDigitsValue | generate_password.py:154-171 | the digits of x, read most significant first, give back x |
| Radix.LowDigitsReversed | generate_password.py:163-171 | the digits collected by repeated division, reversed, are the canonical digits of a positive x |
| Radix.ToDigitsLeading | generate_password.py:168-171 | a lone [0] comes from zero and only from zero; every other result starts with a non-zero digit |
| Radix.ToDigitsLength | generate_password.py:164-171 | a positive x gets the minimal number of digits: base^(len-1) <= x < base^len |
| Radix.ToDigitsEval | generate_password.py:154-171 | writing the value of a canonical digit sequence gives back those digits |
| Radix.ToDigitsInjective | generate_password.py:154-171 | distinct values get distinct digit sequences |
| Radix.Reversed | generate_password.py:170-171 | the reversed digits have the same length, and position i holds the digit at position len-1-i |
| Radix.NumToBase | generate_password.py:154-171 | the division loop returns [0] for zero and, for every base of at least 2, the canonical digits of x |
| Radix.NumToBaseExamples | generate_password.py:159-161 | 32 in base 2 is [1,0,0,0,0,0] and 0x20 in base 10 is [3,2] |
| Radix.BitCharsValue | generate_password.py:178 | writing bits as '0'/'1' characters keeps the value they denote |
| Radix.NumToBitString | generate_password.py:173-178 | the length is the larger of the width and the digit count; only '0' and '1' occur; the string still denotes x |
| BitXor.Xor | generate_password.py:191-197 | exclusive-or of two values is 0 exactly when they are equal, and never exceeds their sum |
| BitXor.XorZero | generate_password.py:182-197 | 0 is neutral, so a single enabled source passes through unchanged |
| BitXor.XorCommutes | generate_password.py:191-197 | the order of the two sources does not matter |
| BitXor.XorBound | generate_password.py:191-197 | combining two N-bit values gives an N-bit value |
| BitXor.XorCancels | generate_password.py:191-197 | combining with the same value twice restores the original |
| BitXor.XorPermutes | generate_password.py:191-197 | for a fixed N-bit operand the combination is a one-to-one map of the N-bit values onto themselves |
| BitXor.XorMatchesBits | generate_password.py:191-197 | the combination agrees with bit-by-bit exclusive-or of equally long bit strings |
| Entropy.CombinedEntropy | generate_password.py:180-204 | no enabled source is an error; a single source passes through; an operator error propagates; the value is below 2^N |
| Entropy.CombinedEntropyPermutes | generate_password.py:186-197 | with both sources enabled, the result is symmetric and one-to-one in the system value, and it reaches every N-bit value |
| Entropy.GetEntropy | generate_password.py:180-204 | the step-by-step accumulation equals the combined entropy |
| Password.GetCharset | generate_password.py:38-58 | a "custom=" selector yields the text after the prefix; the only error is an invalid charset |
| Password.CharsetSelectors | generate_password.py:41-54 | the named charsets have 36, 62, 26, 10 and 16 characters; custom text comes back exactly; a selector is rejected if and only if it is neither named nor custom |
| Password.WordlistFile | generate_password.py:78-90 | a "custom=" selector yields the path after the prefix; a selector is rejected if and only if it is neither a bundled list nor custom |
| Password.GetEntities | generate_password.py:29-36 | charset mode gives one symbol per charset character, or the invalid-charset error; wordlist mode gives the words, or the invalid-wordlist error; any other mode is an error |
| Password.OffsetsIndexSymbols | generate_password.py:214-215 | every offset of the entropy value indexes the symbol set, given at least two symbols (or one, for the value 0) |
| Password.Join | generate_password.py:217-220 | the join of no parts is empty; otherwise it starts with the first part and its length is the parts' total plus one separator between each pair of neighbours |
| Password.JoinAppend | generate_password.py:217-220 | the join of one part is that part, and joining two non-empty runs of parts is joining each with one separator between them, so the join is every part in order with one separator between neighbours |
| Password.JoinChars | generate_password.py:219-220 | joining one-character symbols gives one character per symbol, in order |
| Password.JoinWords | generate_password.py:217-218 | joining space-free words with " " gives text holding exactly |parts| - 1 spaces |
| Password.GeneratePassword | generate_password.py:206-220 | a run of main returns exactly what the specification of a run gives, errors included |
| Password.CharsetPassword | generate_password.py:212-220 | in charset mode with two or more characters, the run succeeds; the password has one character per base-|charset| digit of the entropy, and that character is the one the digit selects |
| Password.WordlistPassword | generate_password.py:212-218 | in wordlist mode with two or more space-free words, the run succeeds; the password has one space between neighbouring words, and split at its spaces it gives, in order, the word each base-|words| digit of the entropy selects |
| Password.SplitJoin | generate_password.py:217-218 | space-free words joined with " " are recovered exactly by splitting at the spaces |
| Password.CoinFlipBits | generate_password.py:92-149 | the flips h,h,h,h,t,t,t,t for 8 bits give 00001111 = 15 |
| Password.CoinFlipScenario | generate_password.py:206-220 | with operator entropy only, those flips and the charset "ab" give the password "bbbb" |
| Password.ZeroEntropyScenario | generate_password.py:164-171 | a combined value of 0 over four words gives the single word "alpha" |

## Left out

- Command-line flags and verbose output are not modelled. The flags become explicit parameters
  and a `Config` value. The verbose printing, `hex()` display and the final `print` are output only.
- The operator's console is not modelled. The operator's typing is a finite script of tokens.
  When the script ends before enough accepted tokens were read, the model returns
  `Err(OutOfTokens)`. That stands for the end of the operator's input: `input()` then raises an
  uncaught `EOFError`, or, on a terminal that stays open, the prompt waits without end.
- The system generator's draw is not modelled. Its N random bits are a parameter below 2^N.
  Uniformity is probabilistic and is not stated. What is proved is that combining with any fixed
  operator value is a permutation of the N-bit values.
- Reading the wordlist file is not modelled. This covers the file and path handling and the
  per-line `[1-6]+\s+(\w+)` extraction. The words are a parameter; only the selector table
  (`WordlistFile`) is modelled.
- `UserEntropy.Upper`: changes only the ASCII letters a-z and keeps the length. Python's
  `str.upper` also maps other Unicode letters and can lengthen text ('ß' becomes "SS"). The
  difference is harmless here: no such token upper-cases to "H" or "T", so it is rejected either way.
- `Password.GeneratePassword` does not model an endless loop. For a positive value and a
  one-symbol set, `NumToBase` never returns a result (it loops until memory runs out); the
  model reports `Err(Diverges)`. For an empty
  symbol set, `Err(DivisionByZero)` stands for the exception.
- Symbol sets smaller than two are not rejected before conversion, because the code has no such
  check. The model follows the code: the errors above for a positive value, and for the value 0
  the lone offset 0, which selects the only symbol of a one-symbol set or fails to index an
  empty one (`Err(IndexOutOfRange)`).
