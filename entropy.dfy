/**
 * GetEntropy: exclusive-or of the enabled sources, the operator's bits and the system's
 * bits. The system source (a cryptographically secure generator asked for n random bits)
 * is an input value below 2^n.
 */
module Entropy {
  import opened Results
  import opened Radix
  import opened BitXor
  import opened UserEntropy

  /**
   * The combined entropy: an error when no source is enabled or the operator's bits cannot
   * be read, otherwise the exclusive-or of the enabled sources.
   */
  function CombinedEntropy(n: nat, useUser: bool, useSystem: bool, userSource: string,
                           script: seq<string>, systemBits: nat): (r: Result<nat>)
    requires useSystem ==> systemBits < Pow(2, n)
    ensures r.Ok? ==> r.value < Pow(2, n)
    ensures !useUser && !useSystem ==> r == Err(NoEntropySource)
    ensures !useUser && useSystem ==> r == Ok(systemBits)
    ensures useUser && UserBits(userSource, n, script).Err? ==> r == Err(UserBits(userSource, n, script).error)
    ensures useUser && !useSystem ==> r == UserBits(userSource, n, script)
  {
    UserBitsBound(userSource, n, script);
    if !useUser && !useSystem then Err(NoEntropySource)
    else if !useUser then Ok(systemBits)
    else match UserBits(userSource, n, script)
      case Err(e) => Err(e)
      case Ok(user) =>
        if useSystem then
          XorBound(user, systemBits, n);
          Ok(Xor(user, systemBits))
        else Ok(user)
  }

  /**
   * With both sources enabled the combination does not depend on their order, and for any
   * fixed operator input it is a one-to-one map of the system's N-bit values onto the N-bit
   * values: a uniformly drawn system value gives a uniformly distributed result.
   */
  lemma CombinedEntropyPermutes(n: nat, userSource: string, script: seq<string>, s1: nat, s2: nat)
    requires s1 < Pow(2, n) && s2 < Pow(2, n)
    requires UserBits(userSource, n, script).Ok?
    ensures CombinedEntropy(n, true, true, userSource, script, s1)
         == Ok(Xor(s1, UserBits(userSource, n, script).value))
    ensures (CombinedEntropy(n, true, true, userSource, script, s1)
             == CombinedEntropy(n, true, true, userSource, script, s2)) ==> s1 == s2
    ensures exists s: nat :: s < Pow(2, n) && CombinedEntropy(n, true, true, userSource, script, s) == Ok(s1)
  {
    var user := UserBits(userSource, n, script).value;
    UserBitsBound(userSource, n, script);
    XorCommutes(user, s1);
    XorPermutes(user, n);
    var s := Xor(user, s1);
    assert CombinedEntropy(n, true, true, userSource, script, s) == Ok(s1);
  }

  /**
   * GetEntropy: starts from 0 and folds each enabled source in with exclusive-or, after
   * rejecting the configuration with no source at all.
   */
  method GetEntropy(n: nat, useUser: bool, useSystem: bool, userSource: string,
                    script: seq<string>, systemBits: nat) returns (r: Result<nat>)
    requires useSystem ==> systemBits < Pow(2, n)
    ensures r == CombinedEntropy(n, useUser, useSystem, userSource, script, systemBits)
  {
    var entropy: nat := 0;
    if !useUser && !useSystem {
      return Err(NoEntropySource);
    }
    if useUser {
      var user := GetUserBits(userSource, n, script);
      if user.Err? {
        return Err(user.error);
      }
      XorZero(user.value);
      entropy := Xor(entropy, user.value);
    }
    if useSystem {
      XorZero(systemBits);
      entropy := Xor(entropy, systemBits);
    }
    r := Ok(entropy);
  }
}
