/** Optional values, and results that either carry a value or name the error the program stops with. */
module Results {

  datatype Option<+T> = None | Some(value: T) {
    function GetOr(default: T): T {
      match this
      case Some(v) => v
      case None => default
    }
  }

  /** Every way a run of the generator ends without a password. */
  datatype Error =
    | InvalidEntropy      // the requested bit count is not positive
    | InvalidMode         // the mode is neither "charset" nor "wordlist"
    | InvalidCharset      // an unknown charset selector
    | InvalidWordlist     // an unknown wordlist selector
    | InvalidUserSource   // the interactive source is neither "coin" nor "dice"
    | NoEntropySource     // both entropy sources are disabled
    | OutOfTokens         // the operator's input ended before enough bits were read
    | DivisionByZero      // base conversion of a positive value with an empty symbol set
    | Diverges            // base conversion of a positive value in base 1 never returns a result (it loops until memory runs out)
    | IndexOutOfRange     // an offset does not index the symbol set

  datatype Result<+T> = Ok(value: T) | Err(error: Error)
}
