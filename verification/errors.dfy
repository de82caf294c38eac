/**
 * The error answers of the application: each apology page it renders, with
 * its message text, and the uncaught exceptions that end a request with a
 * server error before anything has been written.
 */
module Errors {

  /** Why a request raised an exception instead of answering with an apology. */
  datatype Crash =
    | FloatOfMissingField   // float(None) in buy: a TypeError, which `except ValueError` does not catch
    | IntOfNonInteger       // int(text) in sell on text that is not an integer literal
    | IntOfNullSum          // int(None) in sell: SUM(shares) is NULL when no order has that symbol
    | QuoteOfUnknownSymbol  // quote["price"] in sell when the quote service returned None

  datatype Error =
    | MissingSymbol
    | InvalidSymbol
    | InvalidNumber
    | InsufficientBalance
    | MissingShares
    | NonPositiveShares
    | TooManyShares
    | NoHistory
    | MissingUsername
    | MissingPassword
    | PasswordMismatch
    | UserExists
    | Crashed(cause: Crash)
  {
    /** The text of the apology page, spelled as the application spells it. */
    function Message(): string
    {
      match this
      case MissingSymbol => "Missing Symbol"
      case InvalidSymbol => "Invalid Symbol"
      case InvalidNumber => "Invalid number"
      case InsufficientBalance => "Insufficient balance."
      case MissingShares => "Invaild shares"
      case NonPositiveShares => "Invaild symbol or shares"
      case TooManyShares => "You don't have so many shares"
      case NoHistory => "No history"
      case MissingUsername => "must provide username"
      case MissingPassword => "must provide password"
      case PasswordMismatch => "Password and confirmation don't match."
      case UserExists => "User already existed."
      case Crashed(_) => "Internal Server Error"
    }
  }
}
