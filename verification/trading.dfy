/**
 * The decisions of the buy and sell handlers: which answer a request gets,
 * checked in the handler's own order, and which order it records when it
 * succeeds. The quote service is a table from symbol to price in cents; a
 * symbol absent from it is one the service does not know.
 */
module Trading {
  import opened Wrappers
  import opened Errors
  import opened Ledger

  /**
   * The text of the shares form field, classified by what Python's float()
   * and int() make of it.
   */
  datatype Field =
    | Absent                 // no such field: None
    | Blank                  // the empty string
    | IntegerText(n: int)    // a literal int() accepts, such as "7" or "-2"
    | DecimalText(v: real)   // a literal float() accepts and int() refuses, such as "2.5" or "3.0"
    | OtherText              // anything else, including "inf" and "nan", which float.is_integer refuses

  function UpperChar(c: char): char
  {
    if 'a' <= c <= 'z' then (c as int - 32) as char else c
  }

  /** symbol.upper(), for ASCII letters. */
  function Upper(s: string): (r: string)
    ensures |r| == |s|
    ensures forall i | 0 <= i < |r| :: !('a' <= r[i] <= 'z')
    ensures forall i | 0 <= i < |s| && !('a' <= s[i] <= 'z') :: r[i] == s[i]
    ensures forall i | 0 <= i < |s| && 'a' <= s[i] <= 'z' ::
      r[i] == "ABCDEFGHIJKLMNOPQRSTUVWXYZ"[s[i] as int - 'a' as int]
  {
    seq(|s|, i requires 0 <= i < |s| => UpperChar(s[i]))
  }

  /** Upper-casing twice is upper-casing once. */
  lemma UpperIdempotent(s: string)
    ensures Upper(Upper(s)) == Upper(s)
  {
    var u := Upper(s);
    assert forall i | 0 <= i < |u| :: Upper(u)[i] == u[i];
  }

  /**
   * The symbol check that buy and quote both make: an empty (or missing)
   * symbol first, then one the quote service does not know. Gives the price.
   */
  function QuoteSymbol(symbol: string, quotes: map<string, nat>): (r: Result<nat, Error>)
    ensures r == Failure(MissingSymbol) <==> symbol == ""
    ensures r == Failure(InvalidSymbol) <==> symbol != "" && symbol !in quotes
    ensures r.Success? ==> symbol in quotes && r.value == quotes[symbol]
  {
    if symbol == "" then Failure(MissingSymbol)
    else if symbol !in quotes then Failure(InvalidSymbol)
    else Success(quotes[symbol])
  }

  /**
   * float(field) in buy, then the test `not shares or not is_integer or
   * shares <= 0`. A missing field raises TypeError, which the handler's
   * `except ValueError` does not catch.
   */
  function BuyShares(f: Field): (r: Result<nat, Error>)
    ensures r.Success? ==> r.value > 0
  {
    match f
    case Absent => Failure(Crashed(FloatOfMissingField))
    case Blank => Failure(InvalidNumber)
    case OtherText => Failure(InvalidNumber)
    case IntegerText(n) => if n <= 0 then Failure(InvalidNumber) else Success(n)
    case DecimalText(v) =>
      if v <= 0.0 || v.Floor as real != v then Failure(InvalidNumber) else Success(v.Floor)
  }

  /** `if not shares` then int(shares) in sell; the sign is checked by the caller. */
  function SellShares(f: Field): (r: Result<int, Error>)
    ensures r.Success? <==> f.IntegerText?
    ensures r.Success? ==> r.value == f.n
    ensures r == Failure(MissingShares) <==> f.Absent? || f.Blank?
    ensures f.DecimalText? || f.OtherText? ==> r == Failure(Crashed(IntOfNonInteger))
  {
    match f
    case Absent => Failure(MissingShares)
    case Blank => Failure(MissingShares)
    case IntegerText(n) => Success(n)
    case DecimalText(_) => Failure(Crashed(IntOfNonInteger))
    case OtherText => Failure(Crashed(IntOfNonInteger))
  }

  /** The buy handler: the order it records, or its answer. */
  function BuyDecision(cash: int, symbol: string, shares: Field, quotes: map<string, nat>): (r: Result<Order, Error>)
    ensures r.Success? ==> r.value.symbol == Upper(symbol) != ""
    ensures r.Success? ==> r.value.shares > 0 && Settle(cash, r.value) >= 0
    ensures r.Success? ==> symbol in quotes && r.value.price == quotes[symbol]
  {
    match QuoteSymbol(symbol, quotes)
    case Failure(e) => Failure(e)
    case Success(price) =>
      match BuyShares(shares)
      case Failure(e) => Failure(e)
      case Success(n) =>
        if cash - n * price < 0 then Failure(InsufficientBalance)
        else Success(Order(Upper(symbol), n, price))
  }

  /** The sell handler: the order it records, or its answer. The symbol is used as typed. */
  function SellDecision(orders: seq<Order>, symbol: string, shares: Field, quotes: map<string, nat>): (r: Result<Order, Error>)
    ensures r.Success? ==> Traded(orders, symbol) && r.value.symbol == symbol
    ensures r.Success? ==> r.value.shares < 0 && Position(orders, symbol) + r.value.shares >= 0
    ensures r.Success? ==> symbol in quotes && r.value.price == quotes[symbol]
  {
    match SellShares(shares)
    case Failure(e) => Failure(e)
    case Success(n) =>
      if n <= 0 then Failure(NonPositiveShares)
      else if !Traded(orders, symbol) then Failure(Crashed(IntOfNullSum))
      else if n > Position(orders, symbol) then Failure(TooManyShares)
      else if symbol !in quotes then Failure(Crashed(QuoteOfUnknownSymbol))
      else Success(Order(symbol, -n, quotes[symbol]))
  }

  /** A request to one of the two trading handlers. */
  datatype Request =
    | BuyRequest(symbol: string, shares: Field, quotes: map<string, nat>)
    | SellRequest(symbol: string, shares: Field, quotes: map<string, nat>)

  function Decide(b: Book, q: Request): Result<Order, Error>
  {
    match q
    case BuyRequest(symbol, shares, quotes) => BuyDecision(b.cash, symbol, shares, quotes)
    case SellRequest(symbol, shares, quotes) => SellDecision(b.orders, symbol, shares, quotes)
  }

  /** The book after serving the requests one after the other. */
  function Replay(b: Book, qs: seq<Request>): Book
    decreases |qs|
  {
    if qs == [] then b else Replay(Apply(b, Decide(b, qs[0])), qs[1..])
  }

  /**
   * Buy succeeds exactly when the symbol is given and quoted, the shares are
   * a positive whole number and the cost leaves cash at 0 or more; it fails
   * for lack of cash exactly when everything else passed and the cost is
   * larger than the cash.
   */
  lemma BuySucceedsIff(cash: int, symbol: string, shares: Field, quotes: map<string, nat>)
    ensures BuyDecision(cash, symbol, shares, quotes).Success? <==>
      symbol != "" && symbol in quotes && BuyShares(shares).Success?
      && cash - BuyShares(shares).value * quotes[symbol] >= 0
    ensures BuyDecision(cash, symbol, shares, quotes) == Failure(InsufficientBalance) <==>
      symbol != "" && symbol in quotes && BuyShares(shares).Success?
      && cash - BuyShares(shares).value * quotes[symbol] < 0
  {
  }

  /** The validation order of buy: symbol first, then the quote, then the number. */
  lemma BuyRejects(cash: int, symbol: string, shares: Field, quotes: map<string, nat>)
    ensures symbol == "" ==>
      BuyDecision(cash, symbol, shares, quotes).error.Message() == "Missing Symbol"
    ensures symbol != "" && symbol !in quotes ==>
      BuyDecision(cash, symbol, shares, quotes).error.Message() == "Invalid Symbol"
    ensures symbol != "" && symbol in quotes && BuyShares(shares).Failure? ==>
      BuyDecision(cash, symbol, shares, quotes) == Failure(BuyShares(shares).error)
    ensures symbol != "" && symbol in quotes && !shares.Absent? && BuyShares(shares).Failure? ==>
      BuyDecision(cash, symbol, shares, quotes).error.Message() == "Invalid number"
    ensures symbol != "" && symbol in quotes && shares.Absent? ==>
      BuyDecision(cash, symbol, shares, quotes) == Failure(Crashed(FloatOfMissingField))
  {
  }

  /**
   * The share counts buy accepts: exactly the positive whole numbers. Any
   * other given text (blank, not a number, 0, negative, fractional) answers
   * "Invalid number"; a missing field raises.
   */
  lemma BuySharesAccepts(f: Field)
    ensures BuyShares(f).Success? <==>
      (f.IntegerText? && f.n > 0) || (f.DecimalText? && f.v > 0.0 && f.v.Floor as real == f.v)
    ensures f.IntegerText? && f.n > 0 ==> BuyShares(f) == Success(f.n)
    ensures f.DecimalText? && BuyShares(f).Success? ==> BuyShares(f).value as real == f.v
    ensures f.Absent? ==> BuyShares(f) == Failure(Crashed(FloatOfMissingField))
    ensures !f.Absent? && BuyShares(f).Failure? ==> BuyShares(f) == Failure(InvalidNumber)
  {
  }

  /**
   * A successful buy records n > 0 shares of the upper-cased symbol at the
   * quoted price, takes n times that price from cash, leaves cash at 0 or
   * more, raises that symbol's position by n and no other.
   */
  lemma BuyRecords(cash: int, orders: seq<Order>, symbol: string, shares: Field, quotes: map<string, nat>)
    requires BuyDecision(cash, symbol, shares, quotes).Success?
    ensures var o := BuyDecision(cash, symbol, shares, quotes).value;
      && symbol in quotes
      && o == Order(Upper(symbol), BuyShares(shares).value, quotes[symbol])
      && o.shares > 0
      && Settle(cash, o) == cash - o.shares * quotes[symbol] >= 0
      && Position(orders + [o], o.symbol) == Position(orders, o.symbol) + o.shares
      && forall t | t != o.symbol :: Position(orders + [o], t) == Position(orders, t)
  {
    var o := BuyDecision(cash, symbol, shares, quotes).value;
    forall t ensures Position(orders + [o], t) == Position(orders, t) + (if o.symbol == t then o.shares else 0) {
      PositionAppend(orders, o, t);
    }
  }

  /**
   * Sell succeeds exactly when the shares are an integer literal n with
   * 0 < n <= the position, the symbol has orders and the quote service knows
   * it.
   */
  lemma SellSucceedsIff(orders: seq<Order>, symbol: string, shares: Field, quotes: map<string, nat>)
    ensures SellDecision(orders, symbol, shares, quotes).Success? <==>
      shares.IntegerText? && 0 < shares.n <= Position(orders, symbol)
      && Traded(orders, symbol) && symbol in quotes
  {
  }

  /**
   * Sell refuses a missing or non-positive count, and a count above the
   * position (position 5, sell 6), whether or not the symbol has orders.
   */
  lemma SellRejects(orders: seq<Order>, symbol: string, shares: Field, quotes: map<string, nat>)
    ensures shares.Absent? || shares.Blank? ==>
      SellDecision(orders, symbol, shares, quotes).error.Message() == "Invaild shares"
    ensures shares.IntegerText? && shares.n <= 0 ==>
      SellDecision(orders, symbol, shares, quotes).error.Message() == "Invaild symbol or shares"
    ensures shares.IntegerText? && 0 < shares.n && Traded(orders, symbol) && shares.n > Position(orders, symbol) ==>
      SellDecision(orders, symbol, shares, quotes).error.Message() == "You don't have so many shares"
    ensures shares.IntegerText? && shares.n > Position(orders, symbol) ==>
      SellDecision(orders, symbol, shares, quotes).Failure?
  {
  }

  /**
   * A successful sell of n records -n shares of the symbol as typed at the
   * quoted price, adds n times that price to cash, lowers that symbol's
   * position by n (to 0 or more) and no other.
   */
  lemma SellRecords(cash: int, orders: seq<Order>, symbol: string, shares: Field, quotes: map<string, nat>)
    requires SellDecision(orders, symbol, shares, quotes).Success?
    ensures var o := SellDecision(orders, symbol, shares, quotes).value;
      && shares.IntegerText? && symbol in quotes
      && o == Order(symbol, -shares.n, quotes[symbol])
      && Settle(cash, o) == cash + shares.n * quotes[symbol]
      && Position(orders + [o], symbol) == Position(orders, symbol) - shares.n >= 0
      && forall t | t != symbol :: Position(orders + [o], t) == Position(orders, t)
  {
    var o := SellDecision(orders, symbol, shares, quotes).value;
    forall t ensures Position(orders + [o], t) == Position(orders, t) + (if o.symbol == t then o.shares else 0) {
      PositionAppend(orders, o, t);
    }
  }

  /** Whatever a request decides, the book that results keeps the invariant. */
  lemma DecideKeepsInvariant(opening: int, b: Book, q: Request)
    requires Invariant(opening, b)
    ensures Invariant(opening, Apply(b, Decide(b, q)))
  {
    var d := Decide(b, q);
    if d.Success? {
      var o := d.value;
      if q.BuyRequest? {
        BuyRecords(b.cash, b.orders, q.symbol, q.shares, q.quotes);
        assert o.symbol != "" by {
          assert |Upper(q.symbol)| == |q.symbol|;
        }
      } else {
        SellRecords(b.cash, b.orders, q.symbol, q.shares, q.quotes);
        assert o.symbol != "" by {
          var i :| 0 <= i < |b.orders| && b.orders[i].symbol == q.symbol;
        }
      }
      RecordKeepsInvariant(opening, b, o);
    }
  }

  /**
   * Over any sequence of buy and sell requests, from an account whose book
   * keeps the invariant (one opened with cash >= 0 and no orders does), cash
   * stays >= 0 and equal to the opening amount less what the orders spent,
   * and no position goes negative.
   */
  lemma {:induction false} ReplayKeepsInvariant(opening: int, b: Book, qs: seq<Request>)
    requires Invariant(opening, b)
    ensures Invariant(opening, Replay(b, qs))
    decreases |qs|
  {
    if qs != [] {
      DecideKeepsInvariant(opening, b, qs[0]);
      ReplayKeepsInvariant(opening, Apply(b, Decide(b, qs[0])), qs[1..]);
    }
  }

  /** An account opened with cash >= 0 and no orders keeps the invariant. */
  lemma OpeningKeepsInvariant(opening: int)
    requires opening >= 0
    ensures Invariant(opening, Book(opening, []))
  {
  }
}
