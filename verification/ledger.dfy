/**
 * The orders table of one user and the quantities derived from it.
 *
 * The ledger is append-only, so every derived quantity is defined by
 * recursion on its LAST order: what an append does to it is one unfolding.
 * Money is in integer cents.
 */
module Ledger {
  import opened Wrappers

  /** One row of the orders table: positive shares for a buy, negative for a sell. */
  datatype Order = Order(symbol: string, shares: int, price: nat)

  /** What the database holds for one user: the cash column and the user's orders, oldest first. */
  datatype Book = Book(cash: int, orders: seq<Order>)

  function Last(orders: seq<Order>): Order
    requires orders != []
  {
    orders[|orders| - 1]
  }

  function Prior(orders: seq<Order>): seq<Order>
    requires orders != []
  {
    orders[..|orders| - 1]
  }

  /** SUM(shares) over the orders for symbol `s`: the number of shares held. */
  function Position(orders: seq<Order>, s: string): (r: int)
    ensures !Traded(orders, s) ==> r == 0
    decreases |orders|
  {
    if orders == [] then 0
    else
      assert forall i | 0 <= i < |Prior(orders)| :: Prior(orders)[i] == orders[i];
      Position(Prior(orders), s) + (if Last(orders).symbol == s then Last(orders).shares else 0)
  }

  /** Whether some order has symbol `s`, that is, whether SUM(shares) for it is not NULL. */
  predicate Traded(orders: seq<Order>, s: string)
  {
    exists i | 0 <= i < |orders| :: orders[i].symbol == s
  }

  /** The net cash the orders took: shares times price, summed (a sell counts negative). */
  function Spent(orders: seq<Order>): int
    decreases |orders|
  {
    if orders == [] then 0
    else Spent(Prior(orders)) + Last(orders).shares * Last(orders).price
  }

  /** The price of the last order for `s`; 0 when there is none. */
  function LastPrice(orders: seq<Order>, s: string): nat
    decreases |orders|
  {
    if orders == [] then 0
    else if Last(orders).symbol == s then Last(orders).price
    else LastPrice(Prior(orders), s)
  }

  /** The symbols of the ledger, each once, in the order of their first order. */
  function Symbols(orders: seq<Order>): seq<string>
    decreases |orders|
  {
    if orders == [] then []
    else
      var earlier := Symbols(Prior(orders));
      if Last(orders).symbol in earlier then earlier else earlier + [Last(orders).symbol]
  }

  predicate NoDuplicates(xs: seq<string>)
  {
    forall i, j | 0 <= i < j < |xs| :: xs[i] != xs[j]
  }

  /**
   * The cash after recording order `o`. Both handlers compute it the same
   * way: cash minus shares times price, which credits a sell because its
   * shares are negative.
   */
  function Settle(cash: int, o: Order): int
  {
    cash - o.shares * o.price
  }

  /** The book after a handler decided `d`: a recorded order, or nothing changed. */
  function Apply<E>(b: Book, d: Result<Order, E>): Book
  {
    if d.Success? then Book(Settle(b.cash, d.value), b.orders + [d.value]) else b
  }

  /**
   * What holds of every book reachable from an account opened with `opening`
   * cents and no orders: cash is never negative, cash is the opening amount
   * less what the orders spent, every order names a symbol and moves shares,
   * and no position is negative.
   */
  ghost predicate Invariant(opening: int, b: Book)
  {
    && b.cash >= 0
    && b.cash == opening - Spent(b.orders)
    && (forall i | 0 <= i < |b.orders| :: b.orders[i].symbol != "" && b.orders[i].shares != 0)
    && (forall s :: Position(b.orders, s) >= 0)
  }

  /** Appending one order moves only that order's symbol's position, by its shares. */
  lemma PositionAppend(orders: seq<Order>, o: Order, s: string)
    ensures Position(orders + [o], s) == Position(orders, s) + (if o.symbol == s then o.shares else 0)
  {
    assert Prior(orders + [o]) == orders;
  }

  lemma SpentAppend(orders: seq<Order>, o: Order)
    ensures Spent(orders + [o]) == Spent(orders) + o.shares * o.price
  {
    assert Prior(orders + [o]) == orders;
  }

  /** Symbols lists exactly the traded symbols, each once. */
  lemma {:induction false} SymbolsAreTradedOnce(orders: seq<Order>)
    ensures NoDuplicates(Symbols(orders))
    ensures forall s :: s in Symbols(orders) <==> Traded(orders, s)
    decreases |orders|
  {
    if orders != [] {
      var earlier := Prior(orders);
      SymbolsAreTradedOnce(earlier);
      assert orders == earlier + [Last(orders)];
      forall s ensures Traded(orders, s) <==> Traded(earlier, s) || Last(orders).symbol == s {
        if Traded(orders, s) && Last(orders).symbol != s {
          var i :| 0 <= i < |orders| && orders[i].symbol == s;
          assert earlier[i] == orders[i];
        }
        if Traded(earlier, s) {
          var i :| 0 <= i < |earlier| && earlier[i].symbol == s;
          assert orders[i] == earlier[i];
        }
      }
    }
  }

  /**
   * Recording an order that names a symbol, moves shares, leaves cash
   * non-negative and leaves its symbol's position non-negative keeps the
   * invariant, with the same opening amount.
   */
  lemma RecordKeepsInvariant(opening: int, b: Book, o: Order)
    requires Invariant(opening, b)
    requires o.symbol != "" && o.shares != 0
    requires Settle(b.cash, o) >= 0
    requires Position(b.orders, o.symbol) + o.shares >= 0
    ensures Invariant(opening, Book(Settle(b.cash, o), b.orders + [o]))
  {
    var after := Book(Settle(b.cash, o), b.orders + [o]);
    SpentAppend(b.orders, o);
    forall s ensures Position(after.orders, s) >= 0 {
      PositionAppend(b.orders, o, s);
    }
    assert forall i | 0 <= i < |b.orders| :: after.orders[i] == b.orders[i];
  }
}
