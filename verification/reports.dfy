/**
 * What the portfolio and history pages show: the orders grouped by symbol
 * with a value per group, and each order labelled as bought or sold.
 *
 * The grouped query selects the bare price column beside SUM(shares); the
 * database takes it from one row of the group without saying which. This
 * model takes the price of the group's last order. Groups come in the order
 * of each symbol's first order; the grand total does not depend on it.
 */
module Reports {
  import opened Ledger

  /** A row of `SELECT symbol, sum(shares), price ... GROUP BY symbol`. */
  datatype Group = Group(symbol: string, sumShares: int, price: nat)

  /** A portfolio line: a group with its line total. */
  datatype Holding = Holding(symbol: string, sumShares: int, price: nat, total: int)

  /** A history line: an order with its label. */
  datatype Entry = Entry(symbol: string, shares: int, price: nat, status: string)

  /** The groups for `syms`: their summed shares in `orders`, priced at their last order in `priced`. */
  function Groups(orders: seq<Order>, syms: seq<string>, priced: seq<Order>): seq<Group>
  {
    seq(|syms|, i requires 0 <= i < |syms| => Group(syms[i], Position(orders, syms[i]), LastPrice(priced, syms[i])))
  }

  /**
   * The grouped query over the whole ledger: one row per traded symbol, no
   * symbol twice, each with its position and the price of its last order.
   */
  function Grouped(orders: seq<Order>): (r: seq<Group>)
    ensures forall i | 0 <= i < |r| :: Traded(orders, r[i].symbol)
    ensures forall i, j | 0 <= i < j < |r| :: r[i].symbol != r[j].symbol
    ensures forall i | 0 <= i < |r| ::
      r[i].sumShares == Position(orders, r[i].symbol) && r[i].price == LastPrice(orders, r[i].symbol)
  {
    SymbolsAreTradedOnce(orders);
    Groups(orders, Symbols(orders), orders)
  }

  /** Σ summed shares × price over the groups: what the portfolio page adds to cash. */
  function GroupSum(gs: seq<Group>): int
    decreases |gs|
  {
    if gs == [] then 0
    else GroupSum(gs[..|gs| - 1]) + gs[|gs| - 1].sumShares * gs[|gs| - 1].price
  }

  /**
   * The value of the ledger counted order by order: each order's shares at
   * the last price of its symbol in `priced`. An independent reading of the
   * portfolio total that needs no grouping.
   */
  function Worth(orders: seq<Order>, priced: seq<Order>): int
    decreases |orders|
  {
    if orders == [] then 0
    else Worth(Prior(orders), priced) + Last(orders).shares * LastPrice(priced, Last(orders).symbol)
  }

  /** The label of an order on the history page. */
  function Status(shares: int): (r: string)
    ensures r == "Bought" <==> shares > 0
    ensures r == "Sold" <==> shares <= 0
  {
    if shares > 0 then "Bought" else "Sold"
  }

  /** Appending an order to the ledger adds its shares' value to the one group of its symbol, if listed. */
  lemma {:induction false} GroupsAppendOrder(orders: seq<Order>, o: Order, syms: seq<string>, priced: seq<Order>)
    requires NoDuplicates(syms)
    ensures GroupSum(Groups(orders + [o], syms, priced)) ==
      GroupSum(Groups(orders, syms, priced)) + (if o.symbol in syms then o.shares * LastPrice(priced, o.symbol) else 0)
    decreases |syms|
  {
    if syms != [] {
      var n := |syms| - 1;
      var rest, last := syms[..n], syms[n];
      assert rest + [last] == syms;
      assert NoDuplicates(rest);
      var p := LastPrice(priced, last);
      GroupsAppendSymbol(orders + [o], rest, last, priced);
      GroupsAppendSymbol(orders, rest, last, priced);
      GroupsAppendOrder(orders, o, rest, priced);
      PositionAppend(orders, o, last);
      if o.symbol == last {
        assert o.symbol !in rest;
        Distribute(Position(orders, last), o.shares, p);
      } else {
        assert o.symbol in syms <==> o.symbol in rest;
      }
    }
  }

  lemma Distribute(a: int, b: int, c: int)
    ensures (a + b) * c == a * c + b * c
  {
  }

  lemma NonNegativeProduct(a: int, b: int)
    requires a >= 0 && b >= 0
    ensures a * b >= 0
  {
  }

  /** Listing one more symbol adds its group's value. */
  lemma GroupsAppendSymbol(orders: seq<Order>, syms: seq<string>, s: string, priced: seq<Order>)
    ensures GroupSum(Groups(orders, syms + [s], priced)) ==
      GroupSum(Groups(orders, syms, priced)) + Position(orders, s) * LastPrice(priced, s)
  {
    assert Groups(orders, syms + [s], priced)[..|syms|] == Groups(orders, syms, priced);
  }

  /**
   * Grouping by symbol does not change the value: Σ over the symbols of
   * summed shares × price equals Σ over the orders of shares × price.
   */
  lemma {:induction false} GroupedIsWorth(orders: seq<Order>, priced: seq<Order>)
    ensures GroupSum(Groups(orders, Symbols(orders), priced)) == Worth(orders, priced)
    decreases |orders|
  {
    if orders != [] {
      var earlier, o := Prior(orders), Last(orders);
      assert orders == earlier + [o];
      var syms := Symbols(earlier);
      GroupedIsWorth(earlier, priced);
      SymbolsAreTradedOnce(earlier);
      GroupsAppendOrder(earlier, o, syms, priced);
      if o.symbol !in syms {
        GroupsAppendSymbol(orders, syms, o.symbol, priced);
        PositionAppend(earlier, o, o.symbol);
      }
    }
  }

  /** Under the invariant no group has negative value, so the portfolio total is at least the cash. */
  lemma {:induction false} GroupsNonNegative(orders: seq<Order>, syms: seq<string>, priced: seq<Order>)
    requires forall s :: Position(orders, s) >= 0
    ensures GroupSum(Groups(orders, syms, priced)) >= 0
    decreases |syms|
  {
    if syms != [] {
      var n := |syms| - 1;
      GroupsAppendSymbol(orders, syms[..n], syms[n], priced);
      assert syms[..n] + [syms[n]] == syms;
      GroupsNonNegative(orders, syms[..n], priced);
      NonNegativeProduct(Position(orders, syms[n]), LastPrice(priced, syms[n]));
    }
  }

  /** The grouped rows miss no traded symbol: a symbol has a row exactly when it has orders. */
  lemma GroupedRows(orders: seq<Order>)
    ensures forall s :: Traded(orders, s) <==> exists i | 0 <= i < |Grouped(orders)| :: Grouped(orders)[i].symbol == s
  {
    SymbolsAreTradedOnce(orders);
    var syms := Symbols(orders);
    forall s | s in syms ensures exists i | 0 <= i < |Grouped(orders)| :: Grouped(orders)[i].symbol == s {
      var i :| 0 <= i < |syms| && syms[i] == s;
      assert Grouped(orders)[i].symbol == s;
    }
  }

  /** In a ledger keeping the invariant, "Bought" marks exactly the buys and "Sold" exactly the sells. */
  lemma StatusIsSide(opening: int, b: Book, i: nat)
    requires Invariant(opening, b)
    requires i < |b.orders|
    ensures Status(b.orders[i].shares) == "Bought" <==> b.orders[i].shares > 0
    ensures Status(b.orders[i].shares) == "Sold" <==> b.orders[i].shares < 0
  {
  }
}
