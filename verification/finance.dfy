/**
 * One user's account as the request handlers change and show it: the cash
 * column of the users table and the user's rows of the orders table.
 */
module Finance {
  import opened Wrappers
  import opened Errors
  import opened Ledger
  import opened Trading
  import opened Reports

  class Account {
    var cash: int
    var orders: seq<Order>
    /** The cash the account was opened with. */
    ghost const opening: int

    function Snapshot(): Book
      reads this
    {
      Book(cash, orders)
    }

    ghost predicate Valid()
      reads this
    {
      Invariant(opening, Snapshot())
    }

    /** An account with `initialCash` cents and no orders. */
    constructor (initialCash: nat)
      ensures Valid()
      ensures cash == initialCash && orders == []
    {
      cash := initialCash;
      orders := [];
      opening := initialCash;
    }

    /**
     * The buy handler: check the symbol, its quote and the share count, then
     * the balance; on success write the new cash and append the order.
     */
    method Buy(symbol: string, shares: Field, quotes: map<string, nat>) returns (r: Result<Order, Error>)
      modifies this
      ensures r == BuyDecision(old(cash), symbol, shares, quotes)
      ensures Snapshot() == Apply(old(Snapshot()), r)
      ensures old(Valid()) ==> Valid()
    {
      var quote := QuoteSymbol(symbol, quotes);
      if quote.Failure? {
        return Failure(quote.error);
      }
      var price := quote.value;
      var count := BuyShares(shares);
      if count.Failure? {
        return Failure(count.error);
      }
      var n := count.value;
      var balance := cash - n * price;
      if balance < 0 {
        return Failure(InsufficientBalance);
      }
      ghost var before := Snapshot();
      r := Success(Order(Upper(symbol), n, price));
      cash := balance;
      orders := orders + [r.value];
      if Invariant(opening, before) {
        DecideKeepsInvariant(opening, before, BuyRequest(symbol, shares, quotes));
      }
    }

    /**
     * The sell handler: check the share count, the position in the symbol
     * and the quote; on success append the order with negated shares and
     * write the cash less (negative shares × price).
     */
    method Sell(symbol: string, shares: Field, quotes: map<string, nat>) returns (r: Result<Order, Error>)
      modifies this
      ensures r == SellDecision(old(orders), symbol, shares, quotes)
      ensures Snapshot() == Apply(old(Snapshot()), r)
      ensures old(Valid()) ==> Valid()
    {
      var count := SellShares(shares);
      if count.Failure? {
        return Failure(count.error);
      }
      var n := count.value;
      if n <= 0 {
        return Failure(NonPositiveShares);
      }
      if !Traded(orders, symbol) {
        return Failure(Crashed(IntOfNullSum));
      }
      if n > Position(orders, symbol) {
        return Failure(TooManyShares);
      }
      if symbol !in quotes {
        return Failure(Crashed(QuoteOfUnknownSymbol));
      }
      ghost var before := Snapshot();
      var sold := Order(symbol, -n, quotes[symbol]);
      orders := orders + [sold];
      cash := cash - sold.shares * sold.price;
      r := Success(sold);
      if Invariant(opening, before) {
        DecideKeepsInvariant(opening, before, SellRequest(symbol, shares, quotes));
      }
    }

    /**
     * The portfolio page: one line per group with its total, the cash, and
     * the grand total, which is the cash plus every order's shares valued at
     * the last price of its symbol.
     */
    method Index() returns (holdings: seq<Holding>, balance: int, sum: int)
      ensures balance == cash
      ensures |holdings| == |Grouped(orders)|
      ensures forall i | 0 <= i < |holdings| ::
        var g := Grouped(orders)[i];
        holdings[i] == Holding(g.symbol, g.sumShares, g.price, g.sumShares * g.price)
      ensures sum == cash + Worth(orders, orders)
      ensures Valid() ==> sum >= cash >= 0
    {
      balance := cash;
      var rows := Grouped(orders);
      sum := balance;
      holdings := [];
      for i := 0 to |rows|
        invariant |holdings| == i
        invariant forall k | 0 <= k < i ::
          holdings[k] == Holding(rows[k].symbol, rows[k].sumShares, rows[k].price, rows[k].sumShares * rows[k].price)
        invariant sum == balance + GroupSum(rows[..i])
      {
        var total := rows[i].sumShares * rows[i].price;
        holdings := holdings + [Holding(rows[i].symbol, rows[i].sumShares, rows[i].price, total)];
        assert rows[..i + 1][..i] == rows[..i];
        sum := sum + total;
      }
      assert rows[..|rows|] == rows;
      GroupedIsWorth(orders, orders);
      if Valid() {
        GroupsNonNegative(orders, Symbols(orders), orders);
      }
    }

    /** The history page: every order, oldest first, labelled; an empty ledger is refused. */
    method History() returns (r: Result<seq<Entry>, Error>)
      ensures r.Failure? <==> orders == []
      ensures r.Failure? ==> r.error == NoHistory
      ensures r.Success? ==> |r.value| == |orders|
      ensures r.Success? ==> forall i | 0 <= i < |orders| ::
        r.value[i] == Entry(orders[i].symbol, orders[i].shares, orders[i].price, Status(orders[i].shares))
    {
      if orders == [] {
        return Failure(NoHistory);
      }
      var entries := [];
      for i := 0 to |orders|
        invariant |entries| == i
        invariant forall k | 0 <= k < i ::
          entries[k] == Entry(orders[k].symbol, orders[k].shares, orders[k].price, Status(orders[k].shares))
      {
        var o := orders[i];
        var status := if o.shares > 0 then "Bought" else "Sold";
        entries := entries + [Entry(o.symbol, o.shares, o.price, status)];
      }
      return Success(entries);
    }
  }

  /**
   * A session on one account: three buys and a partial sell, with the
   * refusals of an overdrawing buy and an oversized sell, and the pages
   * before and after.
   */
  method TradingSession()
  {
    var quotes := map["AAPL" := 15000, "NFLX" := 40000];
    var account := new Account(200000);
    var h := account.History();
    assert h == Failure(NoHistory);

    CapitalSymbols();
    var r := account.Buy("AAPL", IntegerText(2), quotes);
    assert r == Success(Order("AAPL", 2, 15000)) && account.cash == 170000;
    h := account.History();
    assert h.Success? && |h.value| == 1 && h.value[0].status == "Bought";
    BuyingSession(account, quotes);
  }

  lemma CapitalSymbols()
    ensures Upper("AAPL") == "AAPL" && Upper("NFLX") == "NFLX"
  {
  }

  method BuyingSession(account: Account, quotes: map<string, nat>)
    requires quotes == map["AAPL" := 15000, "NFLX" := 40000]
    requires account.cash == 170000 && account.orders == [Order("AAPL", 2, 15000)]
    modifies account
  {
    CapitalSymbols();
    assert BuyShares(DecimalText(3.0)) == Success(3);
    var r := account.Buy("NFLX", DecimalText(3.0), quotes);
    assert r == Success(Order("NFLX", 3, 40000)) && account.cash == 50000;
    r := account.Buy("AAPL", IntegerText(3), quotes);
    assert r == Success(Order("AAPL", 3, 15000)) && account.cash == 5000;
    r := account.Buy("NFLX", IntegerText(1), quotes);
    assert r == Failure(InsufficientBalance) && account.cash == 5000;
    SellingSession(account, quotes);
  }

  method SellingSession(account: Account, quotes: map<string, nat>)
    requires quotes == map["AAPL" := 15000, "NFLX" := 40000]
    requires account.cash == 5000
    requires account.orders == [Order("AAPL", 2, 15000), Order("NFLX", 3, 40000), Order("AAPL", 3, 15000)]
    modifies account
  {
    var bought := account.orders;
    PositionAppend(bought[..1], bought[1], "AAPL");
    PositionAppend(bought[..2], bought[2], "AAPL");
    assert bought[..2] + [bought[2]] == bought;
    assert Position(bought, "AAPL") == 5;
    var r := account.Sell("AAPL", IntegerText(6), quotes);
    assert r == Failure(TooManyShares) && account.orders == bought;
    r := account.Sell("AAPL", IntegerText(1), quotes);
    assert r == Success(Order("AAPL", -1, 15000)) && account.cash == 20000;

    ValuationSession(account);
  }

  method ValuationSession(account: Account)
    requires account.cash == 20000
    requires account.orders ==
      [Order("AAPL", 2, 15000), Order("NFLX", 3, 40000), Order("AAPL", 3, 15000), Order("AAPL", -1, 15000)]
  {
    var sold := account.orders;
    var bought := sold[..3];
    assert Prior(sold) == bought && Prior(bought) == bought[..2] && Prior(bought[..2]) == bought[..1];
    assert Prior(bought[..1]) == [];
    assert LastPrice(sold, "AAPL") == 15000;
    assert LastPrice(bought[..2], "NFLX") == 40000;
    assert LastPrice(sold, "NFLX") == LastPrice(bought, "NFLX") == 40000;
    assert Worth(bought[..1], sold) == 2 * 15000;
    assert Worth(bought[..2], sold) == 2 * 15000 + 3 * 40000;
    assert Worth(sold, sold) == 2 * 15000 + 3 * 40000 + 3 * 15000 - 1 * 15000;
    var holdings, balance, sum := account.Index();
    assert balance == 20000 && sum == 200000;
  }
}
