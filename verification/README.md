# Mock stock trading: the cash-and-ledger accounting

This project is a Dafny model of the accounting behind the finance web application's request handlers. Each user has a cash balance and an append-only ledger of orders `(symbol, shares, price)`. `shares` is positive for a buy and negative for a sell. The model covers five handlers:

- **Buy** checks the symbol, its quote and the share count. It refuses a purchase that would take cash below 0. Otherwise it writes the new cash and appends a positive order.
- **Sell** checks the share count and the summed position in the symbol. It then appends a negative order and writes cash minus (negative shares × price).
- **Portfolio** (`index`) groups the orders by symbol. Each group's line total is summed shares × stored price, and the grand total is cash plus those line totals.
- **History** refuses an empty ledger. Otherwise it labels each order "Bought" or "Sold".
- **Registration** refuses a missing username or password, a confirmation that does not match, and a username already taken.

Money is in integer cents. The quote service is a table `map<string, nat>` from symbol to price, passed to each call. A symbol missing from the table is one the service does not know. The shares form field is classified by what Python's `float()` and `int()` make of it: missing, blank, an integer literal, another decimal literal, or anything else. An uncaught exception in a handler becomes an explicit `Crashed(cause)` error. Each such exception happens before any write, so nothing changes.

Layout:

- `wrappers.dfy`: the `Result` type.
- `errors.dfy`: the error answers, with their messages.
- `ledger.dfy`: orders, positions, cash spent, the last price per symbol, the list of symbols, and the account invariant.
- `trading.dfy`: the buy and sell decisions and the lemmas about them.
- `reports.dfy`: the grouped valuation and the history labels.
- `finance.dfy`: the `Account` class, whose handlers change or read its `cash` and `orders` fields.
- `registry.dfy`: the users table and the registration checks.

Choices the source leaves open:

- **Group price.** The grouped query selects the bare `price` column under `GROUP BY symbol`, and SQLite takes it from an unspecified row. The model takes the price of the group's last order.
- **Group order.** Groups are listed in the order of each symbol's first order. The grand total is the same in any order.
- **Symbol case.** Symbols are exact strings. Buy stores `symbol.upper()`, but sell looks up and stores the symbol as typed. So a sell matches only a symbol spelled exactly as stored.
- **Missing form fields.** A missing field (`None`) for the symbol, username or password takes the same branch as the empty string. It is modelled as `""`. For the symbol in buy this assumes that `lookup(None)` returns rather than raises, because app.py:67 calls it before the empty-symbol test at app.py:68.
- **History order.** The history query (app.py:101) has no `ORDER BY`. The model lists orders in ledger order, oldest first, which is the insertion order.

Behaviour of the code worth noting:

- Buy checks the symbol and its quote before the share count.
- A missing shares field in buy raises an uncaught TypeError. It is not answered as an invalid number.
- Selling a symbol that has no orders crashes on `int(None)`. It is not refused as "too many shares".
- Selling a symbol the quote service does not know crashes on `quote["price"]`.
- The portfolio lists groups whose position is 0. Their line total is 0.
- Registration refuses a name only when exactly one row has it. Under unique usernames this is the same as refusing a taken name, and `RegisterRefusesTaken` proves it.

## Model

| member | source | states |
|---|---|---|
| `Trading.Upper` | finance/app.py:89 | upper-casing keeps the length, leaves no ASCII lower-case letter, keeps every other character, and turns the k-th lower-case letter into the k-th letter of "ABCDEFGHIJKLMNOPQRSTUVWXYZ" |
| `Trading.UpperIdempotent` | finance/app.py:89 | upper-casing an upper-cased symbol changes nothing |
| `Trading.QuoteSymbol` | finance/app.py:66-71 | the symbol check of buy (and of the quote page): "Missing Symbol" exactly when the symbol is empty, "Invalid Symbol" exactly when it is given but unquoted, and on success the quoted price |
| `Trading.BuyShares` | finance/app.py:74-79 | a share count buy accepts is a positive whole number |
| `Trading.BuySharesAccepts` | finance/app.py:74-79 | buy accepts exactly the positive integer literals and the positive decimal literals with no fractional part, and takes their value; any other given text (blank, non-numeric, 0, negative, fractional) gives "Invalid number", and a missing field raises on `float(None)` |
| `Trading.BuyDecision` | finance/app.py:65-89 | an order buy records names the upper-cased (non-empty) symbol, has shares > 0, is priced at the quote, and leaves cash − shares × price ≥ 0 |
| `Trading.BuyRejects` | finance/app.py:65-79 | buy's checks come in order: an empty symbol answers "Missing Symbol", then an unknown one "Invalid Symbol", then a share count given but invalid (blank, not a number, 0, negative, fractional) answers "Invalid number", and a missing count raises |
| `Trading.BuySucceedsIff` | finance/app.py:81-86 | buy succeeds exactly when the checks pass and cash − shares × price ≥ 0 (spending down to exactly 0 is allowed); it fails with "Insufficient balance." exactly when the checks pass and that balance is negative |
| `Trading.BuyRecords` | finance/app.py:84-89 | a successful buy records one order with +n shares (n > 0), the upper-cased symbol and the quoted price, takes n × price from cash leaving it ≥ 0, raises that symbol's position by n and leaves every other position unchanged |
| `Trading.SellShares` | finance/app.py:219-222 | sell's count is read exactly when the field holds an integer literal, with its value; a missing or blank field answers "Invaild shares"; any other text makes `int()` raise |
| `Trading.SellDecision` | finance/app.py:217-236 | an order sell records names a symbol that has orders, as typed, with negative shares no larger in size than the position, at the quoted price |
| `Trading.SellSucceedsIff` | finance/app.py:219-236 | sell succeeds exactly when the count is an integer n with 0 < n ≤ the summed position, the symbol has orders and the quote service knows it |
| `Trading.SellRejects` | finance/app.py:219-230 | sell answers "Invaild shares" to a missing count, "Invaild symbol or shares" to a count ≤ 0, "You don't have so many shares" to a count above the position of a symbol with orders, and fails in any case when the count exceeds the position |
| `Trading.SellRecords` | finance/app.py:233-243 | a successful sell of n records one order with −n shares of the symbol as typed at the quoted price, adds n × price to cash (because it subtracts −n × price), and lowers that symbol's position by n to a value ≥ 0, leaving the others unchanged |
| `Trading.DecideKeepsInvariant` | finance/app.py:82-89 | whatever buy (the writes at app.py:82-89) or sell (the writes at app.py:233-243) decides, the resulting cash and ledger keep the invariant: cash ≥ 0, cash = opening − Σ shares × price, every order names a symbol and moves shares, and no position is negative |
| `Trading.ReplayKeepsInvariant` | finance/app.py:233-243 | over any sequence of buy (app.py:82-89) and sell (app.py:233-243) requests from a book keeping the invariant, the invariant still holds at the end |
| `Trading.OpeningKeepsInvariant` | finance/app.py:204 | a new account with cash ≥ 0 and no orders keeps the invariant |
| `Ledger.Position` | finance/app.py:228-229 | the summed shares of a symbol without orders are 0 |
| `Ledger.PositionAppend` | finance/app.py:228 | appending an order changes only its own symbol's summed shares, by its shares |
| `Ledger.SymbolsAreTradedOnce` | finance/app.py:48 | the grouped symbols are exactly the traded symbols, each listed once |
| `Ledger.RecordKeepsInvariant` | finance/app.py:88-89 | writing the new cash and appending an order keeps the invariant when the order names a symbol, moves shares and leaves both cash and its symbol's position ≥ 0 |
| `Reports.Grouped` | finance/app.py:48 | every grouped row is a traded symbol, no symbol has two rows, and each row carries its symbol's summed shares and the price of its last order |
| `Reports.GroupedRows` | finance/app.py:48 | a symbol has a grouped row exactly when it has orders |
| `Reports.GroupedIsWorth` | finance/app.py:47-56 | Σ over the groups of summed shares × price equals Σ over the orders of shares × that symbol's price, so grouping does not change the value |
| `Reports.GroupsNonNegative` | finance/app.py:49-56 | when no position is negative, the groups' value is ≥ 0 |
| `Reports.Status` | finance/app.py:107-110 | the label is "Bought" exactly when the shares are > 0 and "Sold" exactly when they are not |
| `Reports.StatusIsSide` | finance/app.py:107-110 | in a ledger keeping the invariant, "Bought" labels exactly the orders with shares > 0 and "Sold" exactly those with shares < 0 |
| `Finance.Account.constructor` | finance/app.py:204 | a new account has the given cash, no orders, and keeps the invariant |
| `Finance.Account.Buy` | finance/app.py:61-90 | returns the buy decision; on success cash becomes cash − shares × price and the order is appended after the unchanged ledger; on failure nothing changes; the invariant is kept |
| `Finance.Account.Sell` | finance/app.py:210-244 | returns the sell decision; on success the order with −shares is appended and cash becomes cash + shares × price; on failure nothing changes; the invariant is kept |
| `Finance.Account.Index` | finance/app.py:45-57 | one line per group with line total = summed shares × price; the cash; and a grand total equal to cash plus every order's shares at its symbol's last price, at least the cash when the invariant holds |
| `Finance.Account.History` | finance/app.py:99-111 | "No history" exactly when the ledger is empty; otherwise one entry per order in ledger order, labelled "Bought" when its shares are > 0 and "Sold" otherwise |
| `Registry.Occurrences` | finance/app.py:200-201 | the lookup by name finds no row exactly when the name is not in the table, and never more rows than the table has |
| `Registry.OccurrencesOfDistinct` | finance/app.py:200-201 | in a table of unique usernames, the lookup by name finds one row when the name is present and none otherwise |
| `Registry.RegisterDecision` | finance/app.py:184-204 | a registration succeeds only with a username, a password and a matching confirmation, and is refused as taken only when the name is in the table |
| `Registry.RegisterRefusesTaken` | finance/app.py:199-204 | with unique usernames and a valid form, registration fails with "User already existed." exactly when the name is taken, and succeeds exactly when it is not |
| `Registry.RegisterKeepsUnique` | finance/app.py:200-204 | a successful registration keeps usernames unique |
| `Registry.Users.Register` | finance/app.py:179-205 | returns the registration decision, appends the name exactly on success, and keeps usernames unique |

## Left out

- HTTP plumbing is not modelled: routing, `login_required`, the session store, templates, redirects, apology rendering with its status codes (400, 403) and the no-cache headers. Errors are values of `Errors.Error`. The `user_id` parameter is dropped because the model holds one account.
- Login and logout need password hashing and checking, which are foreign library calls. Registration keeps only the name checks. It does not store a hash or a starting cash, and the users table's default cash is not part of this model. A registered name is not linked to an `Account`.
- The quote service (`lookup`) is a map passed to each call. The `usd` filter is not modelled. The display-name lookups on the portfolio and history pages (app.py:51, app.py:106) are left out as presentation. An unknown symbol there would crash the page, and the model does not capture that.
- Floating point is not modelled. Prices and cash are exact integer cents. The shares field is the classification `Trading.Field` rather than text, so float rounding of very large counts is not modelled. Python's `float()` and `int()` grammars are not modelled either.
- Order timestamps (`datetime.now()`) are omitted.
- Sell inserts the order before it updates cash. The model treats the two writes as one step, so interleaved requests are not modelled.
- `Trading.Upper` upper-cases ASCII letters only. Python's Unicode case mapping is not modelled.
- The sell page's symbol list (app.py:213-214) is presentation and is not modelled. So are the `print` calls in sell.
- The quote page (app.py:161-175) makes the same check as `Trading.QuoteSymbol`; its rendering is not modelled.
- `Finance.Account.Index` and `Finance.Account.History` build new sequences of lines. The source writes `total` (portfolio) and `name` and `status` (history) into each row dictionary in place. Only the values are modelled.
