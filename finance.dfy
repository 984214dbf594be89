/**
 The trading routes of the finance application as one object: the `cash`
 column of the users table and the transactions table, changed together by
 `Buy` and `Sell`, and read by `Index`.

 `Valid()` is the ledger's invariant: no user's cash is negative, no user
 holds a negative number of shares of any symbol, and each user's cash plus
 everything that user has paid out through the ledger is the cash the user
 started with.
 */
module Finance {
  import opened Ledger
  import opened Portfolio

  /** Why an order is turned away; the application answers each with an apology page. */
  datatype Reason =
    | MissingSymbol   // the symbol field is absent or empty
    | NotAnInteger    // the shares field does not parse as an integer
    | MissingShares   // the shares field parses as 0
    | TooFewShares    // the shares field is negative
    | InvalidSymbol   // the quote lookup produced no price
    | CantAfford      // the order costs more than the user's cash
    | TooManyShares   // the sale asks for more shares than the user holds

  datatype Outcome = Done | Rejected(reason: Reason)

  /**
   The ledger invariant: every trade moves a nonzero number of shares, no
   cash balance and no holding is negative, and each user's balance plus
   that user's outlay through the ledger is the balance the user started with.
   */
  ghost predicate Consistent(cash: map<UserId, int>, ledger: seq<Tx>, initial: map<UserId, int>)
  {
    && cash.Keys == initial.Keys
    && (forall k :: 0 <= k < |ledger| ==> ledger[k].shares != 0)
    && (forall u :: u in cash ==> cash[u] >= 0 && cash[u] + Outlay(ledger, u) == initial[u])
    && (forall u, s :: Holding(ledger, u, s) >= 0)
  }

  /**
   Committing a trade (debiting its cost, or crediting its proceeds when its
   shares are negative, and appending it) keeps the invariant, provided the
   user can pay for it and does not sell more than is held.
   */
  lemma CommitPreserves(cash: map<UserId, int>, ledger: seq<Tx>, initial: map<UserId, int>, tx: Tx)
    requires Consistent(cash, ledger, initial)
    requires tx.user in cash && tx.shares != 0
    requires tx.shares * tx.price <= cash[tx.user]
    requires Holding(ledger, tx.user, tx.symbol) + tx.shares >= 0
    ensures Consistent(cash[tx.user := cash[tx.user] - tx.shares * tx.price], ledger + [tx], initial)
  {
    var cash' := cash[tx.user := cash[tx.user] - tx.shares * tx.price];
    var ledger' := ledger + [tx];
    forall k | 0 <= k < |ledger'| ensures ledger'[k].shares != 0 {
      if k < |ledger| {
        assert ledger'[k] == ledger[k];
      }
    }
    forall u | u in cash' ensures cash'[u] >= 0 && cash'[u] + Outlay(ledger', u) == initial[u] {
      OutlayAppend(ledger, tx, u);
    }
    forall u, s ensures Holding(ledger', u, s) >= 0 {
      HoldingAppend(ledger, tx, u, s);
    }
  }

  class Accounts {
    var cash: map<UserId, int>
    var ledger: seq<Tx>
    ghost const initial: map<UserId, int>

    ghost predicate Valid()
      reads this
    {
      Consistent(cash, ledger, initial)
    }

    /** Registered users with their starting balances and an empty transactions table. */
    constructor (initialCash: map<UserId, int>)
      requires forall u :: u in initialCash ==> initialCash[u] >= 0
      ensures Valid()
      ensures cash == initialCash && ledger == [] && initial == initialCash
    {
      cash, ledger, initial := initialCash, [], initialCash;
    }

    /**
     Buys `shares` of `symbol` for `user`. `shares` is the parsed form field
     (None when it is not an integer) and `quote` the price lookup found for
     `symbol` (None when it found none).
     */
    method Buy(user: UserId, symbol: Symbol, shares: Option<int>, quote: Option<Price>) returns (outcome: Outcome)
      requires Valid() && user in cash
      modifies this
      ensures Valid()
      ensures symbol == [] ==> outcome == Rejected(MissingSymbol)
      ensures symbol != [] && shares.None? ==> outcome == Rejected(NotAnInteger)
      ensures symbol != [] && shares == Some(0) ==> outcome == Rejected(MissingShares)
      ensures symbol != [] && shares.Some? && shares.value < 0 ==> outcome == Rejected(TooFewShares)
      ensures symbol != [] && shares.Some? && shares.value >= 1 && quote.None? ==> outcome == Rejected(InvalidSymbol)
      ensures (symbol != [] && shares.Some? && shares.value >= 1 && quote.Some?
               && old(cash[user]) < quote.value * shares.value) ==> outcome == Rejected(CantAfford)
      ensures outcome.Done? <==>
        symbol != [] && shares.Some? && shares.value >= 1 && quote.Some?
        && quote.value * shares.value <= old(cash[user])
      ensures outcome.Rejected? ==> cash == old(cash) && ledger == old(ledger)
      ensures outcome.Done? ==>
        && cash == old(cash)[user := old(cash[user]) - quote.value * shares.value]
        && ledger == old(ledger) + [Tx(user, symbol, shares.value, quote.value)]
    {
      if symbol == [] {
        return Rejected(MissingSymbol);
      }
      if shares.None? {
        return Rejected(NotAnInteger);
      }
      var n := shares.value;
      if n == 0 {
        return Rejected(MissingShares);
      }
      if n < 1 {
        return Rejected(TooFewShares);
      }
      if quote.None? {
        return Rejected(InvalidSymbol);
      }
      var price := quote.value;
      if cash[user] < price * n {
        return Rejected(CantAfford);
      }
      var tx := Tx(user, symbol, n, price);
      assert Holding(ledger, user, symbol) >= 0;
      CommitPreserves(cash, ledger, initial, tx);
      cash := cash[user := cash[user] - price * n];
      ledger := ledger + [tx];
      return Done;
    }

    /**
     Sells `shares` of `symbol` for `user`, who must hold at least that many;
     `shares` and `quote` are as for `Buy`.
     */
    method Sell(user: UserId, symbol: Symbol, shares: Option<int>, quote: Option<Price>) returns (outcome: Outcome)
      requires Valid() && user in cash
      modifies this
      ensures Valid()
      ensures symbol == [] ==> outcome == Rejected(MissingSymbol)
      ensures symbol != [] && shares.None? ==> outcome == Rejected(NotAnInteger)
      ensures symbol != [] && shares == Some(0) ==> outcome == Rejected(MissingShares)
      ensures symbol != [] && shares.Some? && shares.value < 0 ==> outcome == Rejected(TooFewShares)
      ensures (symbol != [] && shares.Some? && shares.value >= 1
               && shares.value > Holding(old(ledger), user, symbol)) ==> outcome == Rejected(TooManyShares)
      ensures (symbol != [] && shares.Some? && 1 <= shares.value <= Holding(old(ledger), user, symbol)
               && quote.None?) ==> outcome == Rejected(InvalidSymbol)
      ensures outcome.Done? <==>
        symbol != [] && shares.Some? && 1 <= shares.value <= Holding(old(ledger), user, symbol) && quote.Some?
      ensures outcome.Rejected? ==> cash == old(cash) && ledger == old(ledger)
      ensures outcome.Done? ==>
        && cash == old(cash)[user := old(cash[user]) + quote.value * shares.value]
        && ledger == old(ledger) + [Tx(user, symbol, -shares.value, quote.value)]
    {
      if symbol == [] {
        return Rejected(MissingSymbol);
      }
      if shares.None? {
        return Rejected(NotAnInteger);
      }
      var n := shares.value;
      if n == 0 {
        return Rejected(MissingShares);
      }
      if n < 1 {
        return Rejected(TooFewShares);
      }
      var held := HeldShares(user, symbol);
      if n > held {
        return Rejected(TooManyShares);
      }
      if quote.None? {
        return Rejected(InvalidSymbol);
      }
      var price := quote.value;
      var tx := Tx(user, symbol, -n, price);
      assert tx.shares * tx.price == -(price * n) by {
        NegatedCost(n, price);
      }
      CommitPreserves(cash, ledger, initial, tx);
      cash := cash[user := cash[user] + price * n];
      ledger := ledger + [tx];
      return Done;
    }

    /**
     How many shares of `symbol` the `sell` route finds that `user` holds: it
     groups the user's trades by symbol and scans the rows for `symbol`.
     */
    method HeldShares(user: UserId, symbol: Symbol) returns (held: int)
      ensures held == Holding(ledger, user, symbol)
    {
      var rows := GroupBySymbol(History(ledger, user));
      var found := ScanHoldings(rows, symbol);
      // A symbol without a row was never traded by this user: it is held 0 times.
      held := if found.Some? then found.value else 0;
      ScannedHolding(ledger, user, symbol, found);
    }

    /**
     The index page of `user`: the priced portfolio entries, the cash balance
     and the grand total, pricing each grouped row with `quotes`.
     */
    method Index(user: UserId, quotes: Symbol -> Option<Price>) returns (lines: seq<Line>, balance: int, total: int)
      requires user in cash
      ensures lines == PortfolioLines(GroupBySymbol(History(ledger, user)), quotes)
      ensures balance == cash[user]
      ensures total == balance + LinesTotal(lines)
      ensures total == balance + MarketValue(History(ledger, user), quotes)
      ensures Valid() ==> total >= balance
    {
      var rows := GroupBySymbol(History(ledger, user));
      var finalTotal;
      lines, finalTotal := PriceRows(rows, quotes);
      balance := cash[user];
      total := finalTotal + balance;
      PortfolioValue(History(ledger, user), quotes);
      if Valid() {
        GroupedHoldings(ledger, user);
        NonNegativeValue(rows, quotes);
      }
    }
  }

  /**
   The loop of the index page: looks up each grouped row, renders an entry for
   each row that has a price, and adds that entry's value to the running total.
   */
  method PriceRows(rows: seq<Position>, quotes: Symbol -> Option<Price>) returns (lines: seq<Line>, finalTotal: int)
    ensures lines == PortfolioLines(rows, quotes)
    ensures finalTotal == LinesTotal(lines)
  {
    finalTotal := 0;
    lines := [];
    for i := 0 to |rows|
      invariant lines == PortfolioLines(rows[..i], quotes)
      invariant finalTotal == LinesTotal(lines)
    {
      var row := rows[i];
      assert rows[..i + 1] == rows[..i] + [row];
      match quotes(row.symbol)
      case Some(price) =>
        var value := row.totalShares * price;
        var line := Line(row.symbol, row.totalShares, price, value);
        assert (lines + [line])[..|lines|] == lines;
        finalTotal := finalTotal + value;
        lines := lines + [line];
      case None =>
        assert lines + [] == lines;
    }
    assert rows[..|rows|] == rows;
  }

  lemma NegatedCost(n: int, price: int)
    ensures (-n) * price == -(price * n)
  {
  }

  /** The share count `sell` finds by scanning the grouped rows is the user's holding; no row means 0 held. */
  lemma ScannedHolding(ledger: seq<Tx>, user: UserId, symbol: Symbol, found: Option<int>)
    requires found.None? <==> symbol !in SymbolsIn(GroupBySymbol(History(ledger, user)))
    requires found.Some? ==> exists i :: (0 <= i < |GroupBySymbol(History(ledger, user))|
               && GroupBySymbol(History(ledger, user))[i] == Position(symbol, found.value))
    ensures (if found.Some? then found.value else 0) == Holding(ledger, user, symbol)
  {
    GroupedHoldings(ledger, user);
  }

  /** A buy of 10 shares at 150 cents from 10000 cents of cash, then a purchase the user cannot afford. */
  method BuyScenario()
  {
    var f := new Accounts(map[1 := 10000]);
    var o := f.Buy(1, "AAPL", Some(10), Some(150));
    assert o == Done && f.cash[1] == 8500;
    assert f.ledger == [Tx(1, "AAPL", 10, 150)];
    assert Holding(f.ledger, 1, "AAPL") == 10;

    o := f.Buy(1, "AAPL", Some(57), Some(150));
    assert o == Rejected(CantAfford) && f.cash[1] == 8500;
  }

  /** A user who started with 10000 cents and bought 5 shares of "AAPL" at 150 cents. */
  method HoldingFive() returns (f: Accounts)
    ensures fresh(f) && f.Valid()
    ensures f.cash == map[1 := 9250] && f.ledger == [Tx(1, "AAPL", 5, 150)]
  {
    f := new Accounts(map[1 := 10000]);
    var o := f.Buy(1, "AAPL", Some(5), Some(150));
    assert o == Done;
  }

  /** Selling one share more than is held is refused and changes nothing. */
  method OversellScenario()
  {
    var f := HoldingFive();
    assert Holding(f.ledger, 1, "AAPL") == 5;
    var o := f.Sell(1, "AAPL", Some(6), Some(150));
    assert o == Rejected(TooManyShares) && f.cash[1] == 9250 && |f.ledger| == 1;
  }

  /** Selling exactly the shares held succeeds and leaves a holding of 0. */
  method LiquidationScenario()
  {
    var f := HoldingFive();
    var bought := f.ledger;
    var sale := Tx(1, "AAPL", -5, 160);
    assert Holding(bought, 1, "AAPL") == 5;
    HoldingAppend(bought, sale, 1, "AAPL");
    var o := f.Sell(1, "AAPL", Some(5), Some(160));
    assert o == Done && f.cash[1] == 10050;
    assert f.ledger == bought + [sale];
    assert Holding(f.ledger, 1, "AAPL") == 0;
  }

  /** Symbols are compared exactly: shares bought as "aapl" cannot be sold as "AAPL". */
  method SymbolScenario()
  {
    var f := new Accounts(map[1 := 10000]);
    var o := f.Buy(1, "aapl", Some(1), Some(150));
    assert f.ledger == [Tx(1, "aapl", 1, 150)];
    assert Holding(f.ledger, 1, "AAPL") == 0;

    o := f.Sell(1, "AAPL", Some(1), Some(150));
    assert o == Rejected(TooManyShares);
  }
}
