/**
 The read-only projections of the ledger: the per-symbol totals that
 `SELECT symbol, SUM(shares) ... GROUP BY symbol` returns, the priced
 portfolio lines the index page shows, and the scan by which a sale finds
 the seller's current holding.
 */
module Portfolio {
  import opened Ledger

  /** One row of the grouped query: a symbol and the sum of its signed shares. */
  datatype Position = Position(symbol: Symbol, totalShares: int)

  /** One entry of the rendered portfolio, made only for a row whose quote succeeded. */
  datatype Line = Line(symbol: Symbol, shares: int, price: Price, totalValue: int)

  function SymbolsIn(rows: seq<Position>): set<Symbol>
  {
    set i | 0 <= i < |rows| :: rows[i].symbol
  }

  lemma SymbolsInAppend(rows: seq<Position>, p: Position)
    ensures SymbolsIn(rows + [p]) == SymbolsIn(rows) + {p.symbol}
  {
    var after := rows + [p];
    assert after[|rows|].symbol == p.symbol;
    forall s | s in SymbolsIn(rows) ensures s in SymbolsIn(after) {
      var k :| 0 <= k < |rows| && rows[k].symbol == s;
      assert after[k] == rows[k];
    }
  }

  /** Each symbol has at most one row, as GROUP BY guarantees. */
  ghost predicate Distinct(rows: seq<Position>)
  {
    forall i, j :: 0 <= i < j < |rows| ==> rows[i].symbol != rows[j].symbol
  }

  /** Every row carries the net shares of its symbol in `txs`. */
  ghost predicate Tallies(rows: seq<Position>, txs: seq<Tx>)
  {
    forall i :: 0 <= i < |rows| ==> rows[i].totalShares == NetShares(txs, rows[i].symbol)
  }

  /** A row with the shares of `t` added when it is the row of `t`'s symbol. */
  function Bumped(p: Position, t: Tx): Position
  {
    if p.symbol == t.symbol then Position(p.symbol, p.totalShares + t.shares) else p
  }

  /** Adds the shares of `t` to the row of its symbol; every other row is kept. */
  function AddTo(rows: seq<Position>, t: Tx): (r: seq<Position>)
    ensures |r| == |rows|
    ensures forall i :: 0 <= i < |rows| ==> r[i].symbol == rows[i].symbol
    ensures forall i :: 0 <= i < |rows| ==>
      r[i].totalShares == rows[i].totalShares + (if rows[i].symbol == t.symbol then t.shares else 0)
  {
    if rows == [] then []
    else
      var before, last := rows[..|rows| - 1], rows[|rows| - 1];
      AddTo(before, t) + [Bumped(last, t)]
  }

  /** Folds one more transaction into the grouped rows: its symbol's row grows, or a new row opens at the end. */
  function Bump(rows: seq<Position>, t: Tx): (r: seq<Position>)
    requires Distinct(rows)
    ensures Distinct(r)
    ensures SymbolsIn(r) == SymbolsIn(rows) + {t.symbol}
  {
    if t.symbol in SymbolsIn(rows) then AddTo(rows, t)
    else
      SymbolsInAppend(rows, Position(t.symbol, t.shares));
      rows + [Position(t.symbol, t.shares)]
  }

  /**
   The grouped query over `txs`: one row per symbol that occurs in `txs`,
   holding the net shares of that symbol. The query has no ORDER BY, so its
   row order is unspecified; first-trade order is the one order chosen here.
   */
  function GroupBySymbol(txs: seq<Tx>): (rows: seq<Position>)
    ensures Distinct(rows)
    ensures SymbolsIn(rows) == TradedSymbols(txs)
    ensures Tallies(rows, txs)
  {
    if txs == [] then []
    else
      var before, last := txs[..|txs| - 1], txs[|txs| - 1];
      assert txs == before + [last];
      TradedSymbolsAppend(before, last);
      BumpTallies(GroupBySymbol(before), last, before);
      Bump(GroupBySymbol(before), last)
  }

  lemma BumpTallies(rows: seq<Position>, t: Tx, txs: seq<Tx>)
    requires Distinct(rows) && SymbolsIn(rows) == TradedSymbols(txs) && Tallies(rows, txs)
    ensures Tallies(Bump(rows, t), txs + [t])
  {
    var r := Bump(rows, t);
    forall i | 0 <= i < |r| ensures r[i].totalShares == NetShares(txs + [t], r[i].symbol) {
      NetSharesAppend(txs, t, r[i].symbol);
      if t.symbol !in SymbolsIn(rows) && i == |rows| {
        NetSharesUntraded(txs, t.symbol);
      }
    }
  }

  /** The net shares the grouped query reports are exactly the user's holdings; an absent symbol is held 0 times. */
  lemma GroupedHoldings(ledger: seq<Tx>, user: UserId)
    ensures forall i :: 0 <= i < |GroupBySymbol(History(ledger, user))| ==>
      GroupBySymbol(History(ledger, user))[i].totalShares
        == Holding(ledger, user, GroupBySymbol(History(ledger, user))[i].symbol)
    ensures forall s :: s !in SymbolsIn(GroupBySymbol(History(ledger, user))) ==> Holding(ledger, user, s) == 0
  {
    var txs := History(ledger, user);
    var rows := GroupBySymbol(txs);
    forall i | 0 <= i < |rows| ensures rows[i].totalShares == Holding(ledger, user, rows[i].symbol) {
      NetSharesOfHistory(ledger, user, rows[i].symbol);
    }
    forall s | s !in SymbolsIn(rows) ensures Holding(ledger, user, s) == 0 {
      NetSharesUntraded(txs, s);
      NetSharesOfHistory(ledger, user, s);
    }
  }

  /** A row's worth at the current quotes: shares times price, or 0 when its quote fails. */
  function RowWorth(p: Position, quotes: Symbol -> Option<Price>): int
  {
    p.totalShares * PriceOrZero(quotes(p.symbol))
  }

  /** An entry carries its symbol's successful quote and the value of its shares at that quote. */
  ghost predicate PricedAt(line: Line, quotes: Symbol -> Option<Price>)
  {
    quotes(line.symbol) == Some(line.price) && line.totalValue == line.shares * line.price
  }

  /** The entry `index` renders for one row: present only when the row's quote succeeds. */
  function LineOf(p: Position, quotes: Symbol -> Option<Price>): seq<Line>
  {
    match quotes(p.symbol)
    case None => []
    case Some(price) => [Line(p.symbol, p.totalShares, price, p.totalShares * price)]
  }

  /** The portfolio entries `index` renders: one per row whose quote succeeded, in row order. */
  function PortfolioLines(rows: seq<Position>, quotes: Symbol -> Option<Price>): seq<Line>
  {
    if rows == [] then []
    else PortfolioLines(rows[..|rows| - 1], quotes) + LineOf(rows[|rows| - 1], quotes)
  }

  /**
   Every rendered entry is a grouped row with a successful quote, valued at
   that quote, and every row whose quote succeeds is rendered; unpriced rows are skipped.
   */
  lemma {:induction false} PortfolioLinesSound(rows: seq<Position>, quotes: Symbol -> Option<Price>)
    ensures |PortfolioLines(rows, quotes)| <= |rows|
    ensures forall line: Line :: line in PortfolioLines(rows, quotes) ==>
      PricedAt(line, quotes) && Position(line.symbol, line.shares) in rows
    ensures forall p: Position :: p in rows && quotes(p.symbol).Some? ==>
      exists line: Line :: line in PortfolioLines(rows, quotes) && line.symbol == p.symbol
  {
    if rows != [] {
      var before, last := rows[..|rows| - 1], rows[|rows| - 1];
      assert rows == before + [last];
      PortfolioLinesSound(before, quotes);
      var lines := PortfolioLines(before, quotes);
      var extra := LineOf(last, quotes);
      assert PortfolioLines(rows, quotes) == lines + extra;
      forall p | p in rows && quotes(p.symbol).Some?
        ensures exists line: Line :: line in lines + extra && line.symbol == p.symbol
      {
        if p == last {
          assert extra[0] in lines + extra;
        } else {
          assert p in before;
          var line :| line in lines && line.symbol == p.symbol;
          assert line in lines + extra;
        }
      }
    }
  }

  /** A single row renders as its own entry, or as nothing when its quote fails. */
  lemma PortfolioLinesSingle(p: Position, quotes: Symbol -> Option<Price>)
    ensures PortfolioLines([p], quotes) == LineOf(p, quotes)
  {
    assert [p][..0] == [];
  }

  /**
   The entries of consecutive blocks of rows are the entries of each block in
   turn: every priced row yields exactly one entry, at its row's position.
   */
  lemma {:induction false} PortfolioLinesConcat(a: seq<Position>, b: seq<Position>, quotes: Symbol -> Option<Price>)
    ensures PortfolioLines(a + b, quotes) == PortfolioLines(a, quotes) + PortfolioLines(b, quotes)
  {
    if b == [] {
      assert a + b == a;
    } else {
      var before, last := b[..|b| - 1], b[|b| - 1];
      assert b == before + [last];
      assert a + b == (a + before) + [last];
      assert (a + b)[..|a + b| - 1] == a + before;
      PortfolioLinesConcat(a, before, quotes);
    }
  }

  /** The sum of the rendered entries' values. */
  function LinesTotal(lines: seq<Line>): int
  {
    if lines == [] then 0
    else LinesTotal(lines[..|lines| - 1]) + lines[|lines| - 1].totalValue
  }

  lemma ValueAppend(rows: seq<Position>, p: Position, quotes: Symbol -> Option<Price>)
    ensures LinesTotal(PortfolioLines(rows + [p], quotes))
         == LinesTotal(PortfolioLines(rows, quotes)) + RowWorth(p, quotes)
  {
    assert (rows + [p])[..|rows|] == rows;
    var lines := PortfolioLines(rows, quotes);
    match quotes(p.symbol)
    case None =>
      assert lines + [] == lines;
    case Some(price) =>
      var line := Line(p.symbol, p.totalShares, price, p.totalShares * price);
      assert (lines + [line])[..|lines|] == lines;
  }

  /** The last row of distinct rows names a symbol no earlier row has. */
  lemma DistinctSplit(rows: seq<Position>)
    requires Distinct(rows) && rows != []
    ensures Distinct(rows[..|rows| - 1])
    ensures rows[|rows| - 1].symbol !in SymbolsIn(rows[..|rows| - 1])
    ensures SymbolsIn(rows) == SymbolsIn(rows[..|rows| - 1]) + {rows[|rows| - 1].symbol}
  {
    var before, last := rows[..|rows| - 1], rows[|rows| - 1];
    assert rows == before + [last];
    SymbolsInAppend(before, last);
  }

  /** Rows without the symbol of `t` are left as they are. */
  lemma AddToAbsent(rows: seq<Position>, t: Tx)
    requires t.symbol !in SymbolsIn(rows)
    ensures AddTo(rows, t) == rows
  {
    var r := AddTo(rows, t);
    forall i | 0 <= i < |rows| ensures r[i] == rows[i] {
      assert rows[i].symbol in SymbolsIn(rows);
    }
  }

  lemma WorthSplit(p: Position, t: Tx, quotes: Symbol -> Option<Price>)
    requires p.symbol == t.symbol
    ensures RowWorth(Bumped(p, t), quotes) == RowWorth(p, quotes) + t.shares * PriceOrZero(quotes(t.symbol))
  {
    var price := PriceOrZero(quotes(p.symbol));
    assert (p.totalShares + t.shares) * price == p.totalShares * price + t.shares * price;
  }

  lemma WorthNonNegative(p: Position, quotes: Symbol -> Option<Price>)
    requires p.totalShares >= 0
    ensures RowWorth(p, quotes) >= 0
  {
    var price := PriceOrZero(quotes(p.symbol));
    assert price >= 0;
  }

  lemma AddToUnfold(rows: seq<Position>, t: Tx)
    requires rows != []
    ensures AddTo(rows, t) == AddTo(rows[..|rows| - 1], t) + [Bumped(rows[|rows| - 1], t)]
  {
  }

  /** The shares of `t` land on the last row when that row is the one of `t`'s symbol. */
  lemma AddToLastValue(rows: seq<Position>, t: Tx, quotes: Symbol -> Option<Price>)
    requires Distinct(rows) && rows != [] && rows[|rows| - 1].symbol == t.symbol
    ensures LinesTotal(PortfolioLines(AddTo(rows, t), quotes))
         == LinesTotal(PortfolioLines(rows, quotes)) + t.shares * PriceOrZero(quotes(t.symbol))
  {
    var before, last := rows[..|rows| - 1], rows[|rows| - 1];
    assert AddTo(rows, t) == before + [Bumped(last, t)] by {
      AddToUnfold(rows, t);
      DistinctSplit(rows);
      AddToAbsent(before, t);
    }
    assert rows == before + [last];
    ValueAppend(before, Bumped(last, t), quotes);
    ValueAppend(before, last, quotes);
    WorthSplit(last, t, quotes);
  }

  /** Adding shares to the one row of a symbol raises the portfolio total by those shares at that symbol's quote. */
  lemma {:induction false} AddToValue(rows: seq<Position>, t: Tx, quotes: Symbol -> Option<Price>)
    requires Distinct(rows) && t.symbol in SymbolsIn(rows)
    ensures LinesTotal(PortfolioLines(AddTo(rows, t), quotes))
         == LinesTotal(PortfolioLines(rows, quotes)) + t.shares * PriceOrZero(quotes(t.symbol))
  {
    var before, last := rows[..|rows| - 1], rows[|rows| - 1];
    if last.symbol == t.symbol {
      AddToLastValue(rows, t, quotes);
    } else {
      assert AddTo(rows, t) == AddTo(before, t) + [last] by {
        AddToUnfold(rows, t);
      }
      assert Distinct(before) && t.symbol in SymbolsIn(before) by {
        DistinctSplit(rows);
      }
      AddToValue(before, t, quotes);
      ValueAppend(AddTo(before, t), last, quotes);
      assert rows == before + [last];
      ValueAppend(before, last, quotes);
    }
  }

  /** Folding one transaction into the grouped rows raises the portfolio total by its shares at the current quote. */
  lemma BumpValue(rows: seq<Position>, t: Tx, quotes: Symbol -> Option<Price>)
    requires Distinct(rows)
    ensures LinesTotal(PortfolioLines(Bump(rows, t), quotes))
         == LinesTotal(PortfolioLines(rows, quotes)) + t.shares * PriceOrZero(quotes(t.symbol))
  {
    if t.symbol in SymbolsIn(rows) {
      AddToValue(rows, t, quotes);
    } else {
      ValueAppend(rows, Position(t.symbol, t.shares), quotes);
    }
  }

  /**
   The portfolio total built from the grouped rows equals the ledger valued
   trade by trade at the current quotes: symbols whose quote fails add nothing.
   */
  lemma {:induction false} PortfolioValue(txs: seq<Tx>, quotes: Symbol -> Option<Price>)
    ensures LinesTotal(PortfolioLines(GroupBySymbol(txs), quotes)) == MarketValue(txs, quotes)
  {
    if txs != [] {
      var before, last := txs[..|txs| - 1], txs[|txs| - 1];
      PortfolioValue(before, quotes);
      BumpValue(GroupBySymbol(before), last, quotes);
    }
  }

  /** Rows that hold no negative position are worth at least nothing. */
  lemma {:induction false} NonNegativeValue(rows: seq<Position>, quotes: Symbol -> Option<Price>)
    requires forall i :: 0 <= i < |rows| ==> rows[i].totalShares >= 0
    ensures LinesTotal(PortfolioLines(rows, quotes)) >= 0
  {
    if rows != [] {
      var before, last := rows[..|rows| - 1], rows[|rows| - 1];
      assert rows == before + [last];
      NonNegativeValue(before, quotes);
      ValueAppend(before, last, quotes);
      WorthNonNegative(last, quotes);
    }
  }

  /**
   The loop in `sell` over the grouped rows: the total of the row whose symbol
   equals `symbol` exactly, or None when no row has it.
   */
  method ScanHoldings(rows: seq<Position>, symbol: Symbol) returns (found: Option<int>)
    ensures found.None? <==> symbol !in SymbolsIn(rows)
    ensures found.Some? ==> exists i :: 0 <= i < |rows| && rows[i] == Position(symbol, found.value)
  {
    found := None;
    for i := 0 to |rows|
      invariant found.None? <==> forall k :: 0 <= k < i ==> rows[k].symbol != symbol
      invariant found.Some? ==> exists k :: 0 <= k < i && rows[k] == Position(symbol, found.value)
    {
      if rows[i].symbol == symbol {
        found := Some(rows[i].totalShares);
      }
    }
  }
}
