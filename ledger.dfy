/**
 The transactions table of the finance application and the per-user views
 that are derived from it by summing signed share counts.

 Money is kept in integer minor units (cents), so every sum below is exact.
 Every recursive function here peels off the LAST transaction, because the
 ledger only ever grows at its end.
 */
module Ledger {

  datatype Option<+T> = None | Some(value: T)

  type UserId = int

  /** A ticker symbol exactly as the user typed it: no case folding, no trimming. */
  type Symbol = string

  /** A quoted price per share in cents; a quote is always positive. */
  type Price = p: int | p > 0 witness 1

  /** One row of the transactions table: positive shares for a buy, negative for a sell. */
  datatype Tx = Tx(user: UserId, symbol: Symbol, shares: int, price: Price)

  /** The price of a quote that succeeded, and 0 for one that did not. */
  function PriceOrZero(quote: Option<Price>): (p: int)
    ensures quote.None? <==> p == 0
    ensures quote.Some? ==> p == quote.value
  {
    match quote
    case Some(price) => price
    case None => 0
  }

  /** The rows `SELECT * FROM transactions WHERE user_id = user` returns, in insertion order. */
  function History(ledger: seq<Tx>, user: UserId): (r: seq<Tx>)
    ensures |r| <= |ledger|
    ensures forall t :: t in r ==> t in ledger && t.user == user
    ensures forall t :: t in ledger && t.user == user ==> t in r
  {
    if ledger == [] then []
    else
      var last := ledger[|ledger| - 1];
      var before := ledger[..|ledger| - 1];
      assert ledger == before + [last];
      History(before, user) + (if last.user == user then [last] else [])
  }

  /** A user's net holding of a symbol: the signed shares of that user's trades in it. */
  function Holding(ledger: seq<Tx>, user: UserId, symbol: Symbol): int
  {
    if ledger == [] then 0
    else
      var last := ledger[|ledger| - 1];
      Holding(ledger[..|ledger| - 1], user, symbol)
      + (if last.user == user && last.symbol == symbol then last.shares else 0)
  }

  /** `SUM(shares)` over the rows of `txs` whose symbol is `symbol`, whoever made them. */
  function NetShares(txs: seq<Tx>, symbol: Symbol): int
  {
    if txs == [] then 0
    else
      var last := txs[|txs| - 1];
      NetShares(txs[..|txs| - 1], symbol) + (if last.symbol == symbol then last.shares else 0)
  }

  /** The cash a user has paid out through the ledger: price times signed shares, summed. */
  function Outlay(ledger: seq<Tx>, user: UserId): int
  {
    if ledger == [] then 0
    else
      var last := ledger[|ledger| - 1];
      Outlay(ledger[..|ledger| - 1], user) + (if last.user == user then last.shares * last.price else 0)
  }

  /** The symbols that occur in `txs`. */
  function TradedSymbols(txs: seq<Tx>): set<Symbol>
  {
    set k | 0 <= k < |txs| :: txs[k].symbol
  }

  /** The worth of `txs` at the current quotes: each trade's shares at today's price, unpriced symbols counting 0. */
  function MarketValue(txs: seq<Tx>, quotes: Symbol -> Option<Price>): int
  {
    if txs == [] then 0
    else
      var last := txs[|txs| - 1];
      MarketValue(txs[..|txs| - 1], quotes) + last.shares * PriceOrZero(quotes(last.symbol))
  }

  lemma HistoryAppend(ledger: seq<Tx>, t: Tx, user: UserId)
    ensures History(ledger + [t], user) == History(ledger, user) + (if t.user == user then [t] else [])
  {
    assert (ledger + [t])[..|ledger|] == ledger;
  }

  lemma HoldingAppend(ledger: seq<Tx>, t: Tx, user: UserId, symbol: Symbol)
    ensures Holding(ledger + [t], user, symbol)
         == Holding(ledger, user, symbol) + (if t.user == user && t.symbol == symbol then t.shares else 0)
  {
    assert (ledger + [t])[..|ledger|] == ledger;
  }

  lemma NetSharesAppend(txs: seq<Tx>, t: Tx, symbol: Symbol)
    ensures NetShares(txs + [t], symbol) == NetShares(txs, symbol) + (if t.symbol == symbol then t.shares else 0)
  {
    assert (txs + [t])[..|txs|] == txs;
  }

  lemma OutlayAppend(ledger: seq<Tx>, t: Tx, user: UserId)
    ensures Outlay(ledger + [t], user) == Outlay(ledger, user) + (if t.user == user then t.shares * t.price else 0)
  {
    assert (ledger + [t])[..|ledger|] == ledger;
  }

  lemma TradedSymbolsAppend(txs: seq<Tx>, t: Tx)
    ensures TradedSymbols(txs + [t]) == TradedSymbols(txs) + {t.symbol}
  {
    var after := txs + [t];
    assert after[|txs|].symbol == t.symbol;
    forall s | s in TradedSymbols(txs) ensures s in TradedSymbols(after) {
      var k :| 0 <= k < |txs| && txs[k].symbol == s;
      assert after[k] == txs[k];
    }
  }

  /** A single row is in the history exactly when it belongs to the user. */
  lemma HistorySingle(t: Tx, user: UserId)
    ensures History([t], user) == (if t.user == user then [t] else [])
  {
    HistoryAppend([], t, user);
    assert [] + [t] == [t];
  }

  /**
   Filtering a concatenation filters each part and keeps them in order, so
   the history lists every one of the user's rows, repeats included, in
   insertion order.
   */
  lemma {:induction false} HistoryConcat(a: seq<Tx>, b: seq<Tx>, user: UserId)
    ensures History(a + b, user) == History(a, user) + History(b, user)
  {
    if b == [] {
      assert a + b == a;
    } else {
      var before, last := b[..|b| - 1], b[|b| - 1];
      assert b == before + [last];
      assert a + b == (a + before) + [last];
      HistoryConcat(a, before, user);
      HistoryAppend(a + before, last, user);
      HistoryAppend(before, last, user);
    }
  }

  /** The `WHERE user_id = ?` filter followed by the per-symbol sum gives exactly the user's net holding. */
  lemma {:induction false} NetSharesOfHistory(ledger: seq<Tx>, user: UserId, symbol: Symbol)
    ensures NetShares(History(ledger, user), symbol) == Holding(ledger, user, symbol)
  {
    if ledger != [] {
      var before, last := ledger[..|ledger| - 1], ledger[|ledger| - 1];
      assert ledger == before + [last];
      NetSharesOfHistory(before, user, symbol);
      HistoryAppend(before, last, user);
      HoldingAppend(before, last, user, symbol);
      if last.user == user {
        NetSharesAppend(History(before, user), last, symbol);
      } else {
        assert History(before, user) + [] == History(before, user);
      }
    }
  }

  /** A symbol that never occurs in `txs` has a net of zero shares there. */
  lemma {:induction false} NetSharesUntraded(txs: seq<Tx>, symbol: Symbol)
    requires symbol !in TradedSymbols(txs)
    ensures NetShares(txs, symbol) == 0
  {
    if txs != [] {
      var before, last := txs[..|txs| - 1], txs[|txs| - 1];
      assert txs == before + [last];
      TradedSymbolsAppend(before, last);
      NetSharesUntraded(before, symbol);
    }
  }
}
