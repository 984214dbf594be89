# Stock portfolio ledger in Dafny

A model of the trading core of a small Flask stock-trading application
(`app.py`). Each user has a cash balance. Every purchase or sale appends one
row to an append-only transactions table. The row holds the user, the
symbol, the signed share count (positive for a buy, negative for a sell) and
the price per share at the time of the trade. All holdings are derived from
this table by summing signed shares.

The project has three modules:

- `ledger.dfy` (module `Ledger`) holds the transaction record and the
  functions derived from the table:
  - a user's history;
  - a user's holding of a symbol;
  - the net shares of a symbol in a list of transactions;
  - the cash a user has paid out;
  - the market value of a list of trades.
- `portfolio.dfy` (module `Portfolio`) holds the per-symbol aggregation
  (`GROUP BY symbol` with `SUM(shares)`) and the portfolio page:
  - one priced line per aggregated row whose quote succeeded;
  - the running total of those lines;
  - the linear scan that `sell` uses to find the current holding.
- `finance.dfy` (module `Finance`) holds the application state as the class `Accounts`:
  - a cash map and the transaction sequence, updated in place by `Buy` and
    `Sell`;
  - the read-only `Index` and `HeldShares` queries;
  - the conservation invariant `Consistent` that every trade preserves:
    - every balance is non-negative;
    - every balance plus what the user paid out through the ledger equals
      the user's starting balance;
    - no holding is ever negative;
    - no row has zero shares.

Money is kept in integer cents, and every price is positive. Stock quotes
come from an external service, so they appear as parameters:

- `Buy` and `Sell` take an `Option<Price>` (`None` means the lookup failed);
- `Index` takes a function from symbols to optional prices.

The shares form field arrives as an `Option<int>` (`None` means the text was
not an integer).

## Model

| member | source | states |
|---|---|---|
| Finance.Accounts.constructor | app.py:21-22 | The application starts from a table of user balances, all non-negative, and an empty transactions table; the conservation invariant holds from the start. |
| Finance.Accounts.Buy | app.py:70-110 | The rejections are checked in source order: missing symbol, non-integer shares, zero shares, fewer than one share, failed quote ("invalid symbol"), and cost above the cash balance. A buy succeeds exactly when the symbol is non-empty, shares ≥ 1, the quote succeeds and price × shares ≤ cash, so spending all the cash is allowed. A rejection changes nothing. A success debits exactly price × shares from that user only and appends one row with +shares at the quoted price. The conservation invariant is preserved. |
| Finance.Accounts.Sell | app.py:240-288 | The rejections are checked in source order: missing symbol, non-integer shares, zero shares, fewer than one share, more shares than currently held, and failed quote. A sell succeeds exactly when shares ≥ 1, shares ≤ the current holding and the quote succeeds, so selling everything is allowed. A rejection changes nothing. A success credits price × shares to that user only and appends one row with −shares. The conservation invariant is preserved, so holdings never go negative. |
| Finance.Accounts.HeldShares | app.py:244-260 | The holding `sell` finds by grouping the user's rows and scanning them for the symbol equals the user's net signed share count in that symbol, and is 0 for a symbol never traded. |
| Finance.Accounts.Index | app.py:36-63 | The portfolio lines are the priced aggregated rows of the user's history. The balance is the user's cash. The grand total is cash plus the sum of the line values, which equals cash plus shares × current price summed over all the user's trades in symbols whose quote succeeds. Under the invariant the total is never below the cash balance. |
| Finance.PriceRows | app.py:43-56 | The loop over the aggregated rows produces exactly the priced lines of those rows, in row order, and a running total equal to the sum of their values. |
| Finance.CommitPreserves | app.py:94-104 | Debiting price × shares from a user who can afford it, while appending that row, keeps the invariant: balances stay non-negative and balance plus payout still equals the starting balance. The lemma covers a buy and, with a negative share count that the user holds, a sell (lines 269-282). |
| Finance.ScannedHolding | app.py:258-269 | The scan's result, or 0 when no row matches, is the user's holding. A never-held symbol therefore compares as 0. |
| Ledger.History | app.py:121-123 | The history contains every transaction of the user and only transactions of that user, and is no longer than the table. |
| Ledger.HistoryConcat | app.py:121-123 | The history of two consecutive stretches of the table is the history of the first followed by that of the second, so every row of the user appears once per insertion, repeats included, in insertion order. |
| Ledger.HistorySingle | app.py:121-123 | A single row appears in the history exactly when it belongs to the user. |
| Ledger.NetSharesOfHistory | app.py:39-41 | Summing the shares of one symbol over the user-filtered rows gives exactly the user's net holding of that symbol. |
| Ledger.NetSharesUntraded | app.py:39-41 | A symbol that does not occur among the rows sums to zero shares. |
| Portfolio.GroupBySymbol | app.py:39-41 | The grouped rows have pairwise distinct symbols, exactly the symbols that were traded, and each row's total is the net signed shares of its symbol. |
| Portfolio.GroupedHoldings | app.py:244-246 | For the user's history, every grouped row's total is the user's holding of that symbol, and any symbol without a row has a holding of 0. |
| Portfolio.PortfolioLinesSound | app.py:46-56 | There are no more lines than rows. Every line comes from a row with the same symbol and shares, and is valued at shares × its quoted price. Every row whose quote succeeds has a line. |
| Portfolio.PortfolioLinesConcat | app.py:46-56 | The entries of two consecutive blocks of rows are the entries of the first block followed by those of the second, so each row contributes its own entries at its own position. |
| Portfolio.PortfolioLinesSingle | app.py:46-56 | A single row renders as exactly one entry valued at its quote when the quote succeeds, and as nothing when it fails. |
| Portfolio.PortfolioValue | app.py:43-50 | The sum of the line values over the grouped rows equals the market value of the individual trades: grouping does not change the total. |
| Portfolio.NonNegativeValue | app.py:46-50 | If no aggregated total is negative, the portfolio's stock value is not negative. |
| Portfolio.ScanHoldings | app.py:258-260 | The scan finds nothing exactly when no row has the symbol. When it finds something, that is the share total of a row with that symbol. |

## Left out

- The web layer is not modelled:
  - routing, sessions and login;
  - templates, `flash`, redirects;
  - the HTTP status codes of `apology`.
  A rejection is modelled as `Rejected(reason)`, one reason per kind of
  rejection. `TooFewShares` stands for both buy's "too few shares" and sell's
  "shares must be positive".
- `register`, `login`, `logout` and `quote` are not part of this model.
- `lookup` and `usd` live in `helpers.py`, which is not part of this model:
  - quotes are parameters;
  - formatting is not modelled.
- SQLite storage is replaced by a map and a sequence. Row ids and the
  `CURRENT_TIMESTAMP` column are dropped. `history` passes them to the page
  for display only, and no decision reads them. Without ids, two identical
  trades are equal rows; `Ledger.HistoryConcat` still keeps one entry per
  insertion.
- Cash is a floating-point number in the source and is modelled in integer
  cents. Rounding is not modelled.
- Two requests of the same user can interleave between the balance read and
  the writes. Each operation is modelled as atomic.
- Both trades update the balance and then insert the row inside a catch-all
  `except`. If the insert fails after the update, the source keeps the new
  balance without the row. The model assumes that storage never fails.
- Finance.Accounts.Buy: `int()` of a missing shares field raises `TypeError`,
  which the source does not catch. The model treats it as the non-integer
  rejection.
- Finance.Accounts.Sell: in the source, a non-integer shares field raises an
  uncaught `ValueError`, because `sell` has no `try` there; the model
  rejects it as `NotAnInteger`. Selling a symbol the user never held leaves
  `current_shares` unbound, which is a server error in the source; the model
  compares against a holding of 0 and rejects with `TooManyShares`.
- Symbols are compared and stored exactly as typed. No case normalisation is
  applied, because the code applies none: buying `aapl` and selling `AAPL`
  refer to different holdings.
- Finance.Accounts.Index lists every aggregated row whose quote succeeds, even
  a row whose net shares are 0, as the code does. It does not show only
  non-zero holdings.
- Finance.Accounts.Index: the grouped query has no `ORDER BY`, so the source
  leaves the order of the grouped rows, and so of the portfolio lines,
  unspecified. The model fixes first-trade order. The totals and the holding
  found by `sell` do not depend on this order.
