# Classroom stock exchange: ledger model

The server keeps a single classroom stock market. Students register with a starting balance of 1,000,000 won. They buy and sell listed stocks at the current price. An administrator changes prices and publishes free or paid news; students buy paid news to read it.

This project models the server's business logic: the handlers that change the database and the read-only views computed over it. It then proves what those handlers guarantee.

- `schema.dfy` (module `Schema`): the table rows, the error replies and the constants. The constants are the starting cash, the 50-row transaction list, the 20-row price history, and the `FREE` news type with its locked-content notice.
- `logs.dfy` (module `Logs`): the append-only tables (`transactions`, `price_history`) as sequences in insertion order.
  - `Filter` is a `WHERE` clause.
  - `NewestFirst` is `ORDER BY created_at DESC LIMIT n`.
- `ledger.dfy` (module `Ledger`): the `user_stocks` table as a map from (user, stock) to a position (quantity and average purchase price).
  - The effect of a buy is `ApplyBuy`, which re-weights the average; the effect of a sell is `ApplySell`.
  - Each holder's quantity equals the net quantity of their trade log.
  - The market value of a user's positions is a sum over the map.
- `views.dfy` (module `Views`): the GET handlers as functions of the tables.
  - Holdings, with profit and profit rate.
  - The leaderboard, sorted by total assets.
  - A user's transaction list.
  - A stock's detail page, with its price history.
  - A news article, gated by purchase.
- `market.dfy` (module `Market`): the class `Exchange`. Each database table is a field, and each mutating handler is a method that returns a success or an error reply.
  - `Valid()` is the invariant every handler keeps:
    - cash is never negative;
    - usernames are unique;
    - prices are positive;
    - there are no empty positions;
    - positions and trades reference existing users and stocks;
    - quantities agree with the trade log.
  - Each method states its whole new state in terms of `old(...)` and the `Ledger` functions.
  - `BuyStock` and `SellStock` run their checks and then call `ExecuteBuy` or `ExecuteSell`. Those run the handler's statements in order: the trade record, the cash update, and the `user_stocks` step (`StoreBought` or `StoreSold`).
- `scenarios.dfy` (module `Scenarios`): client methods that replay a trading session and a news purchase. Their expected balances and positions follow from the handlers' contracts alone.

Money and prices are unbounded integers. The average purchase price is a `real`; the server stores it as a floating-point number. Two inputs are checked only by the browser client before a request is sent, and the model states them as preconditions:
- the quantity of a buy or sell is positive (`public/static/student.js:316`, `public/static/student.js:351`);
- a new price is positive (`public/static/admin.js:183`).

## Model

| member | source | states |
|---|---|---|
| Ledger.NewAverage | src/index.tsx:222-230 | The re-weighted average lies between the old average and the new price. It preserves the cost basis: average × total quantity = old average × old quantity + price × bought quantity. |
| Ledger.ApplyBuy | src/index.tsx:217-236 | The buy touches only its own row. A first buy creates the row at the current price. An existing row gains the shares bought, its cost basis grows by exactly price × quantity, and its average lies between the old average and the price. Open positions stay open. |
| Ledger.ApplySell | src/index.tsx:276-287 | The sell touches only its own row and never changes the average. The row is deleted exactly when the quantity reaches zero; otherwise it keeps the remaining quantity. Open positions stay open. |
| Ledger.BuyTracksLog | src/index.tsx:206-236 | When every quantity equals the net of its BUY/SELL log, recording a BUY and applying it keeps that true. |
| Ledger.SellTracksLog | src/index.tsx:265-287 | When every quantity equals the net of its BUY/SELL log, recording a SELL and applying it keeps that true. |
| Ledger.ValueRemove | src/index.tsx:474-475 | The SUM of quantity × current price over a user's rows does not depend on the order the rows are added up. |
| Ledger.StockValueBounds | src/index.tsx:474 | A user without rows has stock value 0 (the `COALESCE`). With no negative quantity or price, the stock value is never negative. |
| Ledger.BuyValue | src/index.tsx:217-236 | A buy of q shares at price p raises the buyer's stock value by p × q. Other users' stock values do not change. |
| Ledger.SellValue | src/index.tsx:276-287 | A sell of q shares at price p lowers the seller's stock value by p × q. Other users' stock values do not change. |
| Views.HoldingOf | src/index.tsx:163-166 | A holding row carries the stock id, the code, the name, the quantity, the average and the current price. Its profit equals market value minus cost basis, (current price − average) × quantity, and is positive exactly when the price is above the average. The profit rate is undefined (NULL) exactly when the average is 0; otherwise rate × cost basis = profit × 100. |
| Views.Holdings | src/index.tsx:163-169 | A user's holdings list exactly the user's positions with positive quantity whose stock exists. Each row is the holding row of that position and its stock. |
| Views.HoldingsShowOpenPositions | src/index.tsx:163-169 | Under the ledger invariant, all of a user's positions are listed and every profit rate is defined. |
| Views.FirstBuyShowsNoProfit | src/index.tsx:232-235 | Right after a first buy, the new holding shows zero profit and a 0 % profit rate. |
| Views.TotalAssetsBounds | src/index.tsx:475 | A user without positions is worth exactly their cash. With no negative quantity or price, total assets are never below the cash. |
| Views.Leaderboard | src/index.tsx:471-484 | One row per user, in descending order of total assets. Each row has the user's cash, its stock value, and their sum as total assets. |
| Views.BuyKeepsAssets | src/index.tsx:199-236 | A buy at the current price leaves every user's total assets unchanged: the buyer's cash falls by exactly what their stock value rises. |
| Views.SellKeepsAssets | src/index.tsx:263-287 | A sell at the current price leaves every user's total assets unchanged. |
| Views.TransactionList | src/index.tsx:293-307 | The user's trades in listed stocks, newest first: min(number of such trades, 50) entries, the i-th being the i-th such trade counted from the end of the log. |
| Views.TransactionListAppend | src/index.tsx:206-210 | A newly recorded trade heads its user's transaction list; the older entries follow, shifted by one and capped at 50. |
| Views.TransactionListOthers | src/index.tsx:206-210 | A trade recorded for one user leaves every other user's transaction list unchanged. |
| Views.PriceHistory | src/index.tsx:119-121 | The stock's own price changes, newest first: min(number of changes, 20) entries, the i-th being the i-th change of that stock counted from the end of the log. |
| Views.StockDetail | src/index.tsx:107-124 | The stock-not-found reply comes exactly for an unknown stock. Otherwise the page has the stock and its `PriceHistory`. |
| Views.PriceChangeShown | src/index.tsx:140-148 | After an admin's price update, the stock's detail page shows the new price. The recorded change heads its price history, and the previous entries follow shifted by one, capped at 20. |
| Views.ReadNews | src/index.tsx:344-377 | Unknown news is not found. An article counts as purchased exactly when it is FREE or the user bought it. A purchased article is shown as stored; otherwise its content is replaced by the locked notice. |
| Market.BuyKeepsLedger | src/index.tsx:178-239 | Debiting the buyer, appending the BUY record and applying the buy keeps the ledger invariant. |
| Market.SellKeepsLedger | src/index.tsx:242-290 | Crediting the seller, appending the SELL record and applying the sell keeps the ledger invariant. |
| Market.StoredPrice | src/index.tsx:334 | The price falls back to 0 when it is falsy: a missing or zero price is stored as 0, any other price as given. |
| Market.Exchange.Register | src/index.tsx:56-78 | A taken username is rejected and nothing changes. Otherwise the next id gets an account with 1,000,000 cash, the id counter advances, and nothing else changes. |
| Market.Exchange.UpdatePrice | src/index.tsx:127-155 | A non-admin is forbidden and nothing changes. An admin sets the stock's price and appends a price-history row (also for an unknown stock); the reply is the stock as updated, or none. |
| Market.Exchange.BuyStock | src/index.tsx:178-239 | Unknown user, then unknown stock, then insufficient balance, in that order. Success happens exactly when the user and stock exist and cash ≥ price × quantity. On success: the cash is debited, the BUY record is appended, the position is updated by `ApplyBuy`, and everyone's total assets are unchanged. |
| Market.Exchange.ExecuteBuy | src/index.tsx:205-236 | Once the checks pass: the BUY record at the current price is appended, the buyer's cash drops by price × quantity, the position becomes `ApplyBuy` of the old one, every user's total assets are unchanged, and `Valid()` is kept. |
| Market.Exchange.StoreBought | src/index.tsx:217-236 | The `user_stocks` step of a buy: the table becomes `ApplyBuy` of the old one, and nothing else changes. |
| Market.Exchange.SellStock | src/index.tsx:242-290 | Insufficient holdings happens exactly when there is no position or it is smaller than the quantity. On success: the cash is credited, the SELL record is appended, the position is updated by `ApplySell`, and total assets are unchanged. |
| Market.Exchange.ExecuteSell | src/index.tsx:265-287 | Once the checks pass: the SELL record at the current price is appended, the seller's cash rises by price × quantity, the position becomes `ApplySell` of the old one, every user's total assets are unchanged, and `Valid()` is kept. |
| Market.Exchange.StoreSold | src/index.tsx:276-287 | The `user_stocks` step of a sell: the table becomes `ApplySell` of the old one, and nothing else changes. |
| Market.Exchange.CreateNews | src/index.tsx:320-341 | A non-admin is forbidden and nothing changes. Otherwise the article is stored under the next id, with its price given by `StoredPrice`, and the id counter advances. |
| Market.Exchange.DeleteNews | src/index.tsx:433-451 | A non-admin is forbidden. Otherwise exactly that article is removed, and purchase records stay. |
| Market.Exchange.PurchaseNews | src/index.tsx:380-430 | Not found, then FREE, then already purchased, then unknown user, then insufficient balance, in that order. Success happens exactly when all checks pass. It debits the price and records the purchase, after which the article reads in full. |
| Logs.NewestFirst | src/index.tsx:301-302 | `ORDER BY created_at DESC LIMIT n` over an append-only table: min(length, n) rows, the i-th from the end first. |
| Logs.Filter | src/index.tsx:299-300 | A `WHERE` clause: only the rows that match, each taken from the table, and every matching row kept. |

## Left out

- Login, admin login and password change (`src/index.tsx:20-95`) are left out, along with the password columns. They only authenticate and gate nothing in the ledger.
- Routing, CORS, static files and the HTML pages are outside the business logic.
- The browser scripts are left out. They are used only for the two preconditions named above.
- `GET /api/stocks`, `GET /api/news` and `GET /api/users/:userId` are plain reads of one table. They are the `stocks`, `news` and `users` fields themselves. The ordering of the first two is not modelled.
- The database schema and its foreign-key behaviour are not part of the source files. Autoincrement ids are the counters `nextUserId` and `nextNewsId`, so the model assumes an id is never reused. A table without `AUTOINCREMENT` can reuse the largest id after a delete; with the kept `news_views` rows, a reused news id would read as already purchased. Deleting news is assumed to leave `news_views` rows in place.
- Concurrency is left out. The handlers issue several statements without a database transaction; each model method runs atomically.
- Timestamps are left out. "Newest first" is reverse insertion order, which agrees with `created_at` when no two rows share a second.
- Floating point is left out: the average purchase price and the profit rate are exact reals.
- Views.Leaderboard: rows with equal total assets come out in an unspecified order, as with SQL.
- Views.TransactionList: does not return the joined `code` and `name` columns of the stock. It does keep the join's effect of hiding trades in unknown stocks.
- Views.Leaderboard: is a ghost function, because it chooses a summation order for the stock value. That order is proved irrelevant by `Ledger.ValueRemove`.
- Market.Exchange.SellStock: the handler's stock-not-found reply is part of the model. It cannot occur while `Valid()` holds, because every position references an existing stock.
- The stored average is not proved equal to the weighted mean of all buy fills since the position was last empty. Only the one-step cost-basis identity of `Ledger.NewAverage` is proved.
