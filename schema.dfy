/**
 * The rows of the trading server's tables, the constants its handlers use,
 * and the error replies they send.  Money (cash, prices, amounts) is counted
 * in whole won; only the average buy price of a position is a `real`.
 */
module Schema {

  type UserId = int
  type StockId = int
  type NewsId = int

  /** Cash given to every account at registration. */
  const StartingCash: int := 1000000
  /** Rows returned by the transaction list of one user. */
  const TransactionListLimit: nat := 50
  /** Rows of price history returned with one stock. */
  const PriceHistoryLimit: nat := 20
  /** The news type that is readable without purchase. */
  const FreeType: string := "FREE"
  /** The text shown in place of the content of paid news that was not bought. */
  const LockedContent: string := "이 뉴스는 유료 뉴스입니다. 열람하려면 구매가 필요합니다."

  /** One constructor per error reply of the handlers. */
  datatype Error =
    | UserNotFound          // 404 "user not found"
    | StockNotFound         // 404 "stock not found"
    | NewsNotFound          // 404 "news not found"
    | InsufficientBalance   // 400 cash below the amount to pay
    | InsufficientHoldings  // 400 fewer shares held than offered
    | Forbidden             // 403 the acting name is not in the admins table
    | DuplicateUsername     // 400 username already registered
    | FreeNews              // 400 free news cannot be bought
    | AlreadyPurchased      // 400 the user already bought this news

  datatype Result<T> = Ok(value: T) | Err(error: Error)

  datatype Outcome = Done | Failed(error: Error)

  datatype Option<T> = None | Some(value: T)

  /** A row of `users` (the password column is not modelled). */
  datatype User = User(username: string, name: string, cash: int)

  /** A row of `stocks`. */
  datatype Stock = Stock(code: string, name: string, price: int)

  /** A row of `user_stocks`, keyed by (user, stock). */
  datatype Position = Position(quantity: int, avgPrice: real)

  datatype TradeType = Buy | Sell

  /** A row of `transactions`. */
  datatype Transaction = Transaction(
    userId: UserId, stockId: StockId, kind: TradeType,
    quantity: int, price: int, totalAmount: int)

  /** A row of `price_history`. */
  datatype PriceChange = PriceChange(stockId: StockId, price: int, changedBy: string)

  /** A row of `news`; `kind` is the `type` column. */
  datatype News = News(title: string, content: string, kind: string, price: int, createdBy: string)

  /** A row of `news_views`: the user has bought the news item. */
  datatype NewsView = NewsView(userId: UserId, newsId: NewsId)

  /** A well-formed trade record: positive quantity and price, amount = price × quantity. */
  predicate WellFormedTrade(t: Transaction)
  {
    t.quantity > 0 && t.price > 0 && t.totalAmount == t.price * t.quantity
  }
}
