/**
 * The mutating handlers of the trading server as methods of one `Exchange`
 * object that holds the database tables.  Every handler checks its error
 * conditions first, in the order the server does, and changes nothing when
 * one of them fails.
 */
module Market {
  import opened Schema
  import opened Ledger
  import opened Views

  /**
   * The value stored for an optional news price (`price || 0`): a missing
   * or zero price is stored as 0, any other price as given.
   */
  function StoredPrice(price: Option<int>): (r: int)
    ensures r == 0 <==> price.None? || price == Some(0)
    ensures r != 0 ==> price == Some(r)
  {
    match price
    case Some(p) => p
    case None => 0
  }

  /** Account ids are below the next id to assign, cash is never negative, usernames are unique. */
  ghost predicate AccountsValid(users: map<UserId, User>, nextUserId: UserId)
  {
    && (forall u :: u in users ==> u < nextUserId && users[u].cash >= 0)
    && (forall u, v :: u in users && v in users && users[u].username == users[v].username ==> u == v)
  }

  /**
   * Prices are positive, every position is open, positive-priced and refers
   * to an existing user and stock, every trade record is well formed and
   * refers to an existing user and stock, and every holding equals shares
   * bought minus shares sold according to the transaction log.
   */
  ghost predicate LedgerValid(users: map<UserId, User>, stocks: map<StockId, Stock>,
                              pos: map<Key, Position>, txs: seq<Transaction>)
  {
    && (forall s :: s in stocks ==> stocks[s].price > 0)
    && OpenPositions(pos)
    && (forall k :: k in pos ==> k.0 in users && k.1 in stocks)
    && (forall i :: 0 <= i < |txs| ==> WellFormedTrade(txs[i]) && txs[i].userId in users && txs[i].stockId in stocks)
    && (forall k :: Held(pos, k) == NetQuantity(txs, k))
  }

  /** Changing one account's cash to a non-negative amount keeps the accounts valid. */
  lemma CashChangeKeepsAccounts(users: map<UserId, User>, nextUserId: UserId, u: UserId, cash: int)
    requires AccountsValid(users, nextUserId) && u in users && cash >= 0
    ensures AccountsValid(users[u := users[u].(cash := cash)], nextUserId)
  {
  }

  /** A buy the server accepts keeps the ledger valid. */
  lemma BuyKeepsLedger(users: map<UserId, User>, stocks: map<StockId, Stock>, pos: map<Key, Position>,
                       txs: seq<Transaction>, k: Key, q: int, cash: int)
    requires LedgerValid(users, stocks, pos, txs)
    requires k.0 in users && k.1 in stocks && q > 0
    ensures var price := stocks[k.1].price;
      LedgerValid(users[k.0 := users[k.0].(cash := cash)], stocks, ApplyBuy(pos, k, q, price),
                  txs + [Transaction(k.0, k.1, Buy, q, price, price * q)])
  {
    var price := stocks[k.1].price;
    var t := Transaction(k.0, k.1, Buy, q, price, price * q);
    BuyTracksLog(pos, txs, k, q, price);
    assert forall i :: 0 <= i < |txs| ==> (txs + [t])[i] == txs[i];
  }

  /** A sell the server accepts keeps the ledger valid. */
  lemma SellKeepsLedger(users: map<UserId, User>, stocks: map<StockId, Stock>, pos: map<Key, Position>,
                        txs: seq<Transaction>, k: Key, q: int, cash: int)
    requires LedgerValid(users, stocks, pos, txs)
    requires k in pos && pos[k].quantity >= q && q > 0
    ensures var price := stocks[k.1].price;
      LedgerValid(users[k.0 := users[k.0].(cash := cash)], stocks, ApplySell(pos, k, q),
                  txs + [Transaction(k.0, k.1, Sell, q, price, price * q)])
  {
    var price := stocks[k.1].price;
    var t := Transaction(k.0, k.1, Sell, q, price, price * q);
    SellTracksLog(pos, txs, k, q, price);
    assert forall i :: 0 <= i < |txs| ==> (txs + [t])[i] == txs[i];
  }

  class Exchange {
    var users: map<UserId, User>
    var nextUserId: UserId
    var stocks: map<StockId, Stock>
    var positions: map<Key, Position>
    var transactions: seq<Transaction>
    var priceHistory: seq<PriceChange>
    var admins: set<string>
    var news: map<NewsId, News>
    var nextNewsId: NewsId
    var newsViews: seq<NewsView>

    /** The invariant every handler keeps: valid accounts, a valid ledger, news ids below the next one. */
    ghost predicate Valid()
      reads this
    {
      && AccountsValid(users, nextUserId)
      && LedgerValid(users, stocks, positions, transactions)
      && (forall n :: n in news ==> n < nextNewsId)
    }

    /** A database seeded with the listed stocks and the administrators, and no accounts yet. */
    constructor (listed: map<StockId, Stock>, adminNames: set<string>)
      requires forall s :: s in listed ==> listed[s].price > 0
      ensures Valid()
      ensures users == map[] && stocks == listed && positions == map[] && transactions == []
      ensures priceHistory == [] && admins == adminNames && news == map[] && newsViews == []
      ensures nextUserId == 1 && nextNewsId == 1
    {
      users, nextUserId := map[], 1;
      stocks, positions := listed, map[];
      transactions, priceHistory := [], [];
      admins := adminNames;
      news, nextNewsId, newsViews := map[], 1, [];
    }

    /** Registration: a taken username is rejected; otherwise a new account starts with 1,000,000 won. */
    method Register(username: string, name: string) returns (r: Result<UserId>)
      requires Valid()
      modifies this
      ensures Valid()
      ensures r.Err? <==> exists u :: u in old(users) && old(users)[u].username == username
      ensures r.Err? ==> r.error == DuplicateUsername && users == old(users) && nextUserId == old(nextUserId)
      ensures r.Ok? ==> r.value !in old(users) && users == old(users)[r.value := User(username, name, StartingCash)]
      ensures r.Ok? ==> r.value == old(nextUserId) && nextUserId == old(nextUserId) + 1
      ensures stocks == old(stocks) && positions == old(positions) && transactions == old(transactions)
      ensures priceHistory == old(priceHistory) && admins == old(admins)
      ensures news == old(news) && nextNewsId == old(nextNewsId) && newsViews == old(newsViews)
    {
      if exists u :: u in users && users[u].username == username {
        return Err(DuplicateUsername);
      }
      var id := nextUserId;
      users := users[id := User(username, name, StartingCash)];
      nextUserId := nextUserId + 1;
      r := Ok(id);
    }

    /**
     * Price update: only a name in the admins table may set a price.  It
     * sets that stock's current price (a missing stock is left as it is)
     * and appends one history entry, and returns the stock as re-read.
     */
    method UpdatePrice(stockId: StockId, price: int, adminUsername: string) returns (r: Result<Option<Stock>>)
      requires Valid()
      requires price > 0
      modifies this
      ensures Valid()
      ensures r.Err? <==> adminUsername !in admins
      ensures r.Err? ==> r.error == Forbidden && stocks == old(stocks) && priceHistory == old(priceHistory)
      ensures r.Ok? ==> stocks == if stockId in old(stocks)
                                  then old(stocks)[stockId := old(stocks)[stockId].(price := price)]
                                  else old(stocks)
      ensures r.Ok? ==> priceHistory == old(priceHistory) + [PriceChange(stockId, price, adminUsername)]
      ensures r.Ok? ==> r.value == if stockId in stocks then Some(stocks[stockId]) else None
      ensures users == old(users) && nextUserId == old(nextUserId) && positions == old(positions)
      ensures transactions == old(transactions) && admins == old(admins)
      ensures news == old(news) && nextNewsId == old(nextNewsId) && newsViews == old(newsViews)
    {
      if adminUsername !in admins {
        return Err(Forbidden);
      }
      if stockId in stocks {
        stocks := stocks[stockId := stocks[stockId].(price := price)];
      }
      priceHistory := priceHistory + [PriceChange(stockId, price, adminUsername)];
      r := Ok(if stockId in stocks then Some(stocks[stockId]) else None);
    }

    /**
     * Buy: an unknown user, then an unknown stock, then cash below
     * price × quantity is rejected with nothing changed.  Otherwise one BUY
     * record is appended, the buyer's cash drops by price × quantity and
     * the position is created or re-weighted; every user's total assets
     * stay the same.
     */
    method BuyStock(userId: UserId, stockId: StockId, quantity: int) returns (r: Outcome)
      requires Valid()
      requires quantity > 0
      modifies this
      ensures Valid()
      ensures old(userId !in users) ==> r == Failed(UserNotFound)
      ensures old(userId in users && stockId !in stocks) ==> r == Failed(StockNotFound)
      ensures old(userId in users && stockId in stocks && users[userId].cash < stocks[stockId].price * quantity)
              ==> r == Failed(InsufficientBalance)
      ensures r.Failed? ==> users == old(users) && positions == old(positions) && transactions == old(transactions)
      ensures r.Done? <==> old(userId in users && stockId in stocks
                               && users[userId].cash >= stocks[stockId].price * quantity)
      ensures r.Done? ==>
        var price := old(stocks[stockId].price);
        var amount := price * quantity;
        && users == old(users)[userId := old(users[userId]).(cash := old(users[userId].cash) - amount)]
        && transactions == old(transactions) + [Transaction(userId, stockId, Buy, quantity, price, amount)]
        && positions == ApplyBuy(old(positions), (userId, stockId), quantity, price)
      ensures r.Done? ==> forall v :: v in users ==>
        TotalAssets(users, positions, stocks, v) == old(TotalAssets(users, positions, stocks, v))
      ensures stocks == old(stocks) && nextUserId == old(nextUserId) && priceHistory == old(priceHistory)
      ensures admins == old(admins) && news == old(news) && nextNewsId == old(nextNewsId) && newsViews == old(newsViews)
    {
      if userId !in users {
        return Failed(UserNotFound);
      }
      if stockId !in stocks {
        return Failed(StockNotFound);
      }
      var price := stocks[stockId].price;
      var totalAmount := price * quantity;
      var user := users[userId];
      if user.cash < totalAmount {
        return Failed(InsufficientBalance);
      }
      ExecuteBuy(userId, stockId, quantity);
      r := Done;
    }

    /**
     * The statements a buy runs once its checks pass: the BUY record is
     * appended, the buyer's cash drops by price × quantity, and the position
     * is re-weighted or created.  Every user's total assets stay the same.
     */
    method ExecuteBuy(userId: UserId, stockId: StockId, quantity: int)
      requires Valid()
      requires quantity > 0 && userId in users && stockId in stocks
      requires users[userId].cash >= stocks[stockId].price * quantity
      modifies this
      ensures Valid()
      ensures var price := old(stocks[stockId].price);
        var amount := price * quantity;
        && users == old(users)[userId := old(users[userId]).(cash := old(users[userId].cash) - amount)]
        && transactions == old(transactions) + [Transaction(userId, stockId, Buy, quantity, price, amount)]
        && positions == ApplyBuy(old(positions), (userId, stockId), quantity, price)
      ensures forall v :: v in users ==>
        TotalAssets(users, positions, stocks, v) == old(TotalAssets(users, positions, stocks, v))
      ensures stocks == old(stocks) && nextUserId == old(nextUserId) && priceHistory == old(priceHistory)
      ensures admins == old(admins) && news == old(news) && nextNewsId == old(nextNewsId) && newsViews == old(newsViews)
    {
      var price := stocks[stockId].price;
      var totalAmount := price * quantity;
      var user := users[userId];
      ghost var users0, positions0, transactions0 := users, positions, transactions;
      var key := (userId, stockId);

      transactions := transactions + [Transaction(userId, stockId, Buy, quantity, price, totalAmount)];
      users := users[userId := user.(cash := user.cash - totalAmount)];
      StoreBought(key, quantity, price);
      CashChangeKeepsAccounts(users0, nextUserId, userId, user.cash - totalAmount);
      BuyKeepsLedger(users0, stocks, positions0, transactions0, key, quantity, user.cash - totalAmount);
      BuyKeepsAssets(users0, positions0, stocks, key, quantity);
    }

    /**
     * The buy's update of `user_stocks`: an existing row gets the summed
     * quantity and the re-weighted average, otherwise a row is inserted at
     * the trade price.
     */
    method StoreBought(key: Key, quantity: int, price: int)
      requires quantity > 0 && (key in positions ==> positions[key].quantity > 0)
      modifies this
      ensures positions == ApplyBuy(old(positions), key, quantity, price)
      ensures users == old(users) && nextUserId == old(nextUserId) && stocks == old(stocks)
      ensures transactions == old(transactions) && priceHistory == old(priceHistory) && admins == old(admins)
      ensures news == old(news) && nextNewsId == old(nextNewsId) && newsViews == old(newsViews)
    {
      if key in positions {
        var existing := positions[key];
        var totalQuantity := existing.quantity + quantity;
        var newAvgPrice := NewAverage(existing.avgPrice, existing.quantity, price, quantity);
        positions := positions[key := Position(totalQuantity, newAvgPrice)];
      } else {
        positions := positions[key := Position(quantity, price as real)];
      }
    }

    /**
     * Sell: a missing position or fewer shares than offered is rejected
     * before the stock is looked up, then an unknown stock; nothing changes
     * on failure.  Otherwise one SELL record is appended, the seller's cash
     * rises by price × quantity, and the quantity drops with the average
     * untouched, the row being deleted at zero; every user's total assets
     * stay the same.
     */
    method SellStock(userId: UserId, stockId: StockId, quantity: int) returns (r: Outcome)
      requires Valid()
      requires quantity > 0
      modifies this
      ensures Valid()
      ensures old((userId, stockId) !in positions || positions[(userId, stockId)].quantity < quantity)
              ==> r == Failed(InsufficientHoldings)
      ensures r.Failed? ==> users == old(users) && positions == old(positions) && transactions == old(transactions)
      ensures r.Done? <==> old((userId, stockId) in positions && positions[(userId, stockId)].quantity >= quantity)
      ensures r.Done? ==>
        var price := old(stocks[stockId].price);
        var amount := price * quantity;
        && users == old(users)[userId := old(users[userId]).(cash := old(users[userId].cash) + amount)]
        && transactions == old(transactions) + [Transaction(userId, stockId, Sell, quantity, price, amount)]
        && positions == ApplySell(old(positions), (userId, stockId), quantity)
      ensures r.Done? ==> forall v :: v in users ==>
        TotalAssets(users, positions, stocks, v) == old(TotalAssets(users, positions, stocks, v))
      ensures stocks == old(stocks) && nextUserId == old(nextUserId) && priceHistory == old(priceHistory)
      ensures admins == old(admins) && news == old(news) && nextNewsId == old(nextNewsId) && newsViews == old(newsViews)
    {
      var key := (userId, stockId);
      if key !in positions || positions[key].quantity < quantity {
        return Failed(InsufficientHoldings);
      }
      if stockId !in stocks {
        return Failed(StockNotFound);
      }
      ExecuteSell(userId, stockId, quantity);
      r := Done;
    }

    /**
     * The statements a sell runs once its checks pass: the SELL record is
     * appended, the seller's cash rises by price × quantity, and the
     * quantity drops with the average untouched, the row being deleted at
     * zero.  Every user's total assets stay the same.
     */
    method ExecuteSell(userId: UserId, stockId: StockId, quantity: int)
      requires Valid()
      requires quantity > 0 && (userId, stockId) in positions && positions[(userId, stockId)].quantity >= quantity
      requires stockId in stocks
      modifies this
      ensures Valid()
      ensures var price := old(stocks[stockId].price);
        var amount := price * quantity;
        && users == old(users)[userId := old(users[userId]).(cash := old(users[userId].cash) + amount)]
        && transactions == old(transactions) + [Transaction(userId, stockId, Sell, quantity, price, amount)]
        && positions == ApplySell(old(positions), (userId, stockId), quantity)
      ensures forall v :: v in users ==>
        TotalAssets(users, positions, stocks, v) == old(TotalAssets(users, positions, stocks, v))
      ensures stocks == old(stocks) && nextUserId == old(nextUserId) && priceHistory == old(priceHistory)
      ensures admins == old(admins) && news == old(news) && nextNewsId == old(nextNewsId) && newsViews == old(newsViews)
    {
      var key := (userId, stockId);
      var price := stocks[stockId].price;
      var totalAmount := price * quantity;
      ghost var users0, positions0, transactions0 := users, positions, transactions;

      transactions := transactions + [Transaction(userId, stockId, Sell, quantity, price, totalAmount)];
      if userId in users {
        users := users[userId := users[userId].(cash := users[userId].cash + totalAmount)];
      }
      StoreSold(key, quantity);
      CashChangeKeepsAccounts(users0, nextUserId, userId, users0[userId].cash + totalAmount);
      SellKeepsLedger(users0, stocks, positions0, transactions0, key, quantity, users0[userId].cash + totalAmount);
      SellKeepsAssets(users0, positions0, stocks, key, quantity);
    }

    /**
     * The sell's update of `user_stocks`: the row is deleted when no share
     * is left, otherwise its quantity is lowered.
     */
    method StoreSold(key: Key, quantity: int)
      requires key in positions && positions[key].quantity >= quantity
      modifies this
      ensures positions == ApplySell(old(positions), key, quantity)
      ensures users == old(users) && nextUserId == old(nextUserId) && stocks == old(stocks)
      ensures transactions == old(transactions) && priceHistory == old(priceHistory) && admins == old(admins)
      ensures news == old(news) && nextNewsId == old(nextNewsId) && newsViews == old(newsViews)
    {
      var userStock := positions[key];
      var newQuantity := userStock.quantity - quantity;
      if newQuantity == 0 {
        positions := positions - {key};
      } else {
        positions := positions[key := userStock.(quantity := newQuantity)];
      }
    }

    /** News creation: only an administrator may add news; the new item gets a fresh id. */
    method CreateNews(title: string, content: string, kind: string, price: Option<int>, adminUsername: string)
      returns (r: Result<NewsId>)
      requires Valid()
      modifies this
      ensures Valid()
      ensures r.Err? <==> adminUsername !in admins
      ensures r.Err? ==> r.error == Forbidden && news == old(news) && nextNewsId == old(nextNewsId)
      ensures r.Ok? ==> r.value == old(nextNewsId) && nextNewsId == old(nextNewsId) + 1
      ensures r.Ok? ==>
        && r.value !in old(news)
        && news == old(news)[r.value := News(title, content, kind, StoredPrice(price), adminUsername)]
      ensures users == old(users) && nextUserId == old(nextUserId) && stocks == old(stocks) && positions == old(positions)
      ensures transactions == old(transactions) && priceHistory == old(priceHistory)
      ensures admins == old(admins) && newsViews == old(newsViews)
    {
      if adminUsername !in admins {
        return Err(Forbidden);
      }
      var id := nextNewsId;
      news := news[id := News(title, content, kind, StoredPrice(price), adminUsername)];
      nextNewsId := nextNewsId + 1;
      r := Ok(id);
    }

    /** News deletion: only an administrator may delete; deleting a missing id succeeds and changes nothing. */
    method DeleteNews(newsId: NewsId, adminUsername: string) returns (r: Outcome)
      requires Valid()
      modifies this
      ensures Valid()
      ensures r.Failed? <==> adminUsername !in admins
      ensures r.Failed? ==> r.error == Forbidden && news == old(news)
      ensures r.Done? ==> news == old(news) - {newsId}
      ensures users == old(users) && nextUserId == old(nextUserId) && stocks == old(stocks) && positions == old(positions)
      ensures transactions == old(transactions) && priceHistory == old(priceHistory)
      ensures admins == old(admins) && nextNewsId == old(nextNewsId) && newsViews == old(newsViews)
    {
      if adminUsername !in admins {
        return Failed(Forbidden);
      }
      news := news - {newsId};
      r := Done;
    }

    /**
     * Paid-news purchase: unknown news, free news, news already bought,
     * an unknown user and cash below the price are rejected in that order
     * with nothing changed.  Otherwise the price is debited and the view is
     * recorded, after which the news reads as purchased.
     */
    method PurchaseNews(newsId: NewsId, userId: UserId) returns (r: Result<News>)
      requires Valid()
      modifies this
      ensures Valid()
      ensures old(newsId !in news) ==> r == Err(NewsNotFound)
      ensures old(newsId in news && news[newsId].kind == FreeType) ==> r == Err(FreeNews)
      ensures old(newsId in news && news[newsId].kind != FreeType && Bought(newsViews, userId, newsId))
              ==> r == Err(AlreadyPurchased)
      ensures old(newsId in news && news[newsId].kind != FreeType && !Bought(newsViews, userId, newsId) && userId !in users)
              ==> r == Err(UserNotFound)
      ensures old(newsId in news && news[newsId].kind != FreeType && !Bought(newsViews, userId, newsId)
                  && userId in users && users[userId].cash < news[newsId].price)
              ==> r == Err(InsufficientBalance)
      ensures r.Ok? <==> old(newsId in news && news[newsId].kind != FreeType && !Bought(newsViews, userId, newsId)
                             && userId in users && users[userId].cash >= news[newsId].price)
      ensures r.Err? ==> users == old(users) && newsViews == old(newsViews)
      ensures r.Ok? ==>
        && newsId in news && old(userId in users)
        && r.value == news[newsId]
        && users == old(users)[userId := old(users[userId]).(cash := old(users[userId].cash) - r.value.price)]
        && newsViews == old(newsViews) + [NewsView(userId, newsId)]
      ensures r.Ok? ==> newsId in news && ReadNews(news, newsViews, newsId, userId) == Ok(Article(news[newsId], true))
      ensures nextUserId == old(nextUserId) && stocks == old(stocks) && positions == old(positions)
      ensures transactions == old(transactions) && priceHistory == old(priceHistory)
      ensures admins == old(admins) && news == old(news) && nextNewsId == old(nextNewsId)
    {
      if newsId !in news {
        return Err(NewsNotFound);
      }
      var item := news[newsId];
      if item.kind == FreeType {
        return Err(FreeNews);
      }
      if NewsView(userId, newsId) in newsViews {
        return Err(AlreadyPurchased);
      }
      if userId !in users {
        return Err(UserNotFound);
      }
      var user := users[userId];
      if user.cash < item.price {
        return Err(InsufficientBalance);
      }
      users := users[userId := user.(cash := user.cash - item.price)];
      newsViews := newsViews + [NewsView(userId, newsId)];
      r := Ok(item);
    }
  }
}
