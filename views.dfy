/**
 * The read-only GET handlers as functions of the tables: a user's holdings
 * with profit, the leaderboard by total assets, a user's recent
 * transactions, a stock with its recent price history, and the gating of
 * paid news.
 */
module Views {
  import opened Schema
  import opened Logs
  import opened Ledger

  // ---- holdings with profit ------------------------------------------------

  /** A row of the holdings listing: the position joined with its stock. */
  datatype Holding = Holding(
    stockId: StockId, code: string, name: string,
    quantity: int, avgPrice: real, currentPrice: int,
    profit: real, profitRate: Option<real>)

  /**
   * The holding row of one open position joined with its stock.  The
   * profit is the market value minus the cost basis, positive exactly when
   * the current price is above the average buy price, and the profit rate
   * is the profit as a percentage of the cost basis.  SQL division by a
   * zero average gives NULL, here `None`.
   */
  function HoldingOf(sid: StockId, p: Position, s: Stock): (h: Holding)
    requires p.quantity > 0
    ensures h.stockId == sid && h.code == s.code && h.name == s.name
    ensures h.quantity == p.quantity && h.avgPrice == p.avgPrice && h.currentPrice == s.price
    ensures h.profit == (s.price * p.quantity) as real - p.avgPrice * p.quantity as real
    ensures h.profit > 0.0 <==> s.price as real > p.avgPrice
    ensures h.profit == 0.0 <==> s.price as real == p.avgPrice
    ensures h.profitRate.None? <==> p.avgPrice == 0.0
    ensures h.profitRate.Some? ==> h.profitRate.value * (p.avgPrice * p.quantity as real) == h.profit * 100.0
  {
    var gap := s.price as real - p.avgPrice;
    var profit := gap * p.quantity as real;
    var rate := if p.avgPrice == 0.0 then None else Some(gap / p.avgPrice * 100.0);
    RateOfCostBasis(gap, p.avgPrice, p.quantity as real);
    Holding(sid, s.code, s.name, p.quantity, p.avgPrice, s.price, profit, rate)
  }

  lemma RateOfCostBasis(gap: real, avg: real, q: real)
    requires q > 0.0
    ensures gap * q > 0.0 <==> gap > 0.0
    ensures gap * q == 0.0 <==> gap == 0.0
    ensures avg != 0.0 ==> (gap / avg * 100.0) * (avg * q) == (gap * q) * 100.0
  {
    if avg != 0.0 {
      calc {
        (gap / avg * 100.0) * (avg * q);
        (gap / avg * avg) * (100.0 * q);
        { assert gap / avg * avg == gap; }
        gap * (100.0 * q);
      }
    }
  }

  /** The stock ids of the rows of `user_stocks` owned by `u`. */
  function StocksOf(pos: map<Key, Position>, u: UserId): (r: set<StockId>)
    ensures forall s :: s in r <==> (u, s) in pos
  {
    set k | k in KeysOf(pos, u) :: k.1
  }

  /**
   * The holdings listing of `u`: one row per position with quantity > 0
   * whose stock exists (inner join), keyed by stock (the query has no order).
   */
  function Holdings(pos: map<Key, Position>, stocks: map<StockId, Stock>, u: UserId): (r: map<StockId, Holding>)
    ensures forall s :: s in r <==> (u, s) in pos && pos[(u, s)].quantity > 0 && s in stocks
    ensures forall s :: s in r ==> r[s] == HoldingOf(s, pos[(u, s)], stocks[s])
  {
    map s | s in StocksOf(pos, u) && pos[(u, s)].quantity > 0 && s in stocks :: HoldingOf(s, pos[(u, s)], stocks[s])
  }

  /**
   * When every position is open and refers to an existing stock, the
   * listing shows every position of `u` and each has a defined profit rate.
   */
  lemma HoldingsShowOpenPositions(pos: map<Key, Position>, stocks: map<StockId, Stock>, u: UserId)
    requires OpenPositions(pos)
    requires forall k :: k in pos ==> k.1 in stocks
    ensures Holdings(pos, stocks, u).Keys == StocksOf(pos, u)
    ensures forall s :: s in Holdings(pos, stocks, u) ==> Holdings(pos, stocks, u)[s].profitRate.Some?
  {
    var h := Holdings(pos, stocks, u);
    forall s | s in h ensures h[s].profitRate.Some? {
      assert h[s] == HoldingOf(s, pos[(u, s)], stocks[s]);
    }
  }

  /** Right after a first buy at the current price the holding shows no profit and a zero rate. */
  lemma FirstBuyShowsNoProfit(pos: map<Key, Position>, stocks: map<StockId, Stock>, k: Key, q: int)
    requires q > 0 && k !in pos && k.1 in stocks && stocks[k.1].price > 0
    ensures var h := Holdings(ApplyBuy(pos, k, q, stocks[k.1].price), stocks, k.0);
      && k.1 in h && h[k.1].quantity == q && h[k.1].profit == 0.0 && h[k.1].profitRate == Some(0.0)
  {
    var r := ApplyBuy(pos, k, q, stocks[k.1].price);
    assert r[k] == Position(q, stocks[k.1].price as real);
    var h := Holdings(r, stocks, k.0);
    assert h[k.1] == HoldingOf(k.1, r[k], stocks[k.1]);
  }

  // ---- leaderboard -----------------------------------------------------------

  /** A row of the leaderboard. */
  datatype Rank = Rank(userId: UserId, username: string, name: string, cash: int, stockValue: int, totalAssets: int)

  /** Cash plus the market value of all positions. */
  ghost function TotalAssets(users: map<UserId, User>, pos: map<Key, Position>, stocks: map<StockId, Stock>, u: UserId): int
    requires u in users
  {
    users[u].cash + StockValue(pos, stocks, u)
  }

  /**
   * A user without positions is worth exactly their cash; with no negative
   * quantity or price, total assets are never below the cash.
   */
  lemma TotalAssetsBounds(users: map<UserId, User>, pos: map<Key, Position>, stocks: map<StockId, Stock>, u: UserId)
    requires u in users
    ensures KeysOf(pos, u) == {} ==> TotalAssets(users, pos, stocks, u) == users[u].cash
    ensures NoNegatives(pos, stocks) ==> TotalAssets(users, pos, stocks, u) >= users[u].cash
  {
    StockValueBounds(pos, stocks, u);
  }

  ghost function RankOf(users: map<UserId, User>, pos: map<Key, Position>, stocks: map<StockId, Stock>, u: UserId): Rank
    requires u in users
  {
    Rank(u, users[u].username, users[u].name, users[u].cash, StockValue(pos, stocks, u), TotalAssets(users, pos, stocks, u))
  }

  predicate SortedByAssets(r: seq<Rank>)
  {
    forall i, j :: 0 <= i < j < |r| ==> r[i].totalAssets >= r[j].totalAssets
  }

  predicate DistinctUsers(r: seq<Rank>)
  {
    forall i, j :: 0 <= i < j < |r| ==> r[i].userId != r[j].userId
  }

  /** Insert `x` into a list sorted by descending total assets. */
  function Insert(x: Rank, s: seq<Rank>): (r: seq<Rank>)
    requires SortedByAssets(s) && DistinctUsers(s)
    requires forall y :: y in s ==> y.userId != x.userId
    ensures SortedByAssets(r) && DistinctUsers(r)
    ensures |r| == |s| + 1
    ensures forall y :: y in r <==> y in s || y == x
    decreases |s|
  {
    if s == [] || s[0].totalAssets <= x.totalAssets then [x] + s
    else
      var rest := Insert(x, s[1..]);
      HeadDominates(s, x, rest);
      [s[0]] + rest
  }

  /** Every element of `rest`, drawn from the tail of `s` or being `x`, sits below the head of `s`. */
  lemma HeadDominates(s: seq<Rank>, x: Rank, rest: seq<Rank>)
    requires |s| > 0 && SortedByAssets(s) && DistinctUsers(s)
    requires x.totalAssets < s[0].totalAssets && x.userId != s[0].userId
    requires forall y :: y in rest <==> y in s[1..] || y == x
    ensures forall j :: 0 <= j < |rest| ==> rest[j].totalAssets <= s[0].totalAssets && rest[j].userId != s[0].userId
  {
    forall j | 0 <= j < |rest| ensures rest[j].totalAssets <= s[0].totalAssets && rest[j].userId != s[0].userId {
      if rest[j] != x {
        assert rest[j] in s[1..];
        var m :| 0 <= m < |s[1..]| && s[1..][m] == rest[j];
        assert s[m + 1] == rest[j];
      }
    }
  }

  /** A set of user ids that is not empty has an element. */
  lemma Inhabited(keys: set<UserId>)
    ensures keys == {} || exists v :: v in keys
  {
    if forall v :: v !in keys {
      assert keys == {};
    }
  }

  ghost function RankAll(users: map<UserId, User>, pos: map<Key, Position>, stocks: map<StockId, Stock>, keys: set<UserId>): (r: seq<Rank>)
    requires keys <= users.Keys
    ensures SortedByAssets(r) && DistinctUsers(r)
    ensures |r| == |keys|
    ensures forall y :: y in r ==> y.userId in keys && y == RankOf(users, pos, stocks, y.userId)
    ensures forall u :: u in keys ==> RankOf(users, pos, stocks, u) in r
    decreases keys
  {
    if keys == {} then []
    else
      Inhabited(keys);
      var v :| v in keys;
      var rest := RankAll(users, pos, stocks, keys - {v});
      Insert(RankOf(users, pos, stocks, v), rest)
  }

  /**
   * The leaderboard: every user exactly once with cash, stock value and
   * total assets = cash + stock value, sorted by total assets, highest
   * first.  The query has no tie-break, so users with equal totals may come
   * in any order.
   */
  ghost function Leaderboard(users: map<UserId, User>, pos: map<Key, Position>, stocks: map<StockId, Stock>): (r: seq<Rank>)
    ensures SortedByAssets(r) && DistinctUsers(r)
    ensures |r| == |users|
    ensures forall i :: 0 <= i < |r| ==>
      && r[i].userId in users
      && r[i].cash == users[r[i].userId].cash
      && r[i].stockValue == StockValue(pos, stocks, r[i].userId)
      && r[i].totalAssets == r[i].cash + r[i].stockValue
    ensures forall u :: u in users ==> RankOf(users, pos, stocks, u) in r
  {
    var r := RankAll(users, pos, stocks, users.Keys);
    assert forall i :: 0 <= i < |r| ==> r[i] in r;
    r
  }

  /**
   * A buy at the stock's current price moves price × q from cash into stock
   * value: no user's total assets change.
   */
  lemma BuyKeepsAssets(users: map<UserId, User>, pos: map<Key, Position>, stocks: map<StockId, Stock>, k: Key, q: int)
    requires q > 0 && OpenPositions(pos) && k.0 in users && k.1 in stocks
    ensures var amount := stocks[k.1].price * q;
      var users' := users[k.0 := users[k.0].(cash := users[k.0].cash - amount)];
      var pos' := ApplyBuy(pos, k, q, stocks[k.1].price);
      forall v :: v in users ==> TotalAssets(users', pos', stocks, v) == TotalAssets(users, pos, stocks, v)
  {
    var amount := stocks[k.1].price * q;
    var users' := users[k.0 := users[k.0].(cash := users[k.0].cash - amount)];
    var pos' := ApplyBuy(pos, k, q, stocks[k.1].price);
    forall v | v in users ensures TotalAssets(users', pos', stocks, v) == TotalAssets(users, pos, stocks, v) {
      BuyValue(pos, stocks, k, q, v);
    }
  }

  /**
   * A sell at the stock's current price moves price × q from stock value
   * into cash: no user's total assets change.
   */
  lemma SellKeepsAssets(users: map<UserId, User>, pos: map<Key, Position>, stocks: map<StockId, Stock>, k: Key, q: int)
    requires k in pos && pos[k].quantity >= q && k.0 in users && k.1 in stocks
    ensures var amount := stocks[k.1].price * q;
      var users' := users[k.0 := users[k.0].(cash := users[k.0].cash + amount)];
      var pos' := ApplySell(pos, k, q);
      forall v :: v in users ==> TotalAssets(users', pos', stocks, v) == TotalAssets(users, pos, stocks, v)
  {
    var amount := stocks[k.1].price * q;
    var users' := users[k.0 := users[k.0].(cash := users[k.0].cash + amount)];
    var pos' := ApplySell(pos, k, q);
    forall v | v in users ensures TotalAssets(users', pos', stocks, v) == TotalAssets(users, pos, stocks, v) {
      SellValue(pos, stocks, k, q, v);
    }
  }

  // ---- transaction list --------------------------------------------------------

  /** The WHERE/JOIN condition of the transaction list of `u`. */
  function ListedFor(stocks: map<StockId, Stock>, u: UserId): Transaction -> bool
  {
    (t: Transaction) => t.userId == u && t.stockId in stocks
  }

  /**
   * The transactions of `u` whose stock exists, newest first, at most 50:
   * the i-th entry is the i-th such trade counted from the end of the log.
   */
  function TransactionList(txs: seq<Transaction>, stocks: map<StockId, Stock>, u: UserId): (r: seq<Transaction>)
    ensures |r| <= TransactionListLimit
    ensures forall i :: 0 <= i < |r| ==> r[i] in txs && r[i].userId == u && r[i].stockId in stocks
    ensures var mine := Filter(txs, ListedFor(stocks, u));
      && |r| == (if |mine| < TransactionListLimit then |mine| else TransactionListLimit)
      && |r| <= |mine|
      && forall i :: 0 <= i < |r| ==> r[i] == mine[|mine| - 1 - i]
  {
    NewestFirstOfFilter(txs, ListedFor(stocks, u), TransactionListLimit);
    NewestFirst(Filter(txs, ListedFor(stocks, u)), TransactionListLimit)
  }

  /**
   * A trade appended to the log heads its user's list, followed by the
   * previous list (the oldest entry drops out once 50 are shown).
   */
  lemma TransactionListAppend(txs: seq<Transaction>, stocks: map<StockId, Stock>, t: Transaction)
    requires t.stockId in stocks
    ensures var before, after := TransactionList(txs, stocks, t.userId), TransactionList(txs + [t], stocks, t.userId);
      && after[0] == t
      && |after| == (if |before| < TransactionListLimit then |before| + 1 else TransactionListLimit)
      && forall i :: 1 <= i < |after| ==> after[i] == before[i - 1]
  {
    var keep := ListedFor(stocks, t.userId);
    var mine := Filter(txs, keep);
    FilterAppend(txs, t, keep);
    assert Filter(txs + [t], keep) == mine + [t];
    NewestFirstAppend(mine, t, TransactionListLimit);
    var tail := NewestFirst(mine, TransactionListLimit - 1);
    assert TransactionList(txs + [t], stocks, t.userId) == [t] + tail;
    assert TransactionList(txs, stocks, t.userId) == NewestFirst(mine, TransactionListLimit);
  }

  /** A trade by one user leaves every other user's transaction list as it was. */
  lemma TransactionListOthers(txs: seq<Transaction>, stocks: map<StockId, Stock>, t: Transaction, u: UserId)
    requires u != t.userId
    ensures TransactionList(txs + [t], stocks, u) == TransactionList(txs, stocks, u)
  {
    FilterAppend(txs, t, ListedFor(stocks, u));
  }

  // ---- stock detail with price history --------------------------------------------

  datatype StockPage = StockPage(stock: Stock, history: seq<PriceChange>)

  function ChangesOf(s: StockId): PriceChange -> bool
  {
    (c: PriceChange) => c.stockId == s
  }

  /**
   * The price changes of stock `s`, newest first, at most 20: the i-th
   * entry is the i-th change of that stock counted from the end of the log.
   */
  function PriceHistory(history: seq<PriceChange>, s: StockId): (r: seq<PriceChange>)
    ensures |r| <= PriceHistoryLimit
    ensures forall i :: 0 <= i < |r| ==> r[i] in history && r[i].stockId == s
    ensures var mine := Filter(history, ChangesOf(s));
      && |r| == (if |mine| < PriceHistoryLimit then |mine| else PriceHistoryLimit)
      && |r| <= |mine|
      && forall i :: 0 <= i < |r| ==> r[i] == mine[|mine| - 1 - i]
  {
    NewestFirstOfFilter(history, ChangesOf(s), PriceHistoryLimit);
    NewestFirst(Filter(history, ChangesOf(s)), PriceHistoryLimit)
  }

  /** The stock with its recent price history; a missing stock is an error. */
  function StockDetail(stocks: map<StockId, Stock>, history: seq<PriceChange>, s: StockId): (r: Result<StockPage>)
    ensures s !in stocks <==> r == Err(StockNotFound)
    ensures r.Ok? ==> r.value.stock == stocks[s] && r.value.history == PriceHistory(history, s)
  {
    if s !in stocks then Err(StockNotFound)
    else Ok(StockPage(stocks[s], PriceHistory(history, s)))
  }

  /**
   * After a price change is recorded, the detail shows the new price and
   * the change first, followed by the previous history shifted by one (the
   * oldest entry drops out once 20 are shown).
   */
  lemma PriceChangeShown(stocks: map<StockId, Stock>, history: seq<PriceChange>, s: StockId, price: int, admin: string)
    requires s in stocks
    ensures var c := PriceChange(s, price, admin);
      var before := StockDetail(stocks, history, s);
      var after := StockDetail(stocks[s := stocks[s].(price := price)], history + [c], s);
      && before.Ok? && after.Ok?
      && after.value.stock == stocks[s].(price := price)
      && after.value.history[0] == c
      && |after.value.history| == (if |before.value.history| < PriceHistoryLimit then |before.value.history| + 1 else PriceHistoryLimit)
      && forall i :: 1 <= i < |after.value.history| ==> after.value.history[i] == before.value.history[i - 1]
  {
    var c := PriceChange(s, price, admin);
    var mine := Filter(history, ChangesOf(s));
    FilterAppend(history, c, ChangesOf(s));
    assert Filter(history + [c], ChangesOf(s)) == mine + [c];
    NewestFirstAppend(mine, c, PriceHistoryLimit);
  }

  // ---- news gating -----------------------------------------------------------

  datatype Article = Article(news: News, purchased: bool)

  predicate Bought(views: seq<NewsView>, u: UserId, n: NewsId)
  {
    NewsView(u, n) in views
  }

  /**
   * The news detail for `u`: free news, or paid news `u` bought, is shown in
   * full with purchased = true; other paid news has its content replaced by
   * a notice, with purchased = false.
   */
  function ReadNews(news: map<NewsId, News>, views: seq<NewsView>, n: NewsId, u: UserId): (r: Result<Article>)
    ensures n !in news <==> r == Err(NewsNotFound)
    ensures r.Ok? ==> r.value.purchased == (news[n].kind == FreeType || Bought(views, u, n))
    ensures r.Ok? && r.value.purchased ==> r.value.news == news[n]
    ensures r.Ok? && !r.value.purchased ==> r.value.news == news[n].(content := LockedContent)
  {
    if n !in news then Err(NewsNotFound)
    else if news[n].kind == FreeType then Ok(Article(news[n], true))
    else if Bought(views, u, n) then Ok(Article(news[n], true))
    else Ok(Article(news[n].(content := LockedContent), false))
  }
}
