/**
 * A client of the exchange that replays a trading session and checks, from
 * the handlers' contracts alone, the balances and positions it must reach.
 */
module Scenarios {
  import opened Schema
  import opened Ledger
  import opened Views
  import opened Market

  /**
   * One participant with the starting cash trades one stock: buy 10 at
   * 10,000; the administrator raises the price to 12,000; buy 5 more; sell
   * all 15; then an oversized buy and a sell of a stock never held fail
   * without effect.
   */
  method TradingSession()
  {
    var ex, id := FirstBuy();
    RaisePrice(ex, id);
    SecondBuyAtNewPrice(ex, id);
    SellEverything(ex, id);
  }

  method FirstBuy() returns (ex: Exchange, id: UserId)
    ensures fresh(ex) && ex.Valid() && ex.admins == {"admin"} && 1 in ex.stocks && ex.users.Keys == {id}
    ensures ex.users[id].cash == 900000 && ex.stocks[1].price == 10000
    ensures ex.positions == map[(id, 1) := Position(10, 10000.0)] && |ex.transactions| == 1
  {
    ex := new Exchange(map[1 := Stock("S1", "Stock one", 10000)], {"admin"});
    var reg := ex.Register("student", "Student");
    assert reg.Ok?;
    id := reg.value;
    assert ex.users[id].cash == 1000000;
    var buy := ex.BuyStock(id, 1, 10);
    assert buy == Done;
  }

  method RaisePrice(ex: Exchange, id: UserId)
    requires ex.Valid() && ex.admins == {"admin"} && 1 in ex.stocks && ex.users.Keys == {id}
    requires ex.users[id].cash == 900000 && ex.stocks[1].price == 10000
    requires ex.positions == map[(id, 1) := Position(10, 10000.0)] && |ex.transactions| == 1
    modifies ex
    ensures ex.Valid() && ex.admins == {"admin"} && 1 in ex.stocks && ex.users.Keys == {id}
    ensures ex.users[id].cash == 900000 && ex.stocks[1].price == 12000
    ensures ex.positions == map[(id, 1) := Position(10, 10000.0)] && |ex.transactions| == 1
  {
    var denied := ex.UpdatePrice(1, 12000, "student");
    assert denied == Err(Forbidden) && ex.stocks[1].price == 10000;
    var update := ex.UpdatePrice(1, 12000, "admin");
    assert update.Ok? && ex.stocks[1].price == 12000;
  }

  method SecondBuyAtNewPrice(ex: Exchange, id: UserId)
    requires ex.Valid() && ex.admins == {"admin"} && 1 in ex.stocks && ex.users.Keys == {id}
    requires ex.users[id].cash == 900000 && ex.stocks[1].price == 12000
    requires ex.positions == map[(id, 1) := Position(10, 10000.0)] && |ex.transactions| == 1
    modifies ex
    ensures ex.Valid() && 1 in ex.stocks && id in ex.users
    ensures ex.users[id].cash == 840000 && ex.stocks[1].price == 12000
    ensures ex.positions == map[(id, 1) := Position(15, 160000.0 / 15.0)] && |ex.transactions| == 2
  {
    var buy := ex.BuyStock(id, 1, 5);
    assert buy == Done;
    assert ex.positions[(id, 1)].avgPrice == NewAverage(10000.0, 10, 12000, 5);
  }

  method SellEverything(ex: Exchange, id: UserId)
    requires ex.Valid() && 1 in ex.stocks && id in ex.users
    requires ex.users[id].cash == 840000 && ex.stocks[1].price == 12000
    requires ex.positions == map[(id, 1) := Position(15, 160000.0 / 15.0)] && |ex.transactions| == 2
    modifies ex
  {
    var sell := ex.SellStock(id, 1, 15);
    assert sell == Done;
    assert (id, 1) !in ex.positions;
    assert ex.users[id].cash == 1020000;
    sell := ex.SellStock(id, 2, 1);
    assert sell == Failed(InsufficientHoldings);
    var buy := ex.BuyStock(id, 1, 1000);
    assert buy == Failed(InsufficientBalance);
    assert ex.users[id].cash == 1020000 && |ex.transactions| == 3;
  }

  /** Paid news: a user buys it once, then reads it in full; a second purchase is refused. */
  method NewsSession()
  {
    var ex := new Exchange(map[], {"admin"});
    var reg := ex.Register("reader", "Reader");
    assert reg.Ok?;
    var id := reg.value;
    var created := ex.CreateNews("Title", "Body", "PREMIUM", Some(5000), "admin");
    assert created.Ok?;
    var n := created.value;
    var before := ReadNews(ex.news, ex.newsViews, n, id);
    assert before.Ok? && !before.value.purchased && before.value.news.content == LockedContent;

    var bought := ex.PurchaseNews(n, id);
    assert bought.Ok? && ex.users[id].cash == 995000;
    var after := ReadNews(ex.news, ex.newsViews, n, id);
    assert after == Ok(Article(News("Title", "Body", "PREMIUM", 5000, "admin"), true));

    var again := ex.PurchaseNews(n, id);
    assert again == Err(AlreadyPurchased) && ex.users[id].cash == 995000;
  }
}
