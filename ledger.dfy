/**
 * The position ledger: the `user_stocks` table as a map from (user, stock)
 * to a position, the two updates a trade applies to it, and the market value
 * of a user's positions.
 */
module Ledger {
  import opened Schema

  type Key = (UserId, StockId)

  /** The quantity held under `k`; an absent row holds nothing. */
  function Held(pos: map<Key, Position>, k: Key): int
  {
    if k in pos then pos[k].quantity else 0
  }

  /** Shares bought minus shares sold for `k`, read off the transaction log. */
  function NetQuantity(txs: seq<Transaction>, k: Key): int
    decreases |txs|
  {
    if txs == [] then 0
    else
      var t := txs[|txs| - 1];
      var delta := if (t.userId, t.stockId) != k then 0
                   else if t.kind == Buy then t.quantity else -t.quantity;
      NetQuantity(txs[..|txs| - 1], k) + delta
  }

  /**
   * The re-weighted average buy price after buying `q` more shares at
   * `price` on top of `held` shares bought at `avg` on average.  It lies
   * between the old average and the price, and the cost basis
   * (average × quantity) grows by exactly price × q.
   */
  function NewAverage(avg: real, held: int, price: int, q: int): (r: real)
    requires held > 0 && q > 0
    ensures avg <= price as real ==> avg <= r <= price as real
    ensures price as real <= avg ==> price as real <= r <= avg
    ensures r * (held + q) as real == avg * held as real + (price * q) as real
  {
    var total := (held + q) as real;
    var value := avg * held as real + (price * q) as real;
    AverageBounds(avg, held, price, q);
    value / total
  }

  lemma AverageBounds(avg: real, held: int, price: int, q: int)
    requires held > 0 && q > 0
    ensures var total := (held + q) as real;
            var r := (avg * held as real + (price * q) as real) / total;
            && (avg <= price as real ==> avg <= r <= price as real)
            && (price as real <= avg ==> price as real <= r <= avg)
            && r * total == avg * held as real + (price * q) as real
  {
    var total := (held + q) as real;
    var value := avg * held as real + (price * q) as real;
    assert price as real * total == price as real * held as real + (price * q) as real;
    assert avg * total == avg * held as real + avg * q as real;
    if avg <= price as real {
      assert avg * held as real + avg * q as real <= value;
      DivideBounds(avg, price as real, value, total);
    } else {
      assert value <= avg * held as real + avg * q as real;
      DivideBounds(price as real, avg, value, total);
    }
  }

  lemma DivideBounds(lo: real, hi: real, value: real, total: real)
    requires total > 0.0
    requires lo * total <= value <= hi * total
    ensures lo <= value / total <= hi
  {
  }

  /** Every position is open (quantity > 0) at a positive average price. */
  predicate OpenPositions(pos: map<Key, Position>)
  {
    forall k :: k in pos ==> pos[k].quantity > 0 && pos[k].avgPrice > 0.0
  }

  /**
   * The buy's update of `user_stocks`.  It touches only the row `k`: a
   * fresh row starts at the trade price; an existing one gains `q` shares,
   * its cost basis grows by exactly price × q, and its average lies between
   * the old average and the price.  Open positions stay open.
   */
  function ApplyBuy(pos: map<Key, Position>, k: Key, q: int, price: int): (r: map<Key, Position>)
    requires q > 0
    requires k in pos ==> pos[k].quantity > 0
    ensures r.Keys == pos.Keys + {k}
    ensures forall j :: j in pos && j != k ==> r[j] == pos[j]
    ensures r[k].quantity == Held(pos, k) + q
    ensures k !in pos ==> r[k].avgPrice == price as real
    ensures k in pos ==> r[k].avgPrice * r[k].quantity as real
                         == pos[k].avgPrice * pos[k].quantity as real + (price * q) as real
    ensures k in pos && pos[k].avgPrice <= price as real ==> pos[k].avgPrice <= r[k].avgPrice <= price as real
    ensures k in pos && price as real <= pos[k].avgPrice ==> price as real <= r[k].avgPrice <= pos[k].avgPrice
    ensures OpenPositions(pos) && price > 0 ==> OpenPositions(r)
  {
    if k in pos then
      var existing := pos[k];
      pos[k := Position(existing.quantity + q, NewAverage(existing.avgPrice, existing.quantity, price, q))]
    else
      pos[k := Position(q, price as real)]
  }

  /**
   * The sell's update of `user_stocks`.  It touches only the row `k`: the
   * average is never changed, the row is deleted when it reaches zero and
   * otherwise keeps the remaining quantity.  Open positions stay open.
   */
  function ApplySell(pos: map<Key, Position>, k: Key, q: int): (r: map<Key, Position>)
    requires k in pos && pos[k].quantity >= q
    ensures forall j :: j != k ==> (j in r <==> j in pos)
    ensures forall j :: j in pos && j != k ==> r[j] == pos[j]
    ensures k in r <==> pos[k].quantity > q
    ensures k in r ==> r[k] == Position(pos[k].quantity - q, pos[k].avgPrice)
    ensures Held(r, k) == pos[k].quantity - q
    ensures OpenPositions(pos) ==> OpenPositions(r)
  {
    var left := pos[k].quantity - q;
    if left == 0 then pos - {k} else pos[k := pos[k].(quantity := left)]
  }

  /** Buying keeps every holding equal to bought − sold, counting the new BUY record. */
  lemma BuyTracksLog(pos: map<Key, Position>, txs: seq<Transaction>, k: Key, q: int, price: int)
    requires q > 0 && OpenPositions(pos)
    requires forall j :: Held(pos, j) == NetQuantity(txs, j)
    ensures forall j :: Held(ApplyBuy(pos, k, q, price), j)
                        == NetQuantity(txs + [Transaction(k.0, k.1, Buy, q, price, price * q)], j)
  {
    var t := Transaction(k.0, k.1, Buy, q, price, price * q);
    assert (txs + [t])[..|txs|] == txs;
    forall j ensures Held(ApplyBuy(pos, k, q, price), j) == NetQuantity(txs + [t], j) {
      assert NetQuantity(txs + [t], j) == NetQuantity(txs, j) + (if j == k then q else 0);
    }
  }

  /** Selling keeps every holding equal to bought − sold, counting the new SELL record. */
  lemma SellTracksLog(pos: map<Key, Position>, txs: seq<Transaction>, k: Key, q: int, price: int)
    requires k in pos && pos[k].quantity >= q
    requires forall j :: Held(pos, j) == NetQuantity(txs, j)
    ensures forall j :: Held(ApplySell(pos, k, q), j)
                        == NetQuantity(txs + [Transaction(k.0, k.1, Sell, q, price, price * q)], j)
  {
    var t := Transaction(k.0, k.1, Sell, q, price, price * q);
    assert (txs + [t])[..|txs|] == txs;
    forall j ensures Held(ApplySell(pos, k, q), j) == NetQuantity(txs + [t], j) {
      assert NetQuantity(txs + [t], j) == NetQuantity(txs, j) + (if j == k then -q else 0);
    }
  }

  // ---- market value of positions ------------------------------------------

  /** Quantity × current price of the row `k`; a row whose stock is gone adds nothing (LEFT JOIN, SUM skips NULL). */
  function Worth(pos: map<Key, Position>, stocks: map<StockId, Stock>, k: Key): int
    requires k in pos
  {
    if k.1 in stocks then pos[k].quantity * stocks[k.1].price else 0
  }

  /** The rows of `user_stocks` belonging to user `u`. */
  function KeysOf(pos: map<Key, Position>, u: UserId): (r: set<Key>)
    ensures forall k :: k in r <==> k in pos && k.0 == u
  {
    set k | k in pos.Keys && k.0 == u
  }

  /** The sum of `Worth` over `keys`. */
  ghost function ValueOf(pos: map<Key, Position>, stocks: map<StockId, Stock>, keys: set<Key>): int
    requires keys <= pos.Keys
    decreases keys
  {
    if keys == {} then 0
    else
      var k :| k in keys;
      Worth(pos, stocks, k) + ValueOf(pos, stocks, keys - {k})
  }

  /** `stock_value` of the leaderboard: the market value of all positions of `u`. */
  ghost function StockValue(pos: map<Key, Position>, stocks: map<StockId, Stock>, u: UserId): int
  {
    ValueOf(pos, stocks, KeysOf(pos, u))
  }

  /**
   * A user without rows has stock value 0 (the COALESCE); with no negative
   * quantity or price the stock value is never negative.
   */
  lemma StockValueBounds(pos: map<Key, Position>, stocks: map<StockId, Stock>, u: UserId)
    ensures KeysOf(pos, u) == {} ==> StockValue(pos, stocks, u) == 0
    ensures NoNegatives(pos, stocks) ==> StockValue(pos, stocks, u) >= 0
  {
    ValueNonNegative(pos, stocks, KeysOf(pos, u));
  }

  /** No row holds a negative quantity and no stock has a negative price. */
  predicate NoNegatives(pos: map<Key, Position>, stocks: map<StockId, Stock>)
  {
    && (forall k :: k in pos ==> pos[k].quantity >= 0)
    && (forall sid :: sid in stocks ==> stocks[sid].price >= 0)
  }

  /** A sum of rows with no negative quantity or price is not negative. */
  lemma {:induction false} ValueNonNegative(pos: map<Key, Position>, stocks: map<StockId, Stock>, keys: set<Key>)
    requires keys <= pos.Keys
    ensures NoNegatives(pos, stocks) ==> ValueOf(pos, stocks, keys) >= 0
    decreases keys
  {
    if keys != {} {
      var k :| k in keys && ValueOf(pos, stocks, keys) == Worth(pos, stocks, k) + ValueOf(pos, stocks, keys - {k});
      ValueNonNegative(pos, stocks, keys - {k});
      if NoNegatives(pos, stocks) {
        assert Worth(pos, stocks, k) >= 0 by {
          if k.1 in stocks {
            var sid := k.1;
            assert pos[k].quantity >= 0 && stocks[sid].price >= 0;
          }
        }
      }
    }
  }

  /** The sum does not depend on the order in which rows are added up. */
  lemma {:induction false} ValueRemove(pos: map<Key, Position>, stocks: map<StockId, Stock>, keys: set<Key>, x: Key)
    requires keys <= pos.Keys && x in keys
    ensures ValueOf(pos, stocks, keys) == Worth(pos, stocks, x) + ValueOf(pos, stocks, keys - {x})
    decreases keys
  {
    var k :| k in keys && ValueOf(pos, stocks, keys) == Worth(pos, stocks, k) + ValueOf(pos, stocks, keys - {k});
    if k != x {
      ValueRemove(pos, stocks, keys - {k}, x);
      ValueRemove(pos, stocks, keys - {x}, k);
      assert keys - {k} - {x} == keys - {x} - {k};
    }
  }

  /** Two ledgers whose rows in `keys` are worth the same have the same value over `keys`. */
  lemma {:induction false} ValueAgree(p1: map<Key, Position>, p2: map<Key, Position>, stocks: map<StockId, Stock>, keys: set<Key>)
    requires keys <= p1.Keys && keys <= p2.Keys
    requires forall k :: k in keys ==> Worth(p1, stocks, k) == Worth(p2, stocks, k)
    ensures ValueOf(p1, stocks, keys) == ValueOf(p2, stocks, keys)
    decreases keys
  {
    if keys != {} {
      var x :| x in keys;
      ValueRemove(p1, stocks, keys, x);
      ValueRemove(p2, stocks, keys, x);
      ValueAgree(p1, p2, stocks, keys - {x});
    }
  }

  /**
   * Buying `q` shares at the stock's current price raises the buyer's stock
   * value by exactly price × q and leaves every other user's unchanged.
   */
  lemma BuyValue(pos: map<Key, Position>, stocks: map<StockId, Stock>, k: Key, q: int, u: UserId)
    requires q > 0 && OpenPositions(pos) && k.1 in stocks
    ensures StockValue(ApplyBuy(pos, k, q, stocks[k.1].price), stocks, u)
            == StockValue(pos, stocks, u) + (if u == k.0 then stocks[k.1].price * q else 0)
  {
    if u != k.0 {
      OtherRowsAgree(pos, ApplyBuy(pos, k, q, stocks[k.1].price), stocks, k, u);
    } else {
      BuyerValue(pos, stocks, k, q);
    }
  }

  /** The buyer's own case of `BuyValue`: the row `k` is re-weighted or added. */
  lemma BuyerValue(pos: map<Key, Position>, stocks: map<StockId, Stock>, k: Key, q: int)
    requires q > 0 && OpenPositions(pos) && k.1 in stocks
    ensures StockValue(ApplyBuy(pos, k, q, stocks[k.1].price), stocks, k.0)
            == StockValue(pos, stocks, k.0) + stocks[k.1].price * q
  {
    if k in pos {
      TopUpValue(pos, stocks, k, q);
    } else {
      AddedRow(pos, ApplyBuy(pos, k, q, stocks[k.1].price), stocks, k);
    }
  }

  /** Buying more of a held stock raises the row's worth, and so the value, by price × q. */
  lemma TopUpValue(pos: map<Key, Position>, stocks: map<StockId, Stock>, k: Key, q: int)
    requires q > 0 && k in pos && pos[k].quantity > 0 && k.1 in stocks
    ensures StockValue(ApplyBuy(pos, k, q, stocks[k.1].price), stocks, k.0)
            == StockValue(pos, stocks, k.0) + stocks[k.1].price * q
  {
    var price := stocks[k.1].price;
    var r := ApplyBuy(pos, k, q, price);
    assert r.Keys == pos.Keys;
    ChangedRow(pos, r, stocks, k);
    assert r[k].quantity * price == pos[k].quantity * price + price * q by {
      assert r[k].quantity == pos[k].quantity + q;
    }
  }

  /** The value of a user other than `k.0` only depends on rows other than `k`. */
  lemma OtherRowsAgree(p1: map<Key, Position>, p2: map<Key, Position>, stocks: map<StockId, Stock>, k: Key, u: UserId)
    requires u != k.0
    requires forall j :: j != k ==> (j in p1 <==> j in p2)
    requires forall j :: j in p1 && j in p2 && j != k ==> p1[j] == p2[j]
    ensures StockValue(p1, stocks, u) == StockValue(p2, stocks, u)
  {
    assert KeysOf(p1, u) == KeysOf(p2, u);
    ValueAgree(p1, p2, stocks, KeysOf(p1, u));
  }

  /** Changing only the row `k` (present before and after) changes the value by its change in worth. */
  lemma ChangedRow(p1: map<Key, Position>, p2: map<Key, Position>, stocks: map<StockId, Stock>, k: Key)
    requires k in p1 && k in p2 && p1.Keys == p2.Keys
    requires forall j :: j in p1 && j != k ==> p1[j] == p2[j]
    ensures StockValue(p2, stocks, k.0) == StockValue(p1, stocks, k.0) - Worth(p1, stocks, k) + Worth(p2, stocks, k)
  {
    var keys := KeysOf(p1, k.0);
    assert KeysOf(p2, k.0) == keys;
    ValueRemove(p1, stocks, keys, k);
    ValueRemove(p2, stocks, keys, k);
    ValueAgree(p1, p2, stocks, keys - {k});
  }

  /** Adding the row `k` adds its worth to the value. */
  lemma AddedRow(p1: map<Key, Position>, p2: map<Key, Position>, stocks: map<StockId, Stock>, k: Key)
    requires k !in p1 && p2.Keys == p1.Keys + {k}
    requires forall j :: j in p1 ==> p1[j] == p2[j]
    ensures StockValue(p2, stocks, k.0) == StockValue(p1, stocks, k.0) + Worth(p2, stocks, k)
  {
    var keys := KeysOf(p2, k.0);
    assert keys - {k} == KeysOf(p1, k.0);
    ValueRemove(p2, stocks, keys, k);
    ValueAgree(p1, p2, stocks, keys - {k});
  }

  /**
   * Selling `q` shares lowers the seller's stock value by exactly current
   * price × q and leaves every other user's unchanged.
   */
  lemma SellValue(pos: map<Key, Position>, stocks: map<StockId, Stock>, k: Key, q: int, u: UserId)
    requires k in pos && pos[k].quantity >= q && k.1 in stocks
    ensures StockValue(ApplySell(pos, k, q), stocks, u)
            == StockValue(pos, stocks, u) - (if u == k.0 then stocks[k.1].price * q else 0)
  {
    if u != k.0 {
      OtherRowsAgree(pos, ApplySell(pos, k, q), stocks, k, u);
    } else {
      SellerValue(pos, stocks, k, q);
    }
  }

  /** The seller's own case of `SellValue`: the row `k` is lowered or deleted. */
  lemma SellerValue(pos: map<Key, Position>, stocks: map<StockId, Stock>, k: Key, q: int)
    requires k in pos && pos[k].quantity >= q && k.1 in stocks
    ensures StockValue(ApplySell(pos, k, q), stocks, k.0) == StockValue(pos, stocks, k.0) - stocks[k.1].price * q
  {
    var price := stocks[k.1].price;
    var r := ApplySell(pos, k, q);
    if pos[k].quantity == q {
      AddedRow(r, pos, stocks, k);
      assert Worth(pos, stocks, k) == price * q;
    } else {
      ChangedRow(pos, r, stocks, k);
      assert pos[k].quantity * price == (pos[k].quantity - q) * price + price * q;
    }
  }
}
