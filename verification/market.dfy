/** The trade step (controller/MarketController.kt): at every station the open offers of each
    pair of commodities are matched against each other, the matches are settled into the
    businesses' buy stocks, and afterwards the open offers that have timed out are refunded
    to their sellers and removed.

    A price is "units of the buy commodity per unit sold". For an offer that sells B for S
    at price p, one unit of S costs 1/p units of B, which is the price that offer pays when
    seen as a buyer of S.
 */
module Market {
  import opened Results
  import opened Sequences
  import opened RegistryObjects
  import opened Matcher
  import opened LinkedMap
  import opened DataStore
  import opened Registry

  function Min(a: int, b: int): int {
    if a <= b then a else b
  }

  /** `Math.ceil(x)`, a whole number, converted with `toLong()`. */
  function Ceil(x: real): (r: int)
    ensures x <= r as real < x + 1.0
  {
    -((-x).Floor)
  }

  /** `x.toLong()`: drops the fraction, rounding towards zero. */
  function Truncate(x: real): (r: int)
    ensures x >= 0.0 ==> r as real <= x < r as real + 1.0
    ensures x < 0.0 ==> x <= r as real < x + 1.0
  {
    if x >= 0.0 then x.Floor else -((-x).Floor)
  }

  /** The quantities of one attempted match (MarketController.kt lines 47-51): the seller can
      sell `canSell`, the buyer pays with at most `canPay` units at its posted `buyPrice`. */
  datatype Fill = Fill(
    want: int,    // what the buyer's units are worth at its price, rounded up
    amount: int,  // what changes hands: no more than the seller has or the buyer wants
    pay: int)     // what the buyer pays for it: no more than it has, rounded down

  function FillOf(canSell: int, canPay: int, buyPrice: real): Fill
    requires buyPrice != 0.0
  {
    var want := Ceil(Product(canPay as real, buyPrice));
    var amount := Min(canSell, want);
    Fill(want, amount, Min(canPay, Truncate(Product(1.0 / buyPrice, amount as real))))
  }

  /** A product, kept apart so that the solver treats it as one term. */
  function Product(x: real, y: real): real {
    x * y
  }

  /** The product of positive reals is positive. */
  lemma ProductPositive(x: real, y: real)
    requires x > 0.0 && y > 0.0
    ensures Product(x, y) > 0.0
  {
  }

  /** Multiplying by a positive factor keeps an order. */
  lemma ProductMonotone(a: real, x: real, y: real)
    requires a > 0.0 && x >= y
    ensures Product(a, x) >= Product(a, y)
  {
    assert Product(a, x) - Product(a, y) == a * (x - y);
  }

  /** A positive price undoes its reciprocal. */
  lemma ProductReciprocal(p: real, q: real)
    requires p > 0.0
    ensures Product(1.0 / p, Product(q, p)) == q
  {
  }

  /** For positive quantities every match stays within what both sides have, and always
      uses up one of them: all the seller has, or all the buyer pays with. */
  lemma {:induction false} FillBounds(canSell: int, canPay: int, buyPrice: real)
    requires canSell > 0 && canPay > 0 && buyPrice > 0.0
    ensures var f := FillOf(canSell, canPay, buyPrice);
      && 0 < f.amount <= canSell && f.amount <= f.want
      && 0 <= f.pay <= canPay
      && (f.amount == canSell || f.pay == canPay)
  {
    var worth := Product(canPay as real, buyPrice);
    ProductPositive(canPay as real, buyPrice);
    var want := Ceil(worth);
    var amount := Min(canSell, want);
    assert amount > 0;
    var paid := Product(1.0 / buyPrice, amount as real);
    ProductPositive(1.0 / buyPrice, amount as real);
    assert Truncate(paid) >= 0;
    if amount != canSell {
      assert amount == want && amount as real >= worth;
      ProductMonotone(1.0 / buyPrice, amount as real, worth);
      ProductReciprocal(buyPrice, canPay as real);
      assert paid >= canPay as real;
      assert Truncate(paid) >= canPay;
    }
  }

  /** `price in sellerPrice..buyerPrice`: the price of the match, `pay / amount`, lies between
      the seller's price and what the buyer's price allows (its reciprocal), both inclusive. */
  predicate Accepts(sellPrice: real, buyPrice: real, f: Fill)
    requires f.amount != 0 && buyPrice != 0.0
  {
    var price := f.pay as real / f.amount as real;
    sellPrice <= price && price <= 1.0 / buyPrice
  }

  /** The upper end of the band always holds: the buyer never pays more per unit than its
      price allows, so a match is refused only for being below the seller's price. */
  lemma {:induction false} AcceptsIffSellerPrice(sellPrice: real, canSell: int, canPay: int, buyPrice: real)
    requires canSell > 0 && canPay > 0 && buyPrice > 0.0
    ensures var f := FillOf(canSell, canPay, buyPrice);
      f.amount > 0 && (Accepts(sellPrice, buyPrice, f) <==> sellPrice <= f.pay as real / f.amount as real)
  {
    FillBounds(canSell, canPay, buyPrice);
    var f := FillOf(canSell, canPay, buyPrice);
    var paid := Product(1.0 / buyPrice, f.amount as real);
    ProductPositive(1.0 / buyPrice, f.amount as real);
    assert f.pay as real <= paid;
    BelowPerUnit(f.pay as real, f.amount as real, 1.0 / buyPrice);
  }

  /** Paying at most `rate * amount` is paying at most `rate` per unit. */
  lemma BelowPerUnit(pay: real, amount: real, rate: real)
    requires amount > 0.0 && pay <= Product(rate, amount)
    ensures pay / amount <= rate
  {
    assert pay / amount <= Product(rate, amount) / amount;
  }

  /** The business `id` exists and so does the stock it buys into. */
  ghost predicate HasBuyStock(s: Store, id: string) {
    Get(s.businessMap, id).Some? && Get(s.stockMap, Get(s.businessMap, id).value.buyStockId).Some?
  }

  /** The stock the business `id` buys into. */
  ghost function BuyStockOf(s: Store, id: string): Stock
    requires HasBuyStock(s, id)
  {
    Get(s.stockMap, Get(s.businessMap, id).value.buyStockId).value
  }

  /** `closeTrade(trade)` (lines 93-104): settles a closed trade by crediting the buyer's buy
      stock with what was sold and the seller's buy stock with what was paid. Both stocks are
      read before either is written, so when they are one stock the seller's credit is the one
      that remains. An open offer cannot be settled; nor can a trade whose businesses or buy
      stocks are missing. Nothing but those (at most two) stocks changes. */
  function CloseTrade(s: Store, t: Trade): (r: Result<Store>)
    ensures t.IsActive() ==> r == Fail(IllegalState("Tried to close trade with no buyer"))
    ensures WellFormed(s) && t.IsClosed() ==>
      (r.Ok? <==> HasBuyStock(s, t.sellingBusinessId) && HasBuyStock(s, t.buyingBusinessId.value))
    ensures WellFormed(s) && r.Ok? ==> Settled(s, r.value, t)
    ensures WellFormed(s) && r.Ok? ==> WellFormed(r.value) && OnlyStocksAndTradesUpdated(s, r.value)
    ensures WellFormed(s) && r.Ok? && NonNegativeStocks(s) && t.sellAmount >= 0 && t.buyAmount >= 0 ==>
      NonNegativeStocks(r.value)
    ensures r.Ok? && PositiveOffers(s) ==> PositiveOffers(r.value)
  {
    if t.IsActive() then Fail(IllegalState("Tried to close trade with no buyer"))
    else
      var seller :- SellingBusiness(s, t);
      var sellerToStock :- BuyStock(s, seller);
      var buyer :- BuyingBusiness(s, t);
      match buyer
      case None => Fail(IllegalState("Tried to close trade with no buyer stocks"))
      case Some(b) =>
        var buyerToStock :- BuyStock(s, b);
        Ok(CreditBoth(s, buyerToStock, t.sellAmount, sellerToStock, t.buyAmount))
  }

  /** Stores `x` grown by `amount`, as `x.copy(amount = x.amount + amount).update()`. */
  function Credit(s: Store, x: Stock, amount: int): Store {
    Add(s, StockObj(Grown(x, amount)))
  }

  /** `r` is `s` after settling the closed trade `t`: the seller's buy stock holds what it held
      plus the payment, the buyer's buy stock (when it is another stock) what it held plus the
      goods, and every other record is as it was. */
  ghost predicate Settled(s: Store, r: Store, t: Trade) {
    && t.IsClosed()
    && HasBuyStock(s, t.sellingBusinessId) && HasBuyStock(s, t.buyingBusinessId.value)
    && Credited(s, r, BuyStockOf(s, t.buyingBusinessId.value), t.sellAmount, BuyStockOf(s, t.sellingBusinessId), t.buyAmount)
  }

  /** `r` is `s` with `x` grown by `a` and then `y` grown by `b`, both as read from `s`. */
  ghost predicate Credited(s: Store, r: Store, x: Stock, a: int, y: Stock, b: int) {
    && r == s.(stockMap := r.stockMap)
    && Get(r.stockMap, y.id) == Some(Grown(y, b))
    && (x.id != y.id ==> Get(r.stockMap, x.id) == Some(Grown(x, a)))
    && forall k :: k != x.id && k != y.id ==> Get(r.stockMap, k) == Get(s.stockMap, k)
  }

  /** The two credits of a settlement, both computed from the stocks as first read. Stored
      stocks stay stored, and with non-negative credits non-negative stocks stay so. */
  function CreditBoth(s: Store, x: Stock, a: int, y: Stock, b: int): (r: Store)
    ensures Credited(s, r, x, a, y, b)
    ensures WellFormed(s) ==> WellFormed(r)
    ensures Get(s.stockMap, x.id).Some? && Get(s.stockMap, y.id).Some? ==> OnlyStocksAndTradesUpdated(s, r)
    ensures Get(s.stockMap, x.id) == Some(x) && Get(s.stockMap, y.id) == Some(y) ==>
      NonNegativeStocks(s) && a >= 0 && b >= 0 ==> NonNegativeStocks(r)
  {
    CreditTwice(s, x, a, y, b);
    CreditKeepsNonNegative(s, x, a, y, b);
    Credit(Credit(s, x, a), y, b)
  }

  /** What two credits write. */
  lemma CreditTwice(s: Store, x: Stock, a: int, y: Stock, b: int)
    ensures Credited(s, Credit(Credit(s, x, a), y, b), x, a, y, b)
    ensures WellFormed(s) ==> WellFormed(Credit(Credit(s, x, a), y, b))
    ensures Get(s.stockMap, x.id).Some? && Get(s.stockMap, y.id).Some? ==>
      OnlyStocksAndTradesUpdated(s, Credit(Credit(s, x, a), y, b))
  {
    var s1 := Credit(s, x, a);
    var r := Credit(s1, y, b);
    assert s1.stockMap == Put(s.stockMap, x.id, Grown(x, a));
    assert r.stockMap == Put(s1.stockMap, y.id, Grown(y, b));
    if Get(s.stockMap, x.id).Some? && Get(s.stockMap, y.id).Some? {
      forall k ensures Get(r.stockMap, k).Some? <==> Get(s.stockMap, k).Some? {
        if k != x.id && k != y.id {
          assert Get(r.stockMap, k) == Get(s1.stockMap, k) == Get(s.stockMap, k);
        }
      }
    }
  }

  lemma CreditKeepsNonNegative(s: Store, x: Stock, a: int, y: Stock, b: int)
    ensures Get(s.stockMap, x.id) == Some(x) && Get(s.stockMap, y.id) == Some(y) && NonNegativeStocks(s) && a >= 0 && b >= 0 ==> NonNegativeStocks(Credit(Credit(s, x, a), y, b))
  {
    if Get(s.stockMap, x.id) == Some(x) && Get(s.stockMap, y.id) == Some(y) && NonNegativeStocks(s) && a >= 0 && b >= 0 {
      GetInValues(s.stockMap, x.id);
      GetInValues(s.stockMap, y.id);
      AddStockIsPut(s, Grown(x, a));
      PutStockKeepsNonNegative(s, Grown(x, a));
      AddStockIsPut(Credit(s, x, a), Grown(y, b));
      PutStockKeepsNonNegative(Credit(s, x, a), Grown(y, b));
    }
  }

  /** The closed trade recording a match (lines 55-63): the seller's business sells `f.amount`
      units to the buyer's business for `f.pay` units, at the station of the seller's offer,
      stamped `now` and priced at the default, the payment per unit. */
  function Deal(sell: Trade, buy: Trade, sellCommodityId: string, buyCommodityId: string, f: Fill, id: string, now: int): (t: Trade)
    requires f.amount != 0
    ensures t.IsClosed() && t.id == id
    ensures t.sellingBusinessId == sell.sellingBusinessId && t.buyingBusinessId == Some(buy.sellingBusinessId)
    ensures t.sellAmount == f.amount && t.buyAmount == f.pay && t.price == f.pay as real / f.amount as real
  {
    Trade(
      id := id,
      sellingBusinessId := sell.sellingBusinessId,
      buyingBusinessId := Some(buy.sellingBusinessId),
      stationId := sell.stationId,
      sellCommodityId := sellCommodityId,
      buyCommodityId := buyCommodityId,
      sellAmount := f.amount,
      buyAmount := f.pay,
      price := DefaultPrice(f.pay, f.amount),
      timestamp := now)
  }

  /** What is left of an offer after `amount` of it has been used: nothing when it is used up,
      else the offer for the rest (lines 68-84). */
  function Rest(t: Trade, amount: int): Option<Trade> {
    if t.sellAmount == amount then None else Some(t.(sellAmount := t.sellAmount - amount))
  }

  /** `registry.delete(t)` when nothing is left of the offer, else `t.update()` with the rest. */
  function StoreRest(s: Store, t: Trade, rest: Option<Trade>): Store {
    match rest
    case None => DeleteObject(s, TradeObj(t)).0
    case Some(u) => Add(s, TradeObj(u))
  }

  /** A fill stays within both offers: the seller sells some of what it offers, the buyer
      pays with at most what it offers. */
  predicate Within(f: Fill, sell: Trade, buy: Trade) {
    0 < f.amount <= sell.sellAmount && 0 <= f.pay <= buy.sellAmount
  }

  /** Lines 55-84 once a match is accepted: the closed trade is stored and settled, then the
      buyer's offer and the seller's offer are reduced by what each gave, or deleted when used
      up. The trade table sees exactly those three writes, in that order; the stocks see the
      settlement. It fails iff one of the two businesses or its buy stock is missing. */
  function Settle(s: Store, sell: Trade, buy: Trade, f: Fill, deal: Trade): (r: Result<Store>)
    requires deal.IsClosed() && deal.sellingBusinessId == sell.sellingBusinessId && deal.buyingBusinessId == Some(buy.sellingBusinessId)
    ensures WellFormed(s) ==> (r.Ok? <==> HasBuyStock(s, sell.sellingBusinessId) && HasBuyStock(s, buy.sellingBusinessId))
    ensures WellFormed(s) && r.Ok? ==> WellFormed(r.value) && OnlyStocksAndTradesUpdated(s, r.value)
    ensures WellFormed(s) && r.Ok? ==> Settled(s, r.value.(tradeMap := s.tradeMap), deal)
    ensures WellFormed(s) && r.Ok? ==>
      Rewritten(s.tradeMap, r.value.tradeMap, [(deal.id, Some(deal)), (buy.id, Rest(buy, f.pay)), (sell.id, Rest(sell, f.amount))])
    ensures r.Ok? && PositiveOffers(s) && Positive(sell) && Positive(buy) && Within(f, sell, buy) ==> PositiveOffers(r.value)
    ensures r.Ok? && WellFormed(s) && NonNegativeStocks(s) && deal.sellAmount >= 0 && deal.buyAmount >= 0 ==>
      NonNegativeStocks(r.value)
    ensures r.Ok? && WellFormed(s) && Supplied(s) ==> Supplied(r.value)
  {
    var s1 := Add(s, TradeObj(deal));
    AddTradeKeepsBuyStock(s, deal, sell.sellingBusinessId);
    AddTradeKeepsBuyStock(s, deal, buy.sellingBusinessId);
    var s2 :- CloseTrade(s1, deal);
    SettleFacts(s, s1, s2, sell, buy, f, deal);
    SettleKeepsSupplied(s, s1, s2, sell, buy, f, deal);
    Ok(StoreRest(StoreRest(s2, buy, Rest(buy, f.pay)), sell, Rest(sell, f.amount)))
  }

  lemma SettleFacts(s: Store, s1: Store, s2: Store, sell: Trade, buy: Trade, f: Fill, deal: Trade)
    requires s1 == Add(s, TradeObj(deal)) && CloseTrade(s1, deal) == Ok(s2)
    requires deal.sellingBusinessId == sell.sellingBusinessId && deal.buyingBusinessId == Some(buy.sellingBusinessId)
    ensures WellFormed(s) ==> var r := StoreRest(StoreRest(s2, buy, Rest(buy, f.pay)), sell, Rest(sell, f.amount));
      && WellFormed(r) && OnlyStocksAndTradesUpdated(s, r)
      && Settled(s, r.(tradeMap := s.tradeMap), deal)
      && Rewritten(s.tradeMap, r.tradeMap, [(deal.id, Some(deal)), (buy.id, Rest(buy, f.pay)), (sell.id, Rest(sell, f.amount))])
    ensures PositiveOffers(s) && Positive(sell) && Positive(buy) && Within(f, sell, buy) ==>
      PositiveOffers(StoreRest(StoreRest(s2, buy, Rest(buy, f.pay)), sell, Rest(sell, f.amount)))
    ensures WellFormed(s) && NonNegativeStocks(s) && deal.sellAmount >= 0 && deal.buyAmount >= 0 ==>
      NonNegativeStocks(StoreRest(StoreRest(s2, buy, Rest(buy, f.pay)), sell, Rest(sell, f.amount)))
  {
    if WellFormed(s) {
      AddTradeIsPut(s, deal);
      assert WellFormed(s1) && Settled(s1, s2, deal);
      var s3 := StoreRest(s2, buy, Rest(buy, f.pay));
      var r := StoreRest(s3, sell, Rest(sell, f.amount));
      RestsRewritten(s, s2, buy, f.pay, sell, f.amount, deal);
      SettledRebased(s, s1, s2, deal);
      assert r.(tradeMap := s.tradeMap) == s2.(tradeMap := s.tradeMap);
    }
    if PositiveOffers(s) && Positive(sell) && Positive(buy) && Within(f, sell, buy) {
      AddTradeIsPut(s, deal);
      PutTradeKeepsPositive(s, deal);
      assert PositiveOffers(s2);
      RestKeepsPositive(s2, buy, f.pay);
      RestKeepsPositive(StoreRest(s2, buy, Rest(buy, f.pay)), sell, f.amount);
    }
    if WellFormed(s) && NonNegativeStocks(s) && deal.sellAmount >= 0 && deal.buyAmount >= 0 {
      AddTradeIsPut(s, deal);
      assert NonNegativeStocks(s2);
      RestsRewritten(s, s2, buy, f.pay, sell, f.amount, deal);
    }
  }

  /** `SettleSupplied` for the stores `Settle` goes through. */
  lemma SettleKeepsSupplied(s: Store, s1: Store, s2: Store, sell: Trade, buy: Trade, f: Fill, deal: Trade)
    requires s1 == Add(s, TradeObj(deal)) && CloseTrade(s1, deal) == Ok(s2)
    requires deal.sellingBusinessId == sell.sellingBusinessId && deal.buyingBusinessId == Some(buy.sellingBusinessId)
    ensures WellFormed(s) && Supplied(s) ==>
      Supplied(StoreRest(StoreRest(s2, buy, Rest(buy, f.pay)), sell, Rest(sell, f.amount)))
  {
    if WellFormed(s) && Supplied(s) {
      SettleFacts(s, s1, s2, sell, buy, f, deal);
      AddTradeIsPut(s, deal);
      assert Settled(s1, s2, deal);
      assert HasBuyStock(s, sell.sellingBusinessId) && HasBuyStock(s, buy.sellingBusinessId);
      SettleSupplied(s, s2, sell, buy, f, deal);
    }
  }

  /** The trades of a settlement are the ones before, the deal and the rests of the two offers,
      so when the two businesses have buy stocks, every trade's business still has one. */
  lemma SettleSupplied(s: Store, s2: Store, sell: Trade, buy: Trade, f: Fill, deal: Trade)
    requires deal.sellingBusinessId == sell.sellingBusinessId
    requires s2.tradeMap == Put(s.tradeMap, deal.id, deal)
    requires HasBuyStock(s, sell.sellingBusinessId) && HasBuyStock(s, buy.sellingBusinessId) && Supplied(s)
    ensures var r := StoreRest(StoreRest(s2, buy, Rest(buy, f.pay)), sell, Rest(sell, f.amount));
      OnlyStocksAndTradesUpdated(s, r) ==> Supplied(r)
  {
    var s3 := StoreRest(s2, buy, Rest(buy, f.pay));
    var r := StoreRest(s3, sell, Rest(sell, f.amount));
    if OnlyStocksAndTradesUpdated(s, r) {
      PutValues(s.tradeMap, deal.id, deal);
      RestValues(s2, buy, f.pay);
      RestValues(s3, sell, f.amount);
      forall t | t in Values(r.tradeMap) ensures HasBuyStock(r, t.sellingBusinessId) {
        FrameKeepsBuyStock(s, r, t.sellingBusinessId);
      }
    }
  }

  /** Storing what is left of an offer adds nothing but that rest to the trade table. */
  lemma RestValues(s: Store, t: Trade, used: int)
    ensures forall x :: x in Values(StoreRest(s, t, Rest(t, used)).tradeMap) ==> x in Values(s.tradeMap) || Some(x) == Rest(t, used)
  {
    match Rest(t, used)
    case None =>
      DeleteTradeIsRemove(s, t);
      RemoveValues(s.tradeMap, t.id);
    case Some(u) =>
      AddTradeIsPut(s, u);
      PutValues(s.tradeMap, t.id, u);
  }

  /** Storing a trade does not change which businesses have buy stocks. */
  lemma AddTradeKeepsBuyStock(s: Store, t: Trade, id: string)
    ensures WellFormed(s) ==> WellFormed(Add(s, TradeObj(t)))
    ensures HasBuyStock(Add(s, TradeObj(t)), id) == HasBuyStock(s, id)
  {
    AddTradeIsPut(s, t);
  }

  /** A settlement on `s1`, which differs from `s` only in its trades, is the same settlement
      on `s`. */
  lemma SettledRebased(s: Store, s1: Store, s2: Store, deal: Trade)
    requires s1 == s.(tradeMap := s1.tradeMap) && Settled(s1, s2, deal)
    ensures Settled(s, s2.(tradeMap := s.tradeMap), deal)
  {
    assert HasBuyStock(s, deal.sellingBusinessId) && HasBuyStock(s, deal.buyingBusinessId.value);
    assert BuyStockOf(s, deal.sellingBusinessId) == BuyStockOf(s1, deal.sellingBusinessId);
    assert BuyStockOf(s, deal.buyingBusinessId.value) == BuyStockOf(s1, deal.buyingBusinessId.value);
  }

  /** After the closed trade is stored and settled, storing the rests of both offers makes the
      trade table the three writes: the deal, the buyer's rest, the seller's rest. */
  lemma RestsRewritten(s: Store, s2: Store, buy: Trade, pay: int, sell: Trade, amount: int, deal: Trade)
    requires WellFormed(s2) && s2.tradeMap == Put(s.tradeMap, deal.id, deal)
    ensures var r := StoreRest(StoreRest(s2, buy, Rest(buy, pay)), sell, Rest(sell, amount));
      && r == s2.(tradeMap := r.tradeMap) && WellFormed(r)
      && Rewritten(s.tradeMap, r.tradeMap, [(deal.id, Some(deal)), (buy.id, Rest(buy, pay)), (sell.id, Rest(sell, amount))])
  {
    var w1 := [(deal.id, Some(deal))];
    var w2 := w1 + [(buy.id, Rest(buy, pay))];
    var w3 := w2 + [(sell.id, Rest(sell, amount))];
    assert w3 == [(deal.id, Some(deal)), (buy.id, Rest(buy, pay)), (sell.id, Rest(sell, amount))];
    RewrittenNothing(s.tradeMap);
    RewrittenPut(s.tradeMap, s.tradeMap, [], deal.id, deal);
    assert [] + w1 == w1;
    assert Rewritten(s.tradeMap, s2.tradeMap, w1);
    var s3 := StoreRest(s2, buy, Rest(buy, pay));
    StoreRestFacts(s2, s.tradeMap, w1, buy, pay);
    assert s3 == s2.(tradeMap := s3.tradeMap) && WellFormed(s3) && Rewritten(s.tradeMap, s3.tradeMap, w2);
    StoreRestFacts(s3, s.tradeMap, w2, sell, amount);
  }

  /** Storing what is left of an offer is one more write to the trade table; it keeps the
      table keyed and leaves everything else alone. */
  lemma StoreRestFacts(s: Store, m: LinkedMap<Trade>, writes: seq<(string, Option<Trade>)>, t: Trade, used: int)
    requires WellFormed(s) && Rewritten(m, s.tradeMap, writes)
    ensures var r := StoreRest(s, t, Rest(t, used));
      && r == s.(tradeMap := r.tradeMap) && WellFormed(r)
      && Rewritten(m, r.tradeMap, writes + [(t.id, Rest(t, used))])
  {
    match Rest(t, used)
    case None =>
      DeleteTradeIsRemove(s, t);
      RewrittenRemove(m, s.tradeMap, writes, t.id);
    case Some(u) =>
      AddTradeIsPut(s, u);
      RewrittenPut(m, s.tradeMap, writes, t.id, u);
  }

  /** What is left of a positive offer, no more of which was used than it offers, is nothing
      or a positive offer. */
  lemma RestKeepsPositive(s: Store, t: Trade, used: int)
    requires PositiveOffers(s) && Positive(t) && used <= t.sellAmount
    ensures PositiveOffers(StoreRest(s, t, Rest(t, used)))
    ensures StoreRest(s, t, Rest(t, used)).stockMap == s.stockMap
  {
    match Rest(t, used)
    case None =>
      DeleteTradeIsRemove(s, t);
      RemoveTradeKeepsPositive(s, t.id);
    case Some(u) =>
      AddTradeIsPut(s, u);
      PutTradeKeepsPositive(s, u);
  }

  /** One commodity pair being cleared (lines 33-41): the store, what is left of the sellers'
      offers and of the buyers' offers, and the index of the next id for a closed trade. */
  datatype Clearing = Clearing(store: Store, selling: seq<Trade>, buying: seq<Trade>, next: nat)

  predicate AllPositive(ts: seq<Trade>) {
    forall i :: 0 <= i < |ts| ==> Positive(ts[i])
  }

  /** The loop condition (line 41): both lists have an offer, and what the first buyer's price
      allows per unit reaches the first seller's price. */
  predicate Crossing(c: Clearing)
    requires AllPositive(c.buying)
  {
    |c.selling| > 0 && |c.buying| > 0 && 1.0 / c.buying[0].price >= c.selling[0].price
  }

  /** The quantities of a match between the first seller and the first buyer. */
  function HeadFill(c: Clearing): (f: Fill)
    requires AllPositive(c.selling) && AllPositive(c.buying) && |c.selling| > 0 && |c.buying| > 0
    ensures Within(f, c.selling[0], c.buying[0])
    ensures f.amount <= f.want && (f.amount == c.selling[0].sellAmount || f.pay == c.buying[0].sellAmount)
  {
    FillBounds(c.selling[0].sellAmount, c.buying[0].sellAmount, c.buying[0].price);
    FillOf(c.selling[0].sellAmount, c.buying[0].sellAmount, c.buying[0].price)
  }

  /** The match between the first seller and the first buyer is accepted (line 54). */
  predicate Matched(c: Clearing)
    requires AllPositive(c.selling) && AllPositive(c.buying) && |c.selling| > 0 && |c.buying| > 0
  {
    Accepts(c.selling[0].price, c.buying[0].price, HeadFill(c))
  }

  /** The offers of a list after its first has been used: its rest, if any, stays first. */
  function Remaining(rest: Option<Trade>, others: seq<Trade>): seq<Trade> {
    match rest
    case None => others
    case Some(u) => [u] + others
  }

  /** The businesses behind a list of offers. */
  function Sellers(ts: seq<Trade>): set<string> {
    set i | 0 <= i < |ts| :: ts[i].sellingBusinessId
  }

  /** Every trade's selling business exists with its buy stock. */
  ghost predicate Supplied(s: Store) {
    forall t :: t in Values(s.tradeMap) ==> HasBuyStock(s, t.sellingBusinessId)
  }

  /** Each of the businesses `ids` exists with its buy stock. */
  ghost predicate AllHaveBuyStocks(s: Store, ids: set<string>) {
    forall id :: id in ids ==> HasBuyStock(s, id)
  }

  /** A match that went through: with `sell` and `buy` the first offers, `f` their fill and
      `deal` the closed trade, the deal is priced between the seller's price and the buyer's
      limit, at least one offer is used up, each list keeps the rest of its first offer in
      front, and the store is `s` after the settlement. */
  ghost predicate Cleared(c: Clearing, r: Clearing, deal: Trade)
    requires AllPositive(c.selling) && AllPositive(c.buying) && |c.selling| > 0 && |c.buying| > 0
  {
    var sell := c.selling[0];
    var buy := c.buying[0];
    var f := HeadFill(c);
    && sell.price <= deal.price <= 1.0 / buy.price
    && (Rest(sell, f.amount).None? || Rest(buy, f.pay).None?)
    && r.selling == Remaining(Rest(sell, f.amount), c.selling[1..])
    && r.buying == Remaining(Rest(buy, f.pay), c.buying[1..])
    && r.next == c.next + 1
    && (WellFormed(c.store) ==>
         && Settled(c.store, r.store.(tradeMap := c.store.tradeMap), deal)
         && Rewritten(c.store.tradeMap, r.store.tradeMap, [(deal.id, Some(deal)), (buy.id, Rest(buy, f.pay)), (sell.id, Rest(sell, f.amount))]))
  }

  /** One turn of the loop at lines 41-90. An accepted match is recorded as a closed trade with
      id `ids(c.next)`, stamped `now`, and settled; a refused one drops, without trading, the
      seller when it has less than the buyer wants and the buyer otherwise. Either way one
      offer leaves its list, and the lists keep only positive offers. */
  function ClearStep(c: Clearing, sellCommodityId: string, buyCommodityId: string, ids: nat -> string, now: int): (r: Result<Clearing>)
    requires AllPositive(c.selling) && AllPositive(c.buying) && Crossing(c)
    ensures r.Ok? ==> AllPositive(r.value.selling) && AllPositive(r.value.buying)
    ensures r.Ok? ==> |r.value.selling| + |r.value.buying| < |c.selling| + |c.buying|
    ensures r.Ok? ==> Sellers(r.value.selling) <= Sellers(c.selling) && Sellers(r.value.buying) <= Sellers(c.buying)
    ensures !Matched(c) ==> r.Ok? && r.value.store == c.store && r.value.next == c.next
    ensures !Matched(c) ==>
      if c.selling[0].sellAmount < HeadFill(c).want
      then r.value.selling == c.selling[1..] && r.value.buying == c.buying
      else r.value.selling == c.selling && r.value.buying == c.buying[1..]
    ensures WellFormed(c.store) && Matched(c) ==>
      (r.Ok? <==> HasBuyStock(c.store, c.selling[0].sellingBusinessId) && HasBuyStock(c.store, c.buying[0].sellingBusinessId))
    ensures Matched(c) && r.Ok? ==>
      Cleared(c, r.value, Deal(c.selling[0], c.buying[0], sellCommodityId, buyCommodityId, HeadFill(c), ids(c.next), now))
    ensures WellFormed(c.store) && r.Ok? ==> WellFormed(r.value.store) && OnlyStocksAndTradesUpdated(c.store, r.value.store)
    ensures r.Ok? && PositiveOffers(c.store) ==> PositiveOffers(r.value.store)
    ensures r.Ok? && Invariant(c.store) ==> Invariant(r.value.store)
    ensures r.Ok? && WellFormed(c.store) && Supplied(c.store) ==> Supplied(r.value.store)
  {
    var sell := c.selling[0];
    var buy := c.buying[0];
    var f := HeadFill(c);
    if Matched(c) then
      var deal := Deal(sell, buy, sellCommodityId, buyCommodityId, f, ids(c.next), now);
      var s :- Settle(c.store, sell, buy, f, deal);
      var r := Clearing(s, Remaining(Rest(sell, f.amount), c.selling[1..]), Remaining(Rest(buy, f.pay), c.buying[1..]), c.next + 1);
      ClearedFacts(c, r, f, deal);
      Ok(r)
    else if sell.sellAmount < f.want then Ok(c.(selling := c.selling[1..]))
    else Ok(c.(buying := c.buying[1..]))
  }

  lemma ClearedFacts(c: Clearing, r: Clearing, f: Fill, deal: Trade)
    requires AllPositive(c.selling) && AllPositive(c.buying) && |c.selling| > 0 && |c.buying| > 0
    requires f == HeadFill(c) && Matched(c) && deal.price == f.pay as real / f.amount as real
    requires r.selling == Remaining(Rest(c.selling[0], f.amount), c.selling[1..])
    requires r.buying == Remaining(Rest(c.buying[0], f.pay), c.buying[1..])
    requires r.next == c.next + 1
    requires WellFormed(c.store) ==>
      && Settled(c.store, r.store.(tradeMap := c.store.tradeMap), deal)
      && Rewritten(c.store.tradeMap, r.store.tradeMap, [(deal.id, Some(deal)), (c.buying[0].id, Rest(c.buying[0], f.pay)), (c.selling[0].id, Rest(c.selling[0], f.amount))])
    ensures AllPositive(r.selling) && AllPositive(r.buying)
    ensures |r.selling| + |r.buying| < |c.selling| + |c.buying|
    ensures Sellers(r.selling) <= Sellers(c.selling) && Sellers(r.buying) <= Sellers(c.buying)
    ensures Cleared(c, r, deal)
  {
    RemainingFacts(c.selling, f.amount);
    RemainingFacts(c.buying, f.pay);
  }

  /** Using `used` of the first of a list of positive offers, no more than it offers, leaves
      a list of positive offers, one shorter when the first is used up, from the same
      businesses. */
  lemma RemainingFacts(ts: seq<Trade>, used: int)
    requires |ts| > 0 && AllPositive(ts) && 0 <= used <= ts[0].sellAmount
    ensures var r := Remaining(Rest(ts[0], used), ts[1..]);
      && AllPositive(r)
      && |r| == (if Rest(ts[0], used).None? then |ts| - 1 else |ts|)
      && Sellers(r) <= Sellers(ts)
  {
    var r := Remaining(Rest(ts[0], used), ts[1..]);
    forall id | id in Sellers(r) ensures id in Sellers(ts) {
      var i :| 0 <= i < |r| && r[i].sellingBusinessId == id;
      if Rest(ts[0], used).None? {
        assert ts[i + 1].sellingBusinessId == id;
      } else if i > 0 {
        assert ts[i].sellingBusinessId == id;
      } else {
        assert ts[0].sellingBusinessId == id;
      }
    }
  }

  /** The loop at lines 41-90: clears while the first offers cross. Afterwards they no longer
      do; only trades and stock amounts have changed, the invariant holds again, and ids were
      taken from `c.next` on. It cannot fail when every business behind the offers has its buy
      stock. */
  function ClearLoop(c: Clearing, sellCommodityId: string, buyCommodityId: string, ids: nat -> string, now: int): (r: Result<Clearing>)
    requires AllPositive(c.selling) && AllPositive(c.buying)
    ensures r.Ok? ==> AllPositive(r.value.selling) && AllPositive(r.value.buying) && !Crossing(r.value)
    ensures r.Ok? ==> r.value.next >= c.next
    ensures WellFormed(c.store) && r.Ok? ==> WellFormed(r.value.store) && OnlyStocksAndTradesUpdated(c.store, r.value.store)
    ensures r.Ok? && PositiveOffers(c.store) ==> PositiveOffers(r.value.store)
    ensures r.Ok? && Invariant(c.store) ==> Invariant(r.value.store)
    ensures r.Ok? && WellFormed(c.store) && Supplied(c.store) ==> Supplied(r.value.store)
    ensures WellFormed(c.store) && AllHaveBuyStocks(c.store, Sellers(c.selling) + Sellers(c.buying)) ==> r.Ok?
    decreases |c.selling| + |c.buying|
  {
    if Crossing(c) then
      var c1 :- ClearStep(c, sellCommodityId, buyCommodityId, ids, now);
      ClearLoopStep(c, c1, sellCommodityId, buyCommodityId, ids, now);
      ClearLoop(c1, sellCommodityId, buyCommodityId, ids, now)
    else Ok(c)
  }

  /** A turn of the loop keeps the businesses behind the offers supplied with buy stocks. */
  lemma ClearLoopStep(c: Clearing, c1: Clearing, sellCommodityId: string, buyCommodityId: string, ids: nat -> string, now: int)
    requires AllPositive(c.selling) && AllPositive(c.buying) && Crossing(c)
    requires ClearStep(c, sellCommodityId, buyCommodityId, ids, now) == Ok(c1)
    ensures WellFormed(c.store) && AllHaveBuyStocks(c.store, Sellers(c.selling) + Sellers(c.buying)) ==>
      AllHaveBuyStocks(c1.store, Sellers(c1.selling) + Sellers(c1.buying))
  {
    if WellFormed(c.store) && AllHaveBuyStocks(c.store, Sellers(c.selling) + Sellers(c.buying)) {
      forall id | id in Sellers(c1.selling) + Sellers(c1.buying) ensures HasBuyStock(c1.store, id) {
        FrameKeepsBuyStock(c.store, c1.store, id);
      }
    }
  }

  /** Changing only trades and stock amounts does not change which businesses have buy stocks. */
  lemma FrameKeepsBuyStock(s: Store, r: Store, id: string)
    requires OnlyStocksAndTradesUpdated(s, r)
    ensures HasBuyStock(r, id) == HasBuyStock(s, id)
  {
  }
}
