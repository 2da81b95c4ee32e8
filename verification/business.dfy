/** The business step (controller/BusinessController.kt): every business offers each of its
    non-empty sell stocks, whole, on the market of its station, at a price derived from the
    offers already there, and empties the stock into the offer.

    `Random.nextDouble()` is passed in as a `Draw`; the trade id and the clock reading that
    the source takes from `UUID.randomUUID()` and `Date()` are passed in as well.
 */
module Business {
  import opened Results
  import opened Sequences
  import opened RegistryObjects
  import opened Matcher
  import opened LinkedMap
  import opened DataStore
  import opened Registry

  /** A value of `Random.nextDouble()`: a real in [0, 1). */
  type Draw = r: real | 0.0 <= r < 1.0

  /** The bounds of the random markup on the cheapest competing price. */
  const MIN_MARKUP: real := 0.9
  const MAX_MARKUP: real := 1.5

  /** `randomRange(from, to)`: scales the draw onto [from, to). */
  function RandomRange(from: real, to: real, draw: Draw): (r: real)
    ensures from < to ==> from <= r < to
    ensures from == to ==> r == from
  {
    var x := draw * (to - from);
    ScaledDraw(draw, to - from, x);
    x + from
  }

  /** A draw times a non-negative width lies below the width, or is 0 for width 0. */
  lemma ScaledDraw(d: real, w: real, x: real)
    requires 0.0 <= d < 1.0 && x == d * w
    ensures w > 0.0 ==> 0.0 <= x < w
    ensures w == 0.0 ==> x == 0.0
  {
    if w > 0.0 {
      var e := 1.0 - d;
      assert e * w > 0.0;
      assert e * w == w - x;
    }
  }

  /** The markup of one price recommendation lies in [0.9, 1.5). */
  lemma MarkupRange(draw: Draw)
    ensures MIN_MARKUP <= RandomRange(MIN_MARKUP, MAX_MARKUP, draw) < MAX_MARKUP
  {
  }

  /** `minBy { it.price }?.price`: the lowest price, or `None` for no trades. */
  function LowestPrice(ts: seq<Trade>): (r: Option<real>)
    ensures r.None? <==> |ts| == 0
    ensures r.Some? ==> exists i :: 0 <= i < |ts| && ts[i].price == r.value
    ensures r.Some? ==> forall i :: 0 <= i < |ts| ==> r.value <= ts[i].price
  {
    if |ts| == 0 then None
    else
      match LowestPrice(ts[1..])
      case None => Some(ts[0].price)
      case Some(p) =>
        assert forall i :: 1 <= i < |ts| ==> ts[i] == ts[1..][i - 1];
        Some(if ts[0].price <= p then ts[0].price else p)
  }

  /** `maxBy { it.price }?.price`: the highest price, or `None` for no trades. */
  function HighestPrice(ts: seq<Trade>): (r: Option<real>)
    ensures r.None? <==> |ts| == 0
    ensures r.Some? ==> exists i :: 0 <= i < |ts| && ts[i].price == r.value
    ensures r.Some? ==> forall i :: 0 <= i < |ts| ==> ts[i].price <= r.value
  {
    if |ts| == 0 then None
    else
      match HighestPrice(ts[1..])
      case None => Some(ts[0].price)
      case Some(p) =>
        assert forall i :: 1 <= i < |ts| ==> ts[i] == ts[1..][i - 1];
        Some(if ts[0].price >= p then ts[0].price else p)
  }

  /** `t` is an open offer at `station` of `sell` for `buy`. */
  predicate Offering(t: Trade, sell: string, buy: string, station: string) {
    t.IsActive() && t.sellCommodityId == sell && t.buyCommodityId == buy && t.stationId == station
  }

  /** `trades(isActive(), isSelling(sell), isBuying(buy), atStation(station))`: the open
      offers at `station` of `sell` for `buy`, in registry order. */
  function Offers(s: Store, sell: string, buy: string, station: string): (r: seq<Trade>)
    ensures forall t :: t in r <==> t in Values(s.tradeMap) && Offering(t, sell, buy, station)
  {
    var ms := [IsActive(), IsSelling(sell), IsBuying(buy), OnTrades(AtStation(station))];
    assert forall t :: AllOf(ms)(t) <==> Offering(t, sell, buy, station) by {
      forall t ensures AllOf(ms)(t) <==> Offering(t, sell, buy, station) {
        assert ms[0](t) && ms[1](t) && ms[2](t) && ms[3](t) <==> Offering(t, sell, buy, station);
      }
    }
    Trades(s, ms)
  }

  /** Every price of a list of positive open offers is positive. */
  lemma PositivePrices(s: Store, ts: seq<Trade>, sell: string, buy: string, station: string)
    requires PositiveOffers(s) && ts == Offers(s, sell, buy, station)
    ensures forall i :: 0 <= i < |ts| ==> ts[i].price > 0.0
  {
    forall i | 0 <= i < |ts| ensures ts[i].price > 0.0 {
      assert ts[i] in ts;
    }
  }

  /** `getRecommendedSellPriceFromBuyers`: with no seller to undercut, the reciprocal of the
      highest price among the open offers of the inverse market (selling the business's buy
      commodity for the stock's commodity at the stock's station), or `None` when there is
      none. It fails only when the business's buy stock does not exist. */
  function RecommendedSellPriceFromBuyers(s: Store, b: Business, stock: Stock): (r: Result<Option<real>>)
    requires PositiveOffers(s)
    ensures WellFormed(s) ==> (r.Fail? <==> Get(s.stockMap, b.buyStockId).None?)
    ensures r.Ok? ==> BuyStock(s, b).Ok?
    ensures r.Ok? ==>
      var buyers := Offers(s, BuyStock(s, b).value.commodityId, stock.commodityId, stock.stationId);
      && (r.value.None? <==> |buyers| == 0)
      && (r.value.Some? ==> r.value.value > 0.0)
      && (r.value.Some? ==> HighestPrice(buyers).value > 0.0 && r.value.value == 1.0 / HighestPrice(buyers).value)
  {
    var buyStock :- BuyStock(s, b);
    var buyers := Offers(s, buyStock.commodityId, stock.commodityId, stock.stationId);
    match HighestPrice(buyers)
    case None => Ok(None)
    case Some(p) =>
      PositivePrices(s, buyers, buyStock.commodityId, stock.commodityId, stock.stationId);
      ReciprocalPositive(p);
      Ok(Some(1.0 / p))
  }

  /** `lowestSellPrice`: the cheapest open offer at the stock's station of the same commodity
      for the business's buy commodity, else the reciprocal from the inverse market, else
      `None`. A price found is positive. It fails only when the business's buy stock does not
      exist. */
  function LowestSellPrice(s: Store, b: Business, stock: Stock): (r: Result<Option<real>>)
    requires PositiveOffers(s)
    ensures WellFormed(s) ==> (r.Fail? <==> Get(s.stockMap, b.buyStockId).None?)
    ensures r.Ok? ==> BuyStock(s, b).Ok?
    ensures r.Ok? && r.value.Some? ==> r.value.value > 0.0
    ensures r.Ok? ==>
      var buyCommodity := BuyStock(s, b).value.commodityId;
      var sellers := Offers(s, stock.commodityId, buyCommodity, stock.stationId);
      var buyers := Offers(s, buyCommodity, stock.commodityId, stock.stationId);
      && (|sellers| > 0 ==> r.value == LowestPrice(sellers))
      && (|sellers| == 0 && |buyers| > 0 ==> r.value == Some(1.0 / HighestPrice(buyers).value))
      && (|sellers| == 0 && |buyers| == 0 ==> r.value.None?)
  {
    var buyStock :- BuyStock(s, b);
    var sellers := Offers(s, stock.commodityId, buyStock.commodityId, stock.stationId);
    match LowestPrice(sellers)
    case Some(p) =>
      PositivePrices(s, sellers, stock.commodityId, buyStock.commodityId, stock.stationId);
      LowestPositive(sellers);
      Ok(Some(p))
    case None => RecommendedSellPriceFromBuyers(s, b, stock)
  }

  /** `getRecommendedSellPrice`: the lowest sell price times a markup in [0.9, 1.5), and
      exactly 1.0, without markup, when neither market has an offer. The result is positive.
      It fails only when the business's buy stock does not exist. */
  function RecommendedSellPrice(s: Store, b: Business, stock: Stock, draw: Draw): (r: Result<real>)
    requires PositiveOffers(s)
    ensures WellFormed(s) ==> (r.Fail? <==> Get(s.stockMap, b.buyStockId).None?)
    ensures r.Ok? ==> r.value > 0.0 && BuyStock(s, b).Ok?
    ensures r.Ok? ==>
      var buyCommodity := BuyStock(s, b).value.commodityId;
      var sellers := Offers(s, stock.commodityId, buyCommodity, stock.stationId);
      var buyers := Offers(s, buyCommodity, stock.commodityId, stock.stationId);
      && (|sellers| > 0 ==> r.value == MarkedUp(LowestPrice(sellers).value, draw))
      && (|sellers| == 0 && |buyers| > 0 ==> r.value == MarkedUp(1.0 / HighestPrice(buyers).value, draw))
      && (|sellers| == 0 && |buyers| == 0 ==> r.value == 1.0)
  {
    var lowest :- LowestSellPrice(s, b, stock);
    match lowest
    case None => Ok(1.0)
    case Some(p) => Ok(MarkedUp(p, draw))
  }

  /** The reciprocal of a positive price is positive. */
  lemma ReciprocalPositive(p: real)
    requires p > 0.0
    ensures 1.0 / p > 0.0
  {
  }

  /** The lowest of some positive prices is positive. */
  lemma LowestPositive(ts: seq<Trade>)
    requires forall i :: 0 <= i < |ts| ==> ts[i].price > 0.0
    ensures LowestPrice(ts).Some? ==> LowestPrice(ts).value > 0.0
  {
  }

  /** `lowestSellPrice * overSell`, with `overSell = randomRange(0.9, 1.5)`; a positive
      price stays positive. */
  function MarkedUp(p: real, draw: Draw): (r: real)
    ensures p > 0.0 ==> r > 0.0
    ensures p >= 0.0 ==> MIN_MARKUP * p <= r
  {
    var m := RandomRange(MIN_MARKUP, MAX_MARKUP, draw);
    ScaledPositive(p, m, p * m);
    p * m
  }

  /** Scaling a price by a factor of at least 0.9 keeps its sign and at least 0.9 of it. */
  lemma ScaledPositive(p: real, m: real, q: real)
    requires m >= MIN_MARKUP && q == p * m
    ensures p > 0.0 ==> q > 0.0
    ensures p >= 0.0 ==> MIN_MARKUP * p <= q
  {
    if p >= 0.0 {
      assert q - MIN_MARKUP * p == p * (m - MIN_MARKUP);
    }
  }

  /** The open offer posted for `stock`: the whole amount of its commodity, for the buy
      commodity, at the stock's station, open for the stock's trade length. */
  function Offer(id: string, b: Business, stock: Stock, buyCommodity: string, price: real, now: int): (t: Trade)
    ensures t.IsActive() && t.id == id && t.sellingBusinessId == b.id
    ensures t.sellAmount == stock.amount && t.sellCommodityId == stock.commodityId && t.buyCommodityId == buyCommodity
    ensures t.stationId == stock.stationId && t.tradeLength == stock.tradeLength
    ensures t.price == price && t.timestamp == now
  {
    Trade(id := id, sellingBusinessId := b.id, stationId := stock.stationId,
          sellCommodityId := stock.commodityId, buyCommodityId := buyCommodity,
          sellAmount := stock.amount, price := price, timestamp := now, tradeLength := stock.tradeLength)
  }

  /** The offer is posted only when it is worth at least one unit of the buy commodity. */
  predicate WorthPosting(amount: int, price: real) {
    amount as real * price >= 1.0
  }

  /** One sell stock of the business loop: a stock with amount 0 is skipped; otherwise the
      price is recommended and, when the offer is worth posting, the offer `Offer(id, …)` is
      stored and the stock, as it was read, is stored back with amount 0. Nothing else
      changes. It fails only when the business's buy stock does not exist. */
  function QuoteStock(s: Store, b: Business, stock: Stock, draw: Draw, id: string, now: int): (r: Result<Store>)
    requires PositiveOffers(s)
    ensures stock.amount == 0 ==> r == Ok(s)
    ensures WellFormed(s) && stock.amount != 0 ==> (r.Fail? <==> Get(s.stockMap, b.buyStockId).None?)
    ensures r.Ok? && stock.amount != 0 ==> RecommendedSellPrice(s, b, stock, draw).Ok?
    ensures r.Ok? && stock.amount != 0 ==>
      var price := RecommendedSellPrice(s, b, stock, draw).value;
      && (!WorthPosting(stock.amount, price) ==> r.value == s)
      && (WorthPosting(stock.amount, price) ==>
            Posted(s, r.value, Offer(id, b, stock, BuyStock(s, b).value.commodityId, price, now), stock.(amount := 0)))
    ensures r.Ok? ==> PositiveOffers(r.value)
    ensures r.Ok? && NonNegativeStocks(s) ==> NonNegativeStocks(r.value)
    ensures r.Ok? && WellFormed(s) ==> WellFormed(r.value)
  {
    if stock.amount == 0 then Ok(s)
    else
      var price :- RecommendedSellPrice(s, b, stock, draw);
      if WorthPosting(stock.amount, price) then
        var buyStock := BuyStock(s, b).value;
        var offer := Offer(id, b, stock, buyStock.commodityId, price, now);
        WorthPostingPositive(stock.amount, price);
        Ok(Post(s, offer, stock.(amount := 0)))
      else Ok(s)
  }

  /** An offer worth posting at a positive price is for a positive amount. */
  lemma WorthPostingPositive(amount: int, price: real)
    requires price > 0.0 && WorthPosting(amount, price)
    ensures amount > 0
  {
  }

  /** `r` is `s` with `offer` stored under its id among the trades and `emptied` stored under
      its id among the stocks; every other record is unchanged. */
  ghost predicate Posted(s: Store, r: Store, offer: Trade, emptied: Stock) {
    && r == s.(tradeMap := r.tradeMap, stockMap := r.stockMap)
    && Get(r.tradeMap, offer.id) == Some(offer)
    && (forall k :: k != offer.id ==> Get(r.tradeMap, k) == Get(s.tradeMap, k))
    && Get(r.stockMap, emptied.id) == Some(emptied)
    && (forall k :: k != emptied.id ==> Get(r.stockMap, k) == Get(s.stockMap, k))
  }

  /** `registry.add(offer)` followed by `emptied.update()`. With a positive offer and a
      non-negative stock the store's invariants are kept. */
  function Post(s: Store, offer: Trade, emptied: Stock): (r: Store)
    ensures Posted(s, r, offer, emptied)
    ensures WellFormed(s) ==> WellFormed(r)
    ensures Positive(offer) && PositiveOffers(s) ==> PositiveOffers(r)
    ensures emptied.amount >= 0 && NonNegativeStocks(s) ==> NonNegativeStocks(r)
  {
    PostKeeps(s, offer, emptied);
    Add(Add(s, TradeObj(offer)), StockObj(emptied))
  }

  lemma PostKeeps(s: Store, offer: Trade, emptied: Stock)
    ensures Posted(s, Add(Add(s, TradeObj(offer)), StockObj(emptied)), offer, emptied)
    ensures WellFormed(s) ==> WellFormed(Add(Add(s, TradeObj(offer)), StockObj(emptied)))
    ensures Positive(offer) && PositiveOffers(s) ==> PositiveOffers(Add(Add(s, TradeObj(offer)), StockObj(emptied)))
    ensures emptied.amount >= 0 && NonNegativeStocks(s) ==> NonNegativeStocks(Add(Add(s, TradeObj(offer)), StockObj(emptied)))
  {
    var s1 := Add(s, TradeObj(offer));
    AddTradeIsPut(s, offer);
    AddStockIsPut(s1, emptied);
    if PositiveOffers(s) && Positive(offer) {
      PutTradeKeepsPositive(s, offer);
    }
    if NonNegativeStocks(s) && emptied.amount >= 0 {
      PutStockKeepsNonNegative(s1, emptied);
    }
  }

  /** Every id in `ids` names a stock of `s`. */
  ghost predicate StocksExist(s: Store, ids: seq<string>) {
    forall i :: 0 <= i < |ids| ==> Get(s.stockMap, ids[i]).Some?
  }

  /** The `forEach` over a business's sell stocks, all read before the first is quoted. The
      n-th draw and id go to the n-th stock with a non-zero amount. When the stocks exist,
      only stocks and trades change, and the loop fails only for a missing buy stock. */
  function QuoteStocks(s: Store, b: Business, stocks: seq<Stock>, draws: nat -> Draw, ids: nat -> string, now: int, n: nat)
    : (r: Result<(Store, nat)>)
    requires PositiveOffers(s)
    ensures r.Ok? ==> PositiveOffers(r.value.0)
    ensures r.Ok? && WellFormed(s) ==> WellFormed(r.value.0)
    ensures r.Ok? && NonNegativeStocks(s) ==> NonNegativeStocks(r.value.0)
    ensures WellFormed(s) && StocksExist(s, StockIds(stocks)) ==>
      && (r.Ok? ==> OnlyStocksAndTradesUpdated(s, r.value.0))
      && (Get(s.stockMap, b.buyStockId).Some? ==> r.Ok?)
    decreases |stocks|
  {
    if |stocks| == 0 then Ok((s, n))
    else
      var stock := stocks[0];
      var s1 :- QuoteStock(s, b, stock, draws(n), ids(n), now);
      assert StockIds(stocks[1..]) == StockIds(stocks)[1..];
      QuoteStockFrame(s, b, stock, draws(n), ids(n), now);
      var r := QuoteStocks(s1, b, stocks[1..], draws, ids, now, if stock.amount == 0 then n else n + 1);
      OnlyStocksAndTradesUpdatedChain(s, s1, if r.Ok? then r.value.0 else s1);
      r
  }

  /** The ids of some stocks, in order. */
  function StockIds(stocks: seq<Stock>): (r: seq<string>)
    ensures |r| == |stocks| && forall i :: 0 <= i < |stocks| ==> r[i] == stocks[i].id
  {
    seq(|stocks|, i requires 0 <= i < |stocks| => stocks[i].id)
  }

  /** Quoting an existing stock changes only stocks and trades, and keeps the stock ids. */
  lemma QuoteStockFrame(s: Store, b: Business, stock: Stock, draw: Draw, id: string, now: int)
    requires PositiveOffers(s)
    ensures var r := QuoteStock(s, b, stock, draw, id, now);
      WellFormed(s) && Get(s.stockMap, stock.id).Some? && r.Ok? ==> OnlyStocksAndTradesUpdated(s, r.value)
  {
    var r := QuoteStock(s, b, stock, draw, id, now);
    if WellFormed(s) && Get(s.stockMap, stock.id).Some? && r.Ok? && stock.amount != 0 {
      var price := RecommendedSellPrice(s, b, stock, draw).value;
      if WorthPosting(stock.amount, price) {
        PostedFrame(s, r.value, Offer(id, b, stock, BuyStock(s, b).value.commodityId, price, now), stock.(amount := 0));
      }
    }
  }

  /** Posting over an existing stock keeps the stock ids. */
  lemma PostedFrame(s: Store, r: Store, offer: Trade, emptied: Stock)
    requires Posted(s, r, offer, emptied) && Get(s.stockMap, emptied.id).Some?
    ensures OnlyStocksAndTradesUpdated(s, r)
  {
  }

  /** Every business's sell stocks and buy stock exist. */
  ghost predicate BusinessStocksExist(s: Store, bs: seq<Business>) {
    forall i :: 0 <= i < |bs| ==> StocksExist(s, bs[i].sellStockIds) && Get(s.stockMap, bs[i].buyStockId).Some?
  }

  /** The `forEach` over the businesses. Only stocks and trades change, and the store's
      invariants are kept. */
  function QuoteBusinesses(s: Store, bs: seq<Business>, draws: nat -> Draw, ids: nat -> string, now: int, n: nat)
    : (r: Result<(Store, nat)>)
    requires PositiveOffers(s)
    ensures r.Ok? ==> PositiveOffers(r.value.0)
    ensures r.Ok? && NonNegativeStocks(s) ==> NonNegativeStocks(r.value.0)
    ensures r.Ok? && WellFormed(s) ==> WellFormed(r.value.0) && OnlyStocksAndTradesUpdated(s, r.value.0)
    decreases |bs|
  {
    if |bs| == 0 then Ok((s, n))
    else
      var stocks :- SellStocks(s, bs[0]);
      var q :- QuoteStocks(s, bs[0], stocks, draws, ids, now, n);
      assert WellFormed(s) ==> StocksExist(s, StockIds(stocks)) by {
        QuoteBusinessesStep(s, bs, stocks, q.0);
      }
      var r := QuoteBusinesses(q.0, bs[1..], draws, ids, now, q.1);
      OnlyStocksAndTradesUpdatedChain(s, q.0, if r.Ok? then r.value.0 else q.0);
      r
  }

  /** The business loop fails only when some business's stocks are missing: it succeeds when
      all exist, and on success every business's sell stocks exist. */
  lemma QuoteBusinessesFails(s: Store, bs: seq<Business>, draws: nat -> Draw, ids: nat -> string, now: int, n: nat)
    requires PositiveOffers(s)
    ensures var r := QuoteBusinesses(s, bs, draws, ids, now, n);
      && (r.Ok? && WellFormed(s) ==> forall i :: 0 <= i < |bs| ==> StocksExist(s, bs[i].sellStockIds))
      && (WellFormed(s) && BusinessStocksExist(s, bs) ==> r.Ok?)
  {
    QuoteBusinessesFound(s, bs, draws, ids, now, n);
    QuoteBusinessesSucceeds(s, bs, draws, ids, now, n);
  }

  /** On success, every business's sell stocks existed. */
  lemma {:induction false} QuoteBusinessesFound(s: Store, bs: seq<Business>, draws: nat -> Draw, ids: nat -> string,
                                                now: int, n: nat)
    requires PositiveOffers(s)
    ensures QuoteBusinesses(s, bs, draws, ids, now, n).Ok? && WellFormed(s) ==>
      forall i :: 0 <= i < |bs| ==> StocksExist(s, bs[i].sellStockIds)
    decreases |bs|
  {
    if |bs| > 0 && WellFormed(s) && QuoteBusinesses(s, bs, draws, ids, now, n).Ok? {
      var stocks := SellStocks(s, bs[0]).value;
      var q := QuoteStocks(s, bs[0], stocks, draws, ids, now, n).value;
      QuoteBusinessesStep(s, bs, stocks, q.0);
      assert QuoteBusinesses(s, bs, draws, ids, now, n) == QuoteBusinesses(q.0, bs[1..], draws, ids, now, q.1);
      QuoteBusinessesFound(q.0, bs[1..], draws, ids, now, q.1);
    }
  }

  /** When every business's stocks exist, the business loop succeeds. */
  lemma {:induction false} QuoteBusinessesSucceeds(s: Store, bs: seq<Business>, draws: nat -> Draw, ids: nat -> string,
                                                   now: int, n: nat)
    requires PositiveOffers(s)
    ensures WellFormed(s) && BusinessStocksExist(s, bs) ==> QuoteBusinesses(s, bs, draws, ids, now, n).Ok?
    decreases |bs|
  {
    if |bs| > 0 && WellFormed(s) && BusinessStocksExist(s, bs) {
      var stocks := SellStocks(s, bs[0]).value;
      QuoteBusinessesStep(s, bs, stocks, s);
      var q := QuoteStocks(s, bs[0], stocks, draws, ids, now, n).value;
      QuoteBusinessesStep(s, bs, stocks, q.0);
      assert QuoteBusinesses(s, bs, draws, ids, now, n) == QuoteBusinesses(q.0, bs[1..], draws, ids, now, q.1);
      QuoteBusinessesSucceeds(q.0, bs[1..], draws, ids, now, q.1);
    }
  }

  /** What one business's quoting hands on to the rest of the loop. */
  lemma QuoteBusinessesStep(s: Store, bs: seq<Business>, stocks: seq<Stock>, s1: Store)
    requires |bs| > 0 && SellStocks(s, bs[0]) == Ok(stocks)
    ensures StockIds(stocks) == bs[0].sellStockIds
    ensures WellFormed(s) ==> StocksExist(s, StockIds(stocks))
    ensures WellFormed(s) && OnlyStocksAndTradesUpdated(s, s1) ==>
      && (BusinessStocksExist(s, bs) ==> BusinessStocksExist(s1, bs[1..]))
      && (forall i :: 0 <= i < |bs| - 1 ==> StocksExist(s1, bs[1..][i].sellStockIds) ==> StocksExist(s, bs[i + 1].sellStockIds))
  {
    assert StockIds(stocks) == bs[0].sellStockIds;
    if WellFormed(s) && OnlyStocksAndTradesUpdated(s, s1) {
      forall i | 0 <= i < |bs| - 1
        ensures StocksExist(s1, bs[1..][i].sellStockIds) ==> StocksExist(s, bs[i + 1].sellStockIds)
      {
        assert bs[1..][i] == bs[i + 1];
        SameStockIds(s, s1, bs[i + 1].sellStockIds);
      }
      if BusinessStocksExist(s, bs) {
        BusinessStocksExistShift(s, bs, s1);
      }
    }
  }

  /** With the same stock ids, the businesses after the first still find their stocks. */
  lemma BusinessStocksExistShift(s: Store, bs: seq<Business>, s1: Store)
    requires |bs| > 0 && BusinessStocksExist(s, bs)
    requires forall k :: Get(s1.stockMap, k).Some? <==> Get(s.stockMap, k).Some?
    ensures BusinessStocksExist(s1, bs[1..])
  {
    forall i | 0 <= i < |bs| - 1
      ensures StocksExist(s1, bs[1..][i].sellStockIds) && Get(s1.stockMap, bs[1..][i].buyStockId).Some?
    {
      assert bs[1..][i] == bs[i + 1];
      SameStockIds(s, s1, bs[i + 1].sellStockIds);
    }
  }

  /** Stores with the same stock ids agree on which stocks exist. */
  lemma SameStockIds(s: Store, s1: Store, ids: seq<string>)
    requires forall k :: Get(s1.stockMap, k).Some? <==> Get(s.stockMap, k).Some?
    ensures StocksExist(s1, ids) <==> StocksExist(s, ids)
  {
  }

  /** `runBusinessStep()`: every business, in registry order, quotes its sell stocks. Only
      stocks and trades change, the store's invariants are kept, and the step fails only when
      some business's stocks are missing: it succeeds when all exist, and on success every
      business's sell stocks exist. */
  function RunBusinessStep(s: Store, draws: nat -> Draw, ids: nat -> string, now: int, n: nat): (r: Result<(Store, nat)>)
    requires PositiveOffers(s)
    ensures r.Ok? ==> PositiveOffers(r.value.0)
    ensures r.Ok? && WellFormed(s) ==> WellFormed(r.value.0) && OnlyStocksAndTradesUpdated(s, r.value.0)
    ensures r.Ok? && Invariant(s) ==> Invariant(r.value.0)
    ensures r.Ok? && WellFormed(s) ==> forall b :: b in Values(s.businessMap) ==> StocksExist(s, b.sellStockIds)
    ensures WellFormed(s) && BusinessStocksExist(s, Values(s.businessMap)) ==> r.Ok?
    ensures r.Ok? && FreshIds(s, ids, n) ==> KeepsPostings(s, r.value.0) && FreshIds(r.value.0, ids, r.value.1)
  {
    var bs := Businesses(s, []);
    var r := QuoteBusinesses(s, bs, draws, ids, now, n);
    QuoteBusinessesFails(s, bs, draws, ids, now, n);
    assert r.Ok? && FreshIds(s, ids, n) ==> KeepsPostings(s, r.value.0) && FreshIds(r.value.0, ids, r.value.1) by {
      if FreshIds(s, ids, n) {
        QuoteBusinessesKeepsPostings(s, bs, draws, ids, now, n);
      }
    }
    assert r.Ok? && WellFormed(s) ==> forall b :: b in bs ==> StocksExist(s, b.sellStockIds);
    r
  }

  // ---------------------------------------------------------------------------------------
  // What the business step leaves behind

  /** The ids from the `n`-th on are new to the trade table and pairwise different, as random
      UUIDs are. */
  ghost predicate FreshIds(s: Store, ids: nat -> string, n: nat) {
    && (forall k: nat :: n <= k ==> Get(s.tradeMap, ids(k)).None?)
    && (forall k: nat, l: nat :: n <= k < l ==> ids(k) != ids(l))
  }

  /** Nothing `s` holds is undone in `r`: every stored trade is still stored unchanged, and
      every empty stock is still stored and empty. */
  ghost predicate KeepsPostings(s: Store, r: Store) {
    && (forall k :: Get(s.tradeMap, k).Some? ==> Get(r.tradeMap, k) == Get(s.tradeMap, k))
    && (forall k :: Get(s.stockMap, k).Some? && Get(s.stockMap, k).value.amount == 0 ==>
          Get(r.stockMap, k).Some? && Get(r.stockMap, k).value.amount == 0)
  }

  lemma KeepsPostingsChain(s: Store, s1: Store, s2: Store)
    requires KeepsPostings(s, s1) && KeepsPostings(s1, s2)
    ensures KeepsPostings(s, s2)
  {
  }

  /** Quoting one stock with a fresh id undoes nothing, and the ids after the ones it used are
      still fresh. */
  lemma QuoteStockKeepsPostings(s: Store, b: Business, stock: Stock, draws: nat -> Draw, ids: nat -> string, now: int, n: nat)
    requires PositiveOffers(s) && FreshIds(s, ids, n)
    ensures var r := QuoteStock(s, b, stock, draws(n), ids(n), now);
      r.Ok? ==> KeepsPostings(s, r.value) && FreshIds(r.value, ids, if stock.amount == 0 then n else n + 1)
  {
    var r := QuoteStock(s, b, stock, draws(n), ids(n), now);
    if r.Ok? && stock.amount != 0 {
      var price := RecommendedSellPrice(s, b, stock, draws(n)).value;
      if WorthPosting(stock.amount, price) {
        PostedKeepsPostings(s, r.value, Offer(ids(n), b, stock, BuyStock(s, b).value.commodityId, price, now),
                            stock.(amount := 0), ids, n);
      }
    }
  }

  /** Posting an offer under the `n`-th id and emptying a stock undoes nothing. */
  lemma PostedKeepsPostings(s: Store, r: Store, offer: Trade, emptied: Stock, ids: nat -> string, n: nat)
    requires Posted(s, r, offer, emptied) && emptied.amount == 0
    requires offer.id == ids(n) && FreshIds(s, ids, n)
    ensures KeepsPostings(s, r) && FreshIds(r, ids, n + 1)
  {
    forall k: nat | n + 1 <= k ensures Get(r.tradeMap, ids(k)).None? {
      assert ids(k) != ids(n);
    }
  }

  /** One business's loop undoes nothing and leaves the ids after the ones it used fresh. */
  lemma {:induction false} QuoteStocksKeepsPostings(s: Store, b: Business, stocks: seq<Stock>, draws: nat -> Draw,
                                                    ids: nat -> string, now: int, n: nat)
    requires PositiveOffers(s) && FreshIds(s, ids, n)
    ensures var r := QuoteStocks(s, b, stocks, draws, ids, now, n);
      r.Ok? ==> KeepsPostings(s, r.value.0) && FreshIds(r.value.0, ids, r.value.1)
    decreases |stocks|
  {
    var r := QuoteStocks(s, b, stocks, draws, ids, now, n);
    if r.Ok? && |stocks| > 0 {
      var stock := stocks[0];
      var s1 := QuoteStock(s, b, stock, draws(n), ids(n), now).value;
      var n1 := if stock.amount == 0 then n else n + 1;
      QuoteStockKeepsPostings(s, b, stock, draws, ids, now, n);
      QuoteStocksKeepsPostings(s1, b, stocks[1..], draws, ids, now, n1);
      KeepsPostingsChain(s, s1, r.value.0);
    }
  }

  /** The business loop undoes nothing and leaves the ids after the ones it used fresh. */
  lemma {:induction false} QuoteBusinessesKeepsPostings(s: Store, bs: seq<Business>, draws: nat -> Draw,
                                                        ids: nat -> string, now: int, n: nat)
    requires PositiveOffers(s) && FreshIds(s, ids, n)
    ensures var r := QuoteBusinesses(s, bs, draws, ids, now, n);
      r.Ok? ==> KeepsPostings(s, r.value.0) && FreshIds(r.value.0, ids, r.value.1)
    decreases |bs|
  {
    var r := QuoteBusinesses(s, bs, draws, ids, now, n);
    if r.Ok? && |bs| > 0 {
      var stocks := SellStocks(s, bs[0]).value;
      var q := QuoteStocks(s, bs[0], stocks, draws, ids, now, n).value;
      QuoteStocksKeepsPostings(s, bs[0], stocks, draws, ids, now, n);
      QuoteBusinessesKeepsPostings(q.0, bs[1..], draws, ids, now, q.1);
      KeepsPostingsChain(s, q.0, r.value.0);
    }
  }

  /** Quoting `x`, with draw and id index `k`, in the store `q` the earlier quotes left: when
      `x` is not empty and its price makes the offer worth posting, `r` holds that offer under
      the `k`-th id and holds the stock emptied. */
  ghost predicate QuotedInto(q: Store, k: nat, b: Business, x: Stock, draws: nat -> Draw, ids: nat -> string, now: int, r: Store)
    requires PositiveOffers(q)
  {
    var price := RecommendedSellPrice(q, b, x, draws(k));
    x.amount != 0 && price.Ok? && WorthPosting(x.amount, price.value) ==>
      && Get(r.tradeMap, ids(k)) == Some(Offer(ids(k), b, x, BuyStock(q, b).value.commodityId, price.value, now))
      && Get(r.stockMap, x.id).Some? && Get(r.stockMap, x.id).value.amount == 0
  }

  /** A business's loop is its first `j` quotes followed by the rest. */
  lemma {:induction false} QuoteStocksSplit(s: Store, b: Business, stocks: seq<Stock>, draws: nat -> Draw,
                                            ids: nat -> string, now: int, n: nat, j: nat)
    requires PositiveOffers(s) && j <= |stocks|
    ensures var r := QuoteStocks(s, b, stocks, draws, ids, now, n);
      var p := QuoteStocks(s, b, stocks[..j], draws, ids, now, n);
      r.Ok? ==> p.Ok? && r == QuoteStocks(p.value.0, b, stocks[j..], draws, ids, now, p.value.1)
    decreases j
  {
    if j == 0 {
      assert stocks[..0] == [] && stocks[0..] == stocks;
    } else {
      var r := QuoteStocks(s, b, stocks, draws, ids, now, n);
      if r.Ok? {
        var stock := stocks[0];
        var s1 := QuoteStock(s, b, stock, draws(n), ids(n), now).value;
        var n1 := if stock.amount == 0 then n else n + 1;
        assert stocks[..j][0] == stock && stocks[..j][1..] == stocks[1..][..j - 1];
        assert stocks[1..][j - 1..] == stocks[j..];
        assert r == QuoteStocks(s1, b, stocks[1..], draws, ids, now, n1);
        assert QuoteStocks(s, b, stocks[..j], draws, ids, now, n) == QuoteStocks(s1, b, stocks[1..][..j - 1], draws, ids, now, n1);
        QuoteStocksSplit(s1, b, stocks[1..], draws, ids, now, n1, j - 1);
      }
    }
  }

  /** The first stock of a loop ends up emptied with its offer stored, when that offer was
      worth posting. */
  lemma QuoteStocksFirstPosts(q: Store, b: Business, stocks: seq<Stock>, draws: nat -> Draw, ids: nat -> string,
                              now: int, k: nat)
    requires PositiveOffers(q) && FreshIds(q, ids, k) && |stocks| > 0
    requires QuoteStocks(q, b, stocks, draws, ids, now, k).Ok?
    ensures QuotedInto(q, k, b, stocks[0], draws, ids, now, QuoteStocks(q, b, stocks, draws, ids, now, k).value.0)
  {
    var x := stocks[0];
    var price := RecommendedSellPrice(q, b, x, draws(k));
    if x.amount != 0 && price.Ok? && WorthPosting(x.amount, price.value) {
      var s1 := QuoteStock(q, b, x, draws(k), ids(k), now).value;
      assert QuoteStocks(q, b, stocks, draws, ids, now, k) == QuoteStocks(s1, b, stocks[1..], draws, ids, now, k + 1);
      var offer := Offer(ids(k), b, x, BuyStock(q, b).value.commodityId, price.value, now);
      PostedKeepsPostings(q, s1, offer, x.(amount := 0), ids, k);
      QuoteStocksKeepsPostings(s1, b, stocks[1..], draws, ids, now, k + 1);
    }
  }

  /** Each stock of a business's loop, quoted in the store the stocks before it left, ends up
      emptied with its offer stored when that offer was worth posting. */
  lemma QuoteStocksPosts(s: Store, b: Business, stocks: seq<Stock>, draws: nat -> Draw, ids: nat -> string, now: int,
                         n: nat, j: nat)
    requires PositiveOffers(s) && FreshIds(s, ids, n) && j < |stocks|
    requires QuoteStocks(s, b, stocks, draws, ids, now, n).Ok?
    ensures var p := QuoteStocks(s, b, stocks[..j], draws, ids, now, n);
      p.Ok? && QuotedInto(p.value.0, p.value.1, b, stocks[j], draws, ids, now, QuoteStocks(s, b, stocks, draws, ids, now, n).value.0)
  {
    QuoteStocksSplit(s, b, stocks, draws, ids, now, n, j);
    var p := QuoteStocks(s, b, stocks[..j], draws, ids, now, n).value;
    QuoteStocksKeepsPostings(s, b, stocks[..j], draws, ids, now, n);
    assert stocks[j..][0] == stocks[j];
    QuoteStocksFirstPosts(p.0, b, stocks[j..], draws, ids, now, p.1);
  }

  /** A quote that ended up in `r1` is still there in any store that undoes nothing of `r1`. */
  lemma QuotedIntoKept(q: Store, k: nat, b: Business, x: Stock, draws: nat -> Draw, ids: nat -> string, now: int,
                       r1: Store, r2: Store)
    requires PositiveOffers(q) && QuotedInto(q, k, b, x, draws, ids, now, r1) && KeepsPostings(r1, r2)
    ensures QuotedInto(q, k, b, x, draws, ids, now, r2)
  {
  }

  /** The business loop is its first `i` businesses followed by the rest. */
  lemma {:induction false} QuoteBusinessesSplit(s: Store, bs: seq<Business>, draws: nat -> Draw, ids: nat -> string,
                                                now: int, n: nat, i: nat)
    requires PositiveOffers(s) && i <= |bs|
    ensures var r := QuoteBusinesses(s, bs, draws, ids, now, n);
      var p := QuoteBusinesses(s, bs[..i], draws, ids, now, n);
      r.Ok? ==> p.Ok? && r == QuoteBusinesses(p.value.0, bs[i..], draws, ids, now, p.value.1)
    decreases i
  {
    if i == 0 {
      assert bs[..0] == [] && bs[0..] == bs;
    } else {
      var r := QuoteBusinesses(s, bs, draws, ids, now, n);
      if r.Ok? {
        var stocks := SellStocks(s, bs[0]).value;
        var q := QuoteStocks(s, bs[0], stocks, draws, ids, now, n).value;
        assert bs[..i][0] == bs[0] && bs[..i][1..] == bs[1..][..i - 1];
        assert bs[1..][i - 1..] == bs[i..];
        assert r == QuoteBusinesses(q.0, bs[1..], draws, ids, now, q.1);
        assert QuoteBusinesses(s, bs[..i], draws, ids, now, n) == QuoteBusinesses(q.0, bs[1..][..i - 1], draws, ids, now, q.1);
        QuoteBusinessesSplit(q.0, bs[1..], draws, ids, now, q.1, i - 1);
      }
    }
  }

  /** Each sell stock of each business, quoted in the store everything before it left, ends up
      emptied with its offer stored when that offer was worth posting. */
  lemma QuoteBusinessesPosts(s: Store, bs: seq<Business>, draws: nat -> Draw, ids: nat -> string, now: int, n: nat,
                             i: nat, j: nat)
    requires PositiveOffers(s) && FreshIds(s, ids, n) && i < |bs|
    requires QuoteBusinesses(s, bs, draws, ids, now, n).Ok?
    ensures var p := QuoteBusinesses(s, bs[..i], draws, ids, now, n);
      p.Ok? && SellStocks(p.value.0, bs[i]).Ok? &&
      var stocks := SellStocks(p.value.0, bs[i]).value;
      j < |stocks| ==>
        var q := QuoteStocks(p.value.0, bs[i], stocks[..j], draws, ids, now, p.value.1);
        q.Ok? && QuotedInto(q.value.0, q.value.1, bs[i], stocks[j], draws, ids, now,
                            QuoteBusinesses(s, bs, draws, ids, now, n).value.0)
  {
    var r := QuoteBusinesses(s, bs, draws, ids, now, n).value;
    QuoteBusinessesSplit(s, bs, draws, ids, now, n, i);
    var p := QuoteBusinesses(s, bs[..i], draws, ids, now, n).value;
    QuoteBusinessesKeepsPostings(s, bs[..i], draws, ids, now, n);
    assert bs[i..][0] == bs[i] && bs[i..][1..] == bs[i + 1..];
    var stocks := SellStocks(p.0, bs[i]).value;
    var qq := QuoteStocks(p.0, bs[i], stocks, draws, ids, now, p.1).value;
    assert r == QuoteBusinesses(qq.0, bs[i + 1..], draws, ids, now, qq.1).value;
    QuoteStocksKeepsPostings(p.0, bs[i], stocks, draws, ids, now, p.1);
    QuoteBusinessesKeepsPostings(qq.0, bs[i + 1..], draws, ids, now, qq.1);
    if j < |stocks| {
      QuoteStocksPosts(p.0, bs[i], stocks, draws, ids, now, p.1, j);
      var q := QuoteStocks(p.0, bs[i], stocks[..j], draws, ids, now, p.1).value;
      QuotedIntoKept(q.0, q.1, bs[i], stocks[j], draws, ids, now, qq.0, r.0);
    }
  }

  /** `runBusinessStep()` in full: each sell stock of each stored business, quoted in the store
      everything before it left, ends up emptied with its offer stored when that offer was
      worth posting. */
  lemma RunBusinessStepPosts(s: Store, draws: nat -> Draw, ids: nat -> string, now: int, n: nat, i: nat, j: nat)
    requires PositiveOffers(s) && FreshIds(s, ids, n) && i < |Values(s.businessMap)|
    requires RunBusinessStep(s, draws, ids, now, n).Ok?
    ensures var bs := Values(s.businessMap);
      var p := QuoteBusinesses(s, bs[..i], draws, ids, now, n);
      p.Ok? && SellStocks(p.value.0, bs[i]).Ok? &&
      var stocks := SellStocks(p.value.0, bs[i]).value;
      j < |stocks| ==>
        var q := QuoteStocks(p.value.0, bs[i], stocks[..j], draws, ids, now, p.value.1);
        q.Ok? && QuotedInto(q.value.0, q.value.1, bs[i], stocks[j], draws, ids, now,
                            RunBusinessStep(s, draws, ids, now, n).value.0)
  {
    assert Businesses(s, []) == Values(s.businessMap);
    QuoteBusinessesPosts(s, Values(s.businessMap), draws, ids, now, n, i, j);
  }
}
