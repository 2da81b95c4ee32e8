/** The driver of the trade step (controller/MarketController.kt lines 8-39 and 106-120):
    the offers of every station are read once, split into order books for every pair of a
    commodity sold and a commodity bought there, and each pair is cleared; afterwards the
    open offers that have timed out are refunded to their sellers and removed.
 */
module MarketStep {
  import opened Results
  import opened Sequences
  import opened RegistryObjects
  import opened Matcher
  import opened LinkedMap
  import opened DataStore
  import opened Registry
  import opened Market

  /** `r` is `s` after part of the trade step: only trades and stock amounts have changed, and
      the store's invariants and the sellers' buy stocks are kept. */
  ghost predicate Keeps(s: Store, r: Store) {
    && (WellFormed(s) ==> WellFormed(r) && OnlyStocksAndTradesUpdated(s, r))
    && (PositiveOffers(s) ==> PositiveOffers(r))
    && (Invariant(s) ==> Invariant(r))
    && (WellFormed(s) && Supplied(s) ==> Supplied(r))
  }

  lemma KeepsChain(s: Store, s1: Store, s2: Store)
    ensures Keeps(s, s1) && Keeps(s1, s2) ==> Keeps(s, s2)
  {
    OnlyStocksAndTradesUpdatedChain(s, s1, s2);
  }

  /** Changing only trades and stock amounts keeps every business's buy stock. */
  lemma KeepsBuyStocks(s: Store, r: Store, ids: set<string>)
    requires OnlyStocksAndTradesUpdated(s, r)
    ensures AllHaveBuyStocks(r, ids) <==> AllHaveBuyStocks(s, ids)
  {
    forall id ensures HasBuyStock(r, id) == HasBuyStock(s, id) {
      FrameKeepsBuyStock(s, r, id);
    }
  }

  // ---------------------------------------------------------------------------------------
  // The order books of a pair (lines 33-39)

  function Price(t: Trade): real { t.price }
  function NegatedPrice(t: Trade): real { -t.price }

  /** `t` sells `sell` for `buy`. */
  predicate OfPair(t: Trade, sell: string, buy: string) {
    t.sellCommodityId == sell && t.buyCommodityId == buy
  }

  function PairOf(sell: string, buy: string): Trade -> bool {
    t => OfPair(t, sell, buy)
  }

  /** `trades.filter(isSelling(sell), isBuying(buy))`: the offers of `sell` for `buy`, in the
      order of `trades`. */
  function Offered(trades: seq<Trade>, sell: string, buy: string): (r: seq<Trade>)
    ensures r == Filter(trades, PairOf(sell, buy))
  {
    var ms := [IsSelling(sell), IsBuying(buy)];
    assert forall t :: AllOf(ms)(t) == PairOf(sell, buy)(t) by {
      forall t ensures AllOf(ms)(t) == PairOf(sell, buy)(t) {
        assert ms[0](t) && ms[1](t) <==> OfPair(t, sell, buy);
      }
    }
    FilterExtensional(trades, AllOf(ms), PairOf(sell, buy));
    Matches(trades, ms)
  }

  /** The sellers' book (lines 33-35): the offers of `sell` for `buy`, cheapest first, offers
      of equal price in the order of `trades`. */
  function SellingBook(trades: seq<Trade>, sell: string, buy: string): (r: seq<Trade>)
    ensures multiset(r) == multiset(Filter(trades, PairOf(sell, buy)))
    ensures forall i, j :: 0 <= i < j < |r| ==> r[i].price <= r[j].price
    ensures forall v :: Filter(r, KeyIs(Price, v)) == Filter(Filter(trades, PairOf(sell, buy)), KeyIs(Price, v))
  {
    var r := SortBy(Offered(trades, sell, buy), Price);
    forall v ensures Filter(r, KeyIs(Price, v)) == Filter(Filter(trades, PairOf(sell, buy)), KeyIs(Price, v)) {
      SortByStable(Offered(trades, sell, buy), Price, v);
    }
    assert forall i, j :: 0 <= i < j < |r| ==> Price(r[i]) <= Price(r[j]);
    r
  }

  /** The buyers' book (lines 37-39): the offers of `buy` for `sell`, highest posted price
      first, offers of equal price in the order of `trades` (`sortedByDescending` is stable). */
  function BuyingBook(trades: seq<Trade>, sell: string, buy: string): (r: seq<Trade>)
    ensures multiset(r) == multiset(Filter(trades, PairOf(buy, sell)))
    ensures forall i, j :: 0 <= i < j < |r| ==> r[i].price >= r[j].price
    ensures forall v :: Filter(r, KeyIs(NegatedPrice, v)) == Filter(Filter(trades, PairOf(buy, sell)), KeyIs(NegatedPrice, v))
  {
    var r := SortBy(Offered(trades, buy, sell), NegatedPrice);
    forall v ensures Filter(r, KeyIs(NegatedPrice, v)) == Filter(Filter(trades, PairOf(buy, sell)), KeyIs(NegatedPrice, v)) {
      SortByStable(Offered(trades, buy, sell), NegatedPrice, v);
    }
    assert forall i, j :: 0 <= i < j < |r| ==> NegatedPrice(r[i]) <= NegatedPrice(r[j]);
    r
  }

  /** A book holds offers of `trades`, so it inherits their positivity and their sellers. */
  lemma BookFacts(trades: seq<Trade>, p: Trade -> bool, r: seq<Trade>)
    requires multiset(r) == multiset(Filter(trades, p))
    ensures forall t :: t in r <==> t in trades && p(t)
    ensures AllPositive(trades) ==> AllPositive(r)
    ensures Sellers(r) <= Sellers(trades)
  {
    forall t ensures t in r <==> t in trades && p(t) {
      assert t in r <==> t in multiset(r);
      assert t in Filter(trades, p) <==> t in multiset(Filter(trades, p));
    }
    forall i | 0 <= i < |r| ensures r[i] in trades {
      assert r[i] in r;
    }
    forall id | id in Sellers(r) ensures id in Sellers(trades) {
      var i :| 0 <= i < |r| && r[i].sellingBusinessId == id;
      var j :| 0 <= j < |trades| && trades[j] == r[i];
    }
    if AllPositive(trades) {
      forall i | 0 <= i < |r| ensures Positive(r[i]) {
        var j :| 0 <= j < |trades| && trades[j] == r[i];
      }
    }
  }

  /** The books of a pair sell and buy opposite commodities: the sellers of `sell` for `buy`,
      read from the other side, are the buyers of `buy` for `sell`. */
  lemma {:induction false} BooksSwap(trades: seq<Trade>, sell: string, buy: string)
    ensures multiset(SellingBook(trades, sell, buy)) == multiset(BuyingBook(trades, buy, sell))
  {
  }

  // ---------------------------------------------------------------------------------------
  // One pair (lines 28-91)

  /** `trade(trades, sellCommodityId, buyCommodityId)`: clears the books of the pair drawn
      from `trades`, taking deal ids from `ids(n)` on. Only trades and stock amounts change,
      and the store's invariants are kept. It cannot fail when every business behind the
      offers has its buy stock. */
  function TradePair(s: Store, trades: seq<Trade>, sell: string, buy: string, ids: nat -> string, n: nat, now: int)
    : (r: Result<(Store, nat)>)
    requires AllPositive(trades)
    ensures r.Ok? ==> r.value.1 >= n && Keeps(s, r.value.0)
    ensures WellFormed(s) && AllHaveBuyStocks(s, Sellers(trades)) ==> r.Ok?
  {
    var selling := SellingBook(trades, sell, buy);
    var buying := BuyingBook(trades, sell, buy);
    BookFacts(trades, PairOf(sell, buy), selling);
    BookFacts(trades, PairOf(buy, sell), buying);
    assert AllHaveBuyStocks(s, Sellers(trades)) ==> AllHaveBuyStocks(s, Sellers(selling) + Sellers(buying));
    var c :- ClearLoop(Clearing(s, selling, buying, n), sell, buy, ids, now);
    Ok((c.store, c.next))
  }

  // ---------------------------------------------------------------------------------------
  // One station (lines 17-26)

  /** "Open and at `station`". */
  function OpenAt(station: string): Trade -> bool {
    (t: Trade) => t.IsActive() && t.stationId == station
  }

  /** `registry.trades(isActive(), atStation(station))`: the open offers at the station, in
      the order the trade table stores them. */
  function LocalTrades(s: Store, station: string): (r: seq<Trade>)
    ensures r == Filter(Values(s.tradeMap), OpenAt(station))
    ensures forall t :: t in r <==> t in Values(s.tradeMap) && t.IsActive() && t.stationId == station
    ensures PositiveOffers(s) ==> AllPositive(r)
    ensures Supplied(s) ==> AllHaveBuyStocks(s, Sellers(r))
  {
    var ms := [IsActive(), OnTrades(AtStation(station))];
    var r := Trades(s, ms);
    forall t ensures AllOf(ms)(t) == OpenAt(station)(t) {
      assert AllOf(ms)(t) <==> ms[0](t) && ms[1](t);
    }
    FilterExtensional(Values(s.tradeMap), AllOf(ms), OpenAt(station));
    forall i | 0 <= i < |r| ensures r[i] in Values(s.tradeMap) && r[i].IsActive() {
      assert r[i] in r;
    }
    r
  }

  /** The commodity a trade sells, and the one it asks for. */
  function SoldCommodity(t: Trade): string { t.sellCommodityId }
  function WantedCommodity(t: Trade): string { t.buyCommodityId }

  /** Some trade has `key` value `a` before any trade has `key` value `b`. */
  ghost predicate OfferedBefore(trades: seq<Trade>, key: Trade -> string, a: string, b: string) {
    exists k :: 0 <= k < |trades| && key(trades[k]) == a && forall l :: 0 <= l <= k ==> key(trades[l]) != b
  }

  /** `distinct()` of the keys of `trades` lists them in the order they are first offered. */
  lemma {:induction false} DistinctOffered(trades: seq<Trade>, key: Trade -> string, cs: seq<string>)
    requires |cs| == |trades| && forall i :: 0 <= i < |cs| ==> cs[i] == key(trades[i])
    ensures forall i, j :: 0 <= i < j < |Distinct(cs)| ==> OfferedBefore(trades, key, Distinct(cs)[i], Distinct(cs)[j])
  {
    var r := Distinct(cs);
    forall i, j | 0 <= i < j < |r| ensures OfferedBefore(trades, key, r[i], r[j]) {
      var k := FirstIndex(cs, r[i]);
      var m := FirstIndex(cs, r[j]);
      forall l | 0 <= l <= k ensures key(trades[l]) != r[j] {
        assert cs[l] in cs[..m];
      }
    }
  }

  /** `localTrades.map { it.sellCommodityId }.distinct()`: each commodity sold at the station
      once, in the order it is first offered. */
  function SellCommodities(trades: seq<Trade>): (r: seq<string>)
    ensures forall c :: c in r <==> exists t :: t in trades && t.sellCommodityId == c
    ensures NoDuplicates(r)
    ensures forall i, j :: 0 <= i < j < |r| ==> OfferedBefore(trades, SoldCommodity, r[i], r[j])
  {
    var cs := seq(|trades|, i requires 0 <= i < |trades| => trades[i].sellCommodityId);
    assert forall c :: c in cs <==> exists t :: t in trades && t.sellCommodityId == c by {
      forall t | t in trades ensures t.sellCommodityId in cs {
        var i :| 0 <= i < |trades| && trades[i] == t;
        assert cs[i] == t.sellCommodityId;
      }
      forall c | c in cs ensures exists t :: t in trades && t.sellCommodityId == c {
        var i :| 0 <= i < |cs| && cs[i] == c;
        assert trades[i] in trades;
      }
    }
    DistinctOffered(trades, SoldCommodity, cs);
    Distinct(cs)
  }

  /** `localTrades.map { it.buyCommodityId }.distinct()`: each commodity wanted at the station
      once, in the order it is first asked for. */
  function BuyCommodities(trades: seq<Trade>): (r: seq<string>)
    ensures forall c :: c in r <==> exists t :: t in trades && t.buyCommodityId == c
    ensures NoDuplicates(r)
    ensures forall i, j :: 0 <= i < j < |r| ==> OfferedBefore(trades, WantedCommodity, r[i], r[j])
  {
    var cs := seq(|trades|, i requires 0 <= i < |trades| => trades[i].buyCommodityId);
    assert forall c :: c in cs <==> exists t :: t in trades && t.buyCommodityId == c by {
      forall t | t in trades ensures t.buyCommodityId in cs {
        var i :| 0 <= i < |trades| && trades[i] == t;
        assert cs[i] == t.buyCommodityId;
      }
      forall c | c in cs ensures exists t :: t in trades && t.buyCommodityId == c {
        var i :| 0 <= i < |cs| && cs[i] == c;
        assert trades[i] in trades;
      }
    }
    DistinctOffered(trades, WantedCommodity, cs);
    Distinct(cs)
  }

  /** The inner `forEach` (lines 22-24): `sell` against every commodity of `buys`, in order,
      each pair cleared from the same `trades`. */
  function TradeBuys(s: Store, trades: seq<Trade>, sell: string, buys: seq<string>, ids: nat -> string, n: nat, now: int)
    : (r: Result<(Store, nat)>)
    requires AllPositive(trades)
    ensures r.Ok? ==> r.value.1 >= n && Keeps(s, r.value.0)
    ensures WellFormed(s) && AllHaveBuyStocks(s, Sellers(trades)) ==> r.Ok?
    decreases |buys|
  {
    if |buys| == 0 then Ok((s, n))
    else
      var p :- TradePair(s, trades, sell, buys[0], ids, n, now);
      assert WellFormed(s) && AllHaveBuyStocks(s, Sellers(trades)) ==> AllHaveBuyStocks(p.0, Sellers(trades)) by {
        if WellFormed(s) {
          KeepsBuyStocks(s, p.0, Sellers(trades));
        }
      }
      var r := TradeBuys(p.0, trades, sell, buys[1..], ids, p.1, now);
      KeepsChain(s, p.0, if r.Ok? then r.value.0 else p.0);
      r
  }

  /** The outer `forEach` (lines 21-25): every commodity of `sells` against every commodity of
      `buys`, each pair cleared from the same `trades`. */
  function TradeSells(s: Store, trades: seq<Trade>, sells: seq<string>, buys: seq<string>, ids: nat -> string, n: nat, now: int)
    : (r: Result<(Store, nat)>)
    requires AllPositive(trades)
    ensures r.Ok? ==> r.value.1 >= n && Keeps(s, r.value.0)
    ensures WellFormed(s) && AllHaveBuyStocks(s, Sellers(trades)) ==> r.Ok?
    decreases |sells|
  {
    if |sells| == 0 then Ok((s, n))
    else
      var p :- TradeBuys(s, trades, sells[0], buys, ids, n, now);
      assert WellFormed(s) && AllHaveBuyStocks(s, Sellers(trades)) ==> AllHaveBuyStocks(p.0, Sellers(trades)) by {
        if WellFormed(s) {
          KeepsBuyStocks(s, p.0, Sellers(trades));
        }
      }
      var r := TradeSells(p.0, trades, sells[1..], buys, ids, p.1, now);
      KeepsChain(s, p.0, if r.Ok? then r.value.0 else p.0);
      r
  }

  /** `tradeAtStation(station)` as written: the station's open offers are read once and every
      pair is cleared from that one reading, even after earlier pairs have used some of the
      offers up (see `StaleOfferTradedAgain`). */
  function TradeAtStation(s: Store, station: string, ids: nat -> string, n: nat, now: int): (r: Result<(Store, nat)>)
    requires PositiveOffers(s)
    ensures r.Ok? ==> r.value.1 >= n && Keeps(s, r.value.0)
    ensures WellFormed(s) && Supplied(s) ==> r.Ok?
  {
    var local := LocalTrades(s, station);
    TradeSells(s, local, SellCommodities(local), BuyCommodities(local), ids, n, now)
  }

  /** The corrected `tradeAtStation(station)`: each pair is cleared from the station's open
      offers as stored when that pair's turn comes, so an offer used up or reduced by one pair
      reaches the next as the store now holds it (see `ClearLoopKeepsBooksCurrent`). */
  function TradeAtStationFresh(s: Store, station: string, ids: nat -> string, n: nat, now: int): (r: Result<(Store, nat)>)
    requires PositiveOffers(s)
    ensures r.Ok? ==> r.value.1 >= n && Keeps(s, r.value.0)
    ensures WellFormed(s) && Supplied(s) ==> r.Ok?
  {
    var local := LocalTrades(s, station);
    FreshSells(s, station, SellCommodities(local), BuyCommodities(local), ids, n, now)
  }

  /** The inner loop of `TradeAtStationFresh`: each pair reads the station's offers anew. */
  function FreshBuys(s: Store, station: string, sell: string, buys: seq<string>, ids: nat -> string, n: nat, now: int)
    : (r: Result<(Store, nat)>)
    requires PositiveOffers(s)
    ensures r.Ok? ==> r.value.1 >= n && Keeps(s, r.value.0)
    ensures WellFormed(s) && Supplied(s) ==> r.Ok?
    decreases |buys|
  {
    if |buys| == 0 then Ok((s, n))
    else
      var p :- TradePair(s, LocalTrades(s, station), sell, buys[0], ids, n, now);
      var r := FreshBuys(p.0, station, sell, buys[1..], ids, p.1, now);
      KeepsChain(s, p.0, if r.Ok? then r.value.0 else p.0);
      r
  }

  /** The outer loop of `TradeAtStationFresh`. */
  function FreshSells(s: Store, station: string, sells: seq<string>, buys: seq<string>, ids: nat -> string, n: nat, now: int)
    : (r: Result<(Store, nat)>)
    requires PositiveOffers(s)
    ensures r.Ok? ==> r.value.1 >= n && Keeps(s, r.value.0)
    ensures WellFormed(s) && Supplied(s) ==> r.Ok?
    decreases |sells|
  {
    if |sells| == 0 then Ok((s, n))
    else
      var p :- FreshBuys(s, station, sells[0], buys, ids, n, now);
      var r := FreshSells(p.0, station, sells[1..], buys, ids, p.1, now);
      KeepsChain(s, p.0, if r.Ok? then r.value.0 else p.0);
      r
  }

  // ---------------------------------------------------------------------------------------
  // Every station (lines 13-15)

  /** `forEach { tradeAtStation(it) }` over `stations`, as written: each station step clears
      the books it read once at its start. */
  function TradeStations(s: Store, stations: seq<Station>, ids: nat -> string, n: nat, now: int): (r: Result<(Store, nat)>)
    requires PositiveOffers(s)
    ensures r.Ok? ==> r.value.1 >= n && Keeps(s, r.value.0)
    ensures WellFormed(s) && Supplied(s) ==> r.Ok?
    decreases |stations|
  {
    if |stations| == 0 then Ok((s, n))
    else
      var p :- TradeAtStation(s, stations[0].id, ids, n, now);
      var r := TradeStations(p.0, stations[1..], ids, p.1, now);
      KeepsChain(s, p.0, if r.Ok? then r.value.0 else p.0);
      r
  }

  /** `trade()`: every station of the registry, in the order they were stored. */
  function TradeAll(s: Store, ids: nat -> string, n: nat, now: int): (r: Result<(Store, nat)>)
    requires PositiveOffers(s)
    ensures r.Ok? ==> r.value.1 >= n && Keeps(s, r.value.0)
    ensures WellFormed(s) && Supplied(s) ==> r.Ok?
  {
    TradeStations(s, Stations(s, []), ids, n, now)
  }

  /** The station loop with the corrected station step, which reads the books afresh for every
      commodity pair. */
  function TradeStationsFresh(s: Store, stations: seq<Station>, ids: nat -> string, n: nat, now: int)
    : (r: Result<(Store, nat)>)
    requires PositiveOffers(s)
    ensures r.Ok? ==> r.value.1 >= n && Keeps(s, r.value.0)
    ensures WellFormed(s) && Supplied(s) ==> r.Ok?
    decreases |stations|
  {
    if |stations| == 0 then Ok((s, n))
    else
      var p :- TradeAtStationFresh(s, stations[0].id, ids, n, now);
      var r := TradeStationsFresh(p.0, stations[1..], ids, p.1, now);
      KeepsChain(s, p.0, if r.Ok? then r.value.0 else p.0);
      r
  }

  /** `trade()` with the corrected station step. */
  function TradeAllFresh(s: Store, ids: nat -> string, n: nat, now: int): (r: Result<(Store, nat)>)
    requires PositiveOffers(s)
    ensures r.Ok? ==> r.value.1 >= n && Keeps(s, r.value.0)
    ensures WellFormed(s) && Supplied(s) ==> r.Ok?
  {
    TradeStationsFresh(s, Stations(s, []), ids, n, now)
  }

  // ---------------------------------------------------------------------------------------
  // Timeouts (lines 106-120)

  /** `stocks[i]` is the first stock of `commodityId` in `stocks`. */
  predicate FirstAt(stocks: seq<Stock>, commodityId: string, i: int) {
    0 <= i < |stocks| && stocks[i].commodityId == commodityId && forall j :: 0 <= j < i ==> stocks[j].commodityId != commodityId
  }

  /** `first { it.commodityId == commodityId }`: the first stock of that commodity, or
      `NoSuchElementException` when there is none. */
  function FirstWithCommodity(stocks: seq<Stock>, commodityId: string): (r: Result<Stock>)
    ensures r.Ok? <==> exists i :: 0 <= i < |stocks| && stocks[i].commodityId == commodityId
    ensures r.Ok? ==> exists i :: FirstAt(stocks, commodityId, i) && stocks[i] == r.value
    ensures r.Fail? ==> r.error == NoSuchElement("stock of commodity " + commodityId)
    decreases |stocks|
  {
    if |stocks| == 0 then Fail(NoSuchElement("stock of commodity " + commodityId))
    else if stocks[0].commodityId == commodityId then
      assert FirstAt(stocks, commodityId, 0);
      Ok(stocks[0])
    else
      var r := FirstWithCommodity(stocks[1..], commodityId);
      assert r.Ok? ==> exists i :: FirstAt(stocks, commodityId, i) && stocks[i] == r.value by {
        if r.Ok? {
          var i :| FirstAt(stocks[1..], commodityId, i) && stocks[1..][i] == r.value;
          assert FirstAt(stocks, commodityId, i + 1) by {
            forall j | 0 <= j < i + 1 ensures stocks[j].commodityId != commodityId {
              if j > 0 {
                assert stocks[j] == stocks[1..][j - 1];
              }
            }
          }
        }
      }
      assert (exists i :: 0 <= i < |stocks| && stocks[i].commodityId == commodityId) ==> r.Ok? by {
        if exists i :: 0 <= i < |stocks| && stocks[i].commodityId == commodityId {
          var i :| 0 <= i < |stocks| && stocks[i].commodityId == commodityId;
          assert stocks[1..][i - 1].commodityId == commodityId;
        }
      }
      r
  }

  /** `trade.sellingBusiness.sellStocks.first { it.commodityId == trade.sellCommodityId }`: the
      stock a timed-out offer is refunded to, read from the registry. */
  function RefundStock(s: Store, t: Trade): (r: Result<Stock>)
    ensures r.Ok? ==> r.value.commodityId == t.sellCommodityId
    ensures WellFormed(s) && r.Ok? ==> Get(s.stockMap, r.value.id) == Some(r.value)
    ensures SellerStocks(s, t).Fail? ==> r.Fail?
    ensures SellerStocks(s, t).Ok? ==> var stocks := SellerStocks(s, t).value;
      && (r.Ok? <==> exists i :: 0 <= i < |stocks| && stocks[i].commodityId == t.sellCommodityId)
      && (r.Ok? ==> exists i :: FirstAt(stocks, t.sellCommodityId, i) && stocks[i] == r.value)
  {
    var stocks :- SellerStocks(s, t);
    FirstWithCommodity(stocks, t.sellCommodityId)
  }

  /** `trade.sellingBusiness.sellStocks`: the seller's sell stocks as stored, in the order the
      seller lists them. */
  function SellerStocks(s: Store, t: Trade): (r: Result<seq<Stock>>)
    ensures r.Ok? <==> SellingBusiness(s, t).Ok? && SellStocks(s, SellingBusiness(s, t).value).Ok?
    ensures r.Ok? ==> r == SellStocks(s, SellingBusiness(s, t).value)
  {
    var b :- SellingBusiness(s, t);
    SellStocks(s, b)
  }

  /** `timeoutTrade(trade)`: a closed trade is left alone (the source reports it and returns);
      an open one is refunded to the first sell stock of its seller holding the commodity it
      sells, and deleted. It fails iff that stock cannot be found. Only that stock and that
      trade change. */
  function TimeoutTrade(s: Store, t: Trade): (r: Result<Store>)
    ensures t.IsClosed() ==> r == Ok(s)
    ensures t.IsActive() ==> (r.Ok? <==> RefundStock(s, t).Ok?)
    ensures t.IsActive() && r.Ok? ==> var x := RefundStock(s, t).value;
      r.value == Refunded(s, x, t.sellAmount, t.id)
    ensures r.Ok? && t.IsActive() && WellFormed(s) ==> Get(r.value.tradeMap, t.id).None?
    ensures r.Ok? && WellFormed(s) ==> forall id :: id != t.id ==> Get(r.value.tradeMap, id) == Get(s.tradeMap, id)
    ensures r.Ok? && WellFormed(s) ==> WellFormed(r.value) && OnlyStocksAndTradesUpdated(s, r.value)
    ensures r.Ok? && t.sellAmount >= 0 ==> Keeps(s, r.value)
  {
    if t.IsClosed() then Ok(s)
    else
      var x :- RefundStock(s, t);
      var s1 := Credit(s, x, t.sellAmount);
      AddStockIsPut(s, Grown(x, t.sellAmount));
      DeleteTradeIsRemove(s1, t);
      var r := DeleteObject(s1, TradeObj(t)).0;
      TimeoutKeeps(s, x, t.sellAmount, t.id);
      Ok(r)
  }

  /** The store after refunding `amount` to `x` and removing the trade `id`. */
  function Refunded(s: Store, x: Stock, amount: int, id: string): Store {
    s.(stockMap := Put(s.stockMap, x.id, Grown(x, amount)), tradeMap := Remove(s.tradeMap, id).0)
  }

  /** Refunding `amount` to a stored stock and removing the trade `id` keeps the store's
      invariants. */
  lemma TimeoutKeeps(s: Store, x: Stock, amount: int, id: string)
    requires WellFormed(s) ==> Get(s.stockMap, x.id) == Some(x)
    ensures WellFormed(s) ==> WellFormed(Refunded(s, x, amount, id)) && OnlyStocksAndTradesUpdated(s, Refunded(s, x, amount, id))
    ensures amount >= 0 ==> Keeps(s, Refunded(s, x, amount, id))
  {
    RefundedFrame(s, x, amount, id);
    RefundedPositive(s, x, amount, id);
    if WellFormed(s) && Supplied(s) {
      RefundedSupplied(s, x, amount, id);
    }
    RefundedNonNegative(s, x, amount, id);
  }

  lemma RefundedPositive(s: Store, x: Stock, amount: int, id: string)
    ensures PositiveOffers(s) ==> PositiveOffers(Refunded(s, x, amount, id))
  {
    RemoveValues(s.tradeMap, id);
  }

  lemma RefundedNonNegative(s: Store, x: Stock, amount: int, id: string)
    requires WellFormed(s) ==> Get(s.stockMap, x.id) == Some(x)
    ensures Invariant(s) && amount >= 0 ==> NonNegativeStocks(Refunded(s, x, amount, id))
  {
    if Invariant(s) && amount >= 0 {
      PutStockKeepsNonNegative(s, Grown(x, amount));
    }
  }

  lemma RefundedFrame(s: Store, x: Stock, amount: int, id: string)
    requires WellFormed(s) ==> Get(s.stockMap, x.id) == Some(x)
    ensures WellFormed(s) ==> WellFormed(Refunded(s, x, amount, id)) && OnlyStocksAndTradesUpdated(s, Refunded(s, x, amount, id))
  {
    if WellFormed(s) {
      PutKeyedBy(s.stockMap, Grown(x, amount), StockId);
      RemoveKeyedBy(s.tradeMap, id, TradeId);
    }
  }

  lemma RefundedSupplied(s: Store, x: Stock, amount: int, id: string)
    requires WellFormed(s) && Get(s.stockMap, x.id) == Some(x) && Supplied(s)
    ensures Supplied(Refunded(s, x, amount, id))
  {
    var r := Refunded(s, x, amount, id);
    RefundedFrame(s, x, amount, id);
    RemoveValues(s.tradeMap, id);
    forall t | t in Values(r.tradeMap) ensures HasBuyStock(r, t.sellingBusinessId) {
      FrameKeepsBuyStock(s, r, t.sellingBusinessId);
    }
  }

  /** No open offer of `ts` has the id `id`. */
  predicate Untouched(ts: seq<Trade>, id: string) {
    forall i :: 0 <= i < |ts| && ts[i].IsActive() ==> ts[i].id != id
  }

  /** Every offer of `ts` is for a non-negative amount. */
  predicate NonNegativeAmounts(ts: seq<Trade>) {
    forall i :: 0 <= i < |ts| ==> ts[i].sellAmount >= 0
  }

  /** `forEach(::timeoutTrade)` over `ts`: the open offers among them are refunded and
      deleted, in order; nothing else in the trade table changes. The first refund that fails
      aborts the rest. */
  function TimeoutAll(s: Store, ts: seq<Trade>): (r: Result<Store>)
    ensures r.Ok? && WellFormed(s) ==> WellFormed(r.value) && OnlyStocksAndTradesUpdated(s, r.value)
    ensures r.Ok? && NonNegativeAmounts(ts) ==> Keeps(s, r.value)
    ensures r.Ok? && WellFormed(s) ==> forall i :: 0 <= i < |ts| && ts[i].IsActive() ==> Get(r.value.tradeMap, ts[i].id).None?
    ensures r.Ok? && WellFormed(s) ==> forall id :: Untouched(ts, id) ==> Get(r.value.tradeMap, id) == Get(s.tradeMap, id)
    decreases |ts|
  {
    if |ts| == 0 then Ok(s)
    else
      var s1 :- TimeoutTrade(s, ts[0]);
      var r := TimeoutAll(s1, ts[1..]);
      if r.Ok? then
        TimeoutAllFacts(s, s1, r.value, ts);
        r
      else r
  }

  lemma TimeoutAllFacts(s: Store, s1: Store, r: Store, ts: seq<Trade>)
    requires |ts| > 0
    requires WellFormed(s) ==> WellFormed(s1) && OnlyStocksAndTradesUpdated(s, s1)
    requires ts[0].sellAmount >= 0 ==> Keeps(s, s1)
    requires ts[0].IsClosed() ==> s1 == s
    requires ts[0].IsActive() && WellFormed(s) ==> Get(s1.tradeMap, ts[0].id).None?
    requires WellFormed(s) ==> forall id :: id != ts[0].id ==> Get(s1.tradeMap, id) == Get(s.tradeMap, id)
    requires WellFormed(s1) ==> WellFormed(r) && OnlyStocksAndTradesUpdated(s1, r)
    requires NonNegativeAmounts(ts[1..]) ==> Keeps(s1, r)
    requires WellFormed(s1) ==> forall i :: 0 <= i < |ts[1..]| && ts[1..][i].IsActive() ==> Get(r.tradeMap, ts[1..][i].id).None?
    requires WellFormed(s1) ==> forall id :: Untouched(ts[1..], id) ==> Get(r.tradeMap, id) == Get(s1.tradeMap, id)
    ensures WellFormed(s) ==> WellFormed(r) && OnlyStocksAndTradesUpdated(s, r)
    ensures NonNegativeAmounts(ts) ==> Keeps(s, r)
    ensures WellFormed(s) ==> forall i :: 0 <= i < |ts| && ts[i].IsActive() ==> Get(r.tradeMap, ts[i].id).None?
    ensures WellFormed(s) ==> forall id :: Untouched(ts, id) ==> Get(r.tradeMap, id) == Get(s.tradeMap, id)
  {
    OnlyStocksAndTradesUpdatedChain(s, s1, r);
    if NonNegativeAmounts(ts) {
      assert NonNegativeAmounts(ts[1..]) by {
        forall i | 0 <= i < |ts[1..]| ensures ts[1..][i].sellAmount >= 0 {
          assert ts[1..][i] == ts[i + 1];
        }
      }
      KeepsChain(s, s1, r);
    }
    if WellFormed(s) {
      TimeoutAllStep(s, s1, r, ts);
    }
  }

  /** The trade table after the first timeout and after the rest combine as `TimeoutAll`
      promises. */
  lemma TimeoutAllStep(s: Store, s1: Store, r: Store, ts: seq<Trade>)
    requires |ts| > 0
    requires ts[0].IsActive() ==> Get(s1.tradeMap, ts[0].id).None?
    requires forall id :: ts[0].IsClosed() || id != ts[0].id ==> Get(s1.tradeMap, id) == Get(s.tradeMap, id)
    requires forall i :: 0 <= i < |ts[1..]| && ts[1..][i].IsActive() ==> Get(r.tradeMap, ts[1..][i].id).None?
    requires forall id :: Untouched(ts[1..], id) ==> Get(r.tradeMap, id) == Get(s1.tradeMap, id)
    ensures forall i :: 0 <= i < |ts| && ts[i].IsActive() ==> Get(r.tradeMap, ts[i].id).None?
    ensures forall id :: Untouched(ts, id) ==> Get(r.tradeMap, id) == Get(s.tradeMap, id)
  {
    forall i | 0 <= i < |ts| && ts[i].IsActive() ensures Get(r.tradeMap, ts[i].id).None? {
      if i > 0 {
        assert ts[1..][i - 1] == ts[i];
      } else if !Untouched(ts[1..], ts[0].id) {
        var j :| 0 <= j < |ts[1..]| && ts[1..][j].IsActive() && ts[1..][j].id == ts[0].id;
      }
    }
    forall id | Untouched(ts, id) ensures Get(r.tradeMap, id) == Get(s.tradeMap, id) {
      assert Untouched(ts[1..], id) by {
        forall j | 0 <= j < |ts[1..]| && ts[1..][j].IsActive() ensures ts[1..][j].id != id {
          assert ts[1..][j] == ts[j + 1];
        }
      }
    }
  }

  /** An open offer whose time is up at `now`. */
  predicate Expired(t: Trade, now: int) {
    t.IsActive() && t.timestamp + t.tradeLength < now
  }

  /** `registry.trades(isActive(), isTimedOut())`: the open offers whose time is up. */
  function TimedOutTrades(s: Store, now: int): (r: seq<Trade>)
    ensures forall t :: t in r <==> t in Values(s.tradeMap) && Expired(t, now)
    ensures forall i :: 0 <= i < |r| ==> r[i].IsActive()
    ensures PositiveOffers(s) ==> NonNegativeAmounts(r)
  {
    var ms := [IsActive(), IsTimedOut(now)];
    var r := Trades(s, ms);
    forall t ensures t in r <==> t in Values(s.tradeMap) && Expired(t, now) {
      assert AllOf(ms)(t) <==> ms[0](t) && ms[1](t);
    }
    forall i | 0 <= i < |r| ensures r[i] in Values(s.tradeMap) && Expired(r[i], now) {
      assert r[i] in r;
    }
    r
  }

  /** `timeoutTrades()` (lines 106-108): every open offer whose time is up is refunded and
      deleted. Afterwards no open offer has timed out, and every other trade is still stored. */
  function TimeoutTrades(s: Store, now: int): (r: Result<Store>)
    ensures r.Ok? && WellFormed(s) ==> WellFormed(r.value) && OnlyStocksAndTradesUpdated(s, r.value)
    ensures r.Ok? && PositiveOffers(s) ==> Keeps(s, r.value)
    ensures r.Ok? && WellFormed(s) ==> forall t :: t in Values(r.value.tradeMap) ==> !Expired(t, now)
    ensures r.Ok? && WellFormed(s) ==> forall t :: t in Values(s.tradeMap) && !Expired(t, now) ==> t in Values(r.value.tradeMap)
    ensures r.Ok? && WellFormed(s) ==> forall id ::
      Get(r.value.stockMap, id) == GrownEntry(Get(s.stockMap, id), RefundTotal(s, TimedOutTrades(s, now), id))
  {
    var ts := TimedOutTrades(s, now);
    var r := TimeoutAll(s, ts);
    if r.Ok? then
      TimeoutTradesFacts(s, r.value, ts, now);
      TimeoutAllGrowsEverywhere(s, ts);
      r
    else r
  }

  lemma TimeoutTradesFacts(s: Store, r: Store, ts: seq<Trade>, now: int)
    requires WellFormed(s) ==> WellFormed(r)
    requires forall t :: t in ts <==> t in Values(s.tradeMap) && Expired(t, now)
    requires WellFormed(s) ==> forall i :: 0 <= i < |ts| && ts[i].IsActive() ==> Get(r.tradeMap, ts[i].id).None?
    requires WellFormed(s) ==> forall id :: Untouched(ts, id) ==> Get(r.tradeMap, id) == Get(s.tradeMap, id)
    ensures WellFormed(s) ==> forall t :: t in Values(r.tradeMap) ==> !Expired(t, now)
    ensures WellFormed(s) ==> forall t :: t in Values(s.tradeMap) && !Expired(t, now) ==> t in Values(r.tradeMap)
  {
    if !WellFormed(s) {
      return;
    }
    forall t | t in Values(r.tradeMap) ensures !Expired(t, now) {
      GetValue(r.tradeMap, t, TradeId);
      if Untouched(ts, t.id) {
        GetInValues(s.tradeMap, t.id);
      }
    }
    forall t | t in Values(s.tradeMap) && !Expired(t, now) ensures t in Values(r.tradeMap) {
      GetValue(s.tradeMap, t, TradeId);
      assert Untouched(ts, t.id) by {
        forall i | 0 <= i < |ts| && ts[i].IsActive() ensures ts[i].id != t.id {
          assert ts[i] in ts;
          GetValue(s.tradeMap, ts[i], TradeId);
        }
      }
      GetInValues(r.tradeMap, t.id);
    }
  }

  // ---------------------------------------------------------------------------------------
  // What the timeouts refund

  /** The total that timing out `ts` in `s` refunds to the stock `id`: the amounts of the open
      offers among them whose refund stock in `s` is that stock. */
  function RefundTotal(s: Store, ts: seq<Trade>, id: string): int
    decreases |ts|
  {
    if |ts| == 0 then 0
    else
      var t := ts[0];
      (if t.IsActive() && RefundStock(s, t).Ok? && RefundStock(s, t).value.id == id then t.sellAmount else 0)
      + RefundTotal(s, ts[1..], id)
  }

  /** `s1` differs from `s` at most in the amounts of stocks and in trades: the same businesses,
      and the same stocks apart from their amounts. */
  ghost predicate AmountsOnly(s: Store, s1: Store) {
    && s1.businessMap == s.businessMap
    && (forall k :: Get(s1.stockMap, k).Some? <==> Get(s.stockMap, k).Some?)
    && (forall k :: Get(s.stockMap, k).Some? && Get(s1.stockMap, k).Some? ==>
          Get(s1.stockMap, k).value == Get(s.stockMap, k).value.(amount := Get(s1.stockMap, k).value.amount))
  }

  /** Only one stock can be the first of a commodity, among stocks listing the same
      commodities. */
  lemma FirstAtUnique(xs: seq<Stock>, ys: seq<Stock>, c: string, i: int, j: int)
    requires |xs| == |ys| && forall k :: 0 <= k < |xs| ==> xs[k].commodityId == ys[k].commodityId
    requires FirstAt(xs, c, i) && FirstAt(ys, c, j)
    ensures i == j
  { }

  /** The same businesses give the same selling business. */
  lemma SellingBusinessSame(s: Store, s1: Store, t: Trade)
    requires WellFormed(s) && WellFormed(s1) && s1.businessMap == s.businessMap
    ensures SellingBusiness(s1, t) == SellingBusiness(s, t)
  { }

  /** Changing stock amounts keeps a business's sell stocks listed with the same ids and
      commodities, or missing in both stores. */
  lemma SellStocksSame(s: Store, s1: Store, b: Business)
    requires WellFormed(s) && WellFormed(s1) && AmountsOnly(s, s1)
    ensures SellStocks(s1, b).Ok? == SellStocks(s, b).Ok?
    ensures SellStocks(s, b).Ok? ==>
      var xs, ys := SellStocks(s, b).value, SellStocks(s1, b).value;
      |xs| == |ys| && forall k :: 0 <= k < |xs| ==> xs[k].commodityId == ys[k].commodityId && xs[k].id == ys[k].id
  {
    var xs, ys := SellStocks(s, b), SellStocks(s1, b);
    if xs.Ok? {
      forall k | 0 <= k < |b.sellStockIds| ensures Get(s1.stockMap, b.sellStockIds[k]).Some? {
        assert Get(s.stockMap, b.sellStockIds[k]).Some?;
      }
      forall k | 0 <= k < |xs.value|
        ensures xs.value[k].commodityId == ys.value[k].commodityId && xs.value[k].id == ys.value[k].id
      {
        var id := b.sellStockIds[k];
        assert Get(s.stockMap, id) == Some(xs.value[k]);
        assert Get(s1.stockMap, id) == Some(ys.value[k]);
      }
    }
  }

  /** Changing stock amounts does not move a refund: the same offer is refunded to the same
      stock, or cannot be refunded in either store. */
  lemma RefundStockSame(s: Store, s1: Store, t: Trade)
    requires WellFormed(s) && WellFormed(s1) && AmountsOnly(s, s1)
    ensures RefundStock(s1, t).Ok? == RefundStock(s, t).Ok?
    ensures RefundStock(s, t).Ok? ==> RefundStock(s1, t).value.id == RefundStock(s, t).value.id
  {
    SellingBusinessSame(s, s1, t);
    var b := SellingBusiness(s, t);
    if b.Ok? {
      SellStocksSame(s, s1, b.value);
      var xs, ys := SellerStocks(s, t), SellerStocks(s1, t);
      if xs.Ok? {
        var c := t.sellCommodityId;
        var r, r1 := RefundStock(s, t), RefundStock(s1, t);
        if r.Ok? {
          var i :| FirstAt(xs.value, c, i) && xs.value[i] == r.value;
          assert xs.value[i].commodityId == ys.value[i].commodityId;
          var j :| FirstAt(ys.value, c, j) && ys.value[j] == r1.value;
          FirstAtUnique(xs.value, ys.value, c, i, j);
        }
      }
    }
  }

  /** The totals agree in two stores that differ only in stock amounts. */
  lemma {:induction false} RefundTotalSame(s: Store, s1: Store, ts: seq<Trade>, id: string)
    requires WellFormed(s) && WellFormed(s1) && AmountsOnly(s, s1)
    ensures RefundTotal(s1, ts, id) == RefundTotal(s, ts, id)
    decreases |ts|
  {
    if |ts| > 0 {
      RefundStockSame(s, s1, ts[0]);
      RefundTotalSame(s, s1, ts[1..], id);
    }
  }

  /** One timeout grows the refund stock of an open offer by its amount and no other stock. */
  lemma TimeoutTradeGrows(s: Store, t: Trade, id: string)
    requires WellFormed(s) && TimeoutTrade(s, t).Ok?
    ensures var r := TimeoutTrade(s, t).value;
      && WellFormed(r) && AmountsOnly(s, r)
      && Get(r.stockMap, id) == GrownEntry(Get(s.stockMap, id),
           if t.IsActive() && RefundStock(s, t).Ok? && RefundStock(s, t).value.id == id then t.sellAmount else 0)
  {
    if t.IsActive() {
      var x := RefundStock(s, t).value;
      RefundedGrows(s, x, t.sellAmount, t.id, id);
      RefundedAmountsOnly(s, x, t.sellAmount, t.id);
    } else {
      match Get(s.stockMap, id)
      case None =>
      case Some(x) => assert Grown(x, 0) == x;
    }
  }

  /** A refund grows the refunded stock and leaves every other stock as it was. */
  lemma RefundedGrows(s: Store, x: Stock, amount: int, id: string, k: string)
    requires Get(s.stockMap, x.id) == Some(x)
    ensures Get(Refunded(s, x, amount, id).stockMap, k) == GrownEntry(Get(s.stockMap, k), if k == x.id then amount else 0)
  {
    if k != x.id {
      match Get(s.stockMap, k)
      case None =>
      case Some(y) => assert Grown(y, 0) == y;
    }
  }

  /** A refund changes the amount of one stock only. */
  lemma RefundedAmountsOnly(s: Store, x: Stock, amount: int, id: string)
    requires Get(s.stockMap, x.id) == Some(x)
    ensures AmountsOnly(s, Refunded(s, x, amount, id))
  {
    var r := Refunded(s, x, amount, id);
    forall k | Get(s.stockMap, k).Some? && Get(r.stockMap, k).Some?
      ensures Get(r.stockMap, k).value == Get(s.stockMap, k).value.(amount := Get(r.stockMap, k).value.amount)
    {
      RefundedGrows(s, x, amount, id, k);
    }
  }

  /** `TimeoutAllGrows` for every stock id at once. */
  lemma TimeoutAllGrowsEverywhere(s: Store, ts: seq<Trade>)
    ensures WellFormed(s) && TimeoutAll(s, ts).Ok? ==> forall id ::
      Get(TimeoutAll(s, ts).value.stockMap, id) == GrownEntry(Get(s.stockMap, id), RefundTotal(s, ts, id))
  {
    forall id {
      TimeoutAllGrows(s, ts, id);
    }
  }

  /** After timing out `ts`, each stock has grown by the total refunded to it, so offers
      refunded to the same stock add up. */
  lemma {:induction false} TimeoutAllGrows(s: Store, ts: seq<Trade>, id: string)
    ensures WellFormed(s) && TimeoutAll(s, ts).Ok? ==>
      Get(TimeoutAll(s, ts).value.stockMap, id) == GrownEntry(Get(s.stockMap, id), RefundTotal(s, ts, id))
    decreases |ts|
  {
    if WellFormed(s) && TimeoutAll(s, ts).Ok? {
      if |ts| == 0 {
        match Get(s.stockMap, id)
        case None =>
        case Some(x) => assert Grown(x, 0) == x;
      } else {
        var t := ts[0];
        var s1 := TimeoutTrade(s, t).value;
        assert TimeoutAll(s, ts) == TimeoutAll(s1, ts[1..]);
        TimeoutTradeGrows(s, t, id);
        TimeoutAllGrows(s1, ts[1..], id);
        RefundTotalSame(s, s1, ts[1..], id);
        var a := if t.IsActive() && RefundStock(s, t).Ok? && RefundStock(s, t).value.id == id then t.sellAmount else 0;
        GrownEntryChain(Get(TimeoutAll(s, ts).value.stockMap, id), Get(s1.stockMap, id), Get(s.stockMap, id),
                        a, RefundTotal(s, ts[1..], id), RefundTotal(s, ts, id));
      }
    }
  }

  // ---------------------------------------------------------------------------------------
  // The step (lines 8-11)

  /** `runTradeStep()`: every station trades, then the offers whose time is up are refunded.
      Deal ids are taken from `ids(n)` on and the index of the next unused one is returned.
      Only trades and stock amounts change, the invariants are kept, and afterwards no open
      offer has timed out. */
  function RunTradeStep(s: Store, ids: nat -> string, n: nat, now: int): (r: Result<(Store, nat)>)
    requires PositiveOffers(s)
    ensures r.Ok? ==> r.value.1 >= n && Keeps(s, r.value.0)
    ensures r.Ok? && WellFormed(s) ==> forall t :: t in Values(r.value.0.tradeMap) ==> !Expired(t, now)
  {
    var p :- TradeAll(s, ids, n, now);
    var r :- TimeoutTrades(p.0, now);
    KeepsChain(s, p.0, r);
    Ok((r, p.1))
  }
}
