/** One tick of the economy, as the programs drive it: production, then the businesses'
    quotes, then the market's trade step (CommandLineProgram.kt, GUIProgram.kt).

    Each step reads and writes the one store. A step that raises aborts the tick; the
    programs' loops do not catch, so the model returns the error.
 */
module Simulation {
  import opened Results
  import opened RegistryObjects
  import opened LinkedMap
  import opened DataStore
  import opened Producer
  import opened Business
  import opened Market
  import opened MarketStep

  /** Every production unit produces a non-negative amount. */
  ghost predicate NonNegativeProduction(s: Store) {
    forall u :: u in Values(s.productionUnitMap) ==> u.productionAmount >= 0
  }

  /** Production touches only stocks, so the offers stay as they were and stocks stay
      non-negative when every unit produces a non-negative amount. */
  lemma ProductionKeeps(s: Store)
    requires WellFormed(s) && RunProductionStep(s).Ok?
    ensures var p := RunProductionStep(s).value;
      && WellFormed(p) && OnlyStocksAndTradesUpdated(s, p)
      && (PositiveOffers(s) ==> PositiveOffers(p))
      && (NonNegativeStocks(s) && NonNegativeProduction(s) ==> NonNegativeStocks(p))
  {
    var p := RunProductionStep(s).value;
    assert forall k :: Get(p.stockMap, k).Some? <==> Get(s.stockMap, k).Some? by {
      forall k ensures Get(p.stockMap, k).Some? <==> Get(s.stockMap, k).Some? {
        KeyedGet(p.stockMap, StockId, k);
        KeyedGet(s.stockMap, StockId, k);
      }
    }
    if NonNegativeStocks(s) && NonNegativeProduction(s) {
      ProductionKeepsStocksNonNegative(s);
    }
  }

  /** One tick: production, business, trade. The business step stamps its offers with the
      clock reading `quoteNow`; the trade step reads the clock again, as `tradeNow`, to time
      offers out. On success the store stays well formed, open offers stay positive, only
      stocks and trades have changed, and no open offer has run past its length at `tradeNow`;
      with non-negative production, stocks stay non-negative. A production unit without its
      stock aborts the tick. */
  function Tick(s: Store, draws: nat -> Draw, ids: nat -> string, n: nat, quoteNow: int, tradeNow: int)
    : (r: Result<(Store, nat)>)
    requires WellFormed(s) && PositiveOffers(s)
    ensures r.Ok? ==> WellFormed(r.value.0) && PositiveOffers(r.value.0)
    ensures r.Ok? ==> OnlyStocksAndTradesUpdated(s, r.value.0)
    ensures r.Ok? && NonNegativeStocks(s) && NonNegativeProduction(s) ==> NonNegativeStocks(r.value.0)
    ensures r.Ok? ==> forall t :: t in Values(r.value.0.tradeMap) ==> !Expired(t, tradeNow)
    ensures !Producer.StocksExist(s, Values(s.productionUnitMap)) ==> r.Fail?
  {
    var p :- RunProductionStep(s);
    ProductionKeeps(s);
    var t :- QuoteThenTrade(p, draws, ids, n, quoteNow, tradeNow);
    OnlyStocksAndTradesUpdatedChain(s, p, t.0);
    Ok(t)
  }

  /** The business step at clock reading `quoteNow` and then the trade step at `tradeNow`, on
      the produced store. */
  function QuoteThenTrade(p: Store, draws: nat -> Draw, ids: nat -> string, n: nat, quoteNow: int, tradeNow: int)
    : (r: Result<(Store, nat)>)
    requires WellFormed(p) && PositiveOffers(p)
    ensures r.Ok? ==> WellFormed(r.value.0) && PositiveOffers(r.value.0)
    ensures r.Ok? ==> OnlyStocksAndTradesUpdated(p, r.value.0)
    ensures r.Ok? && NonNegativeStocks(p) ==> NonNegativeStocks(r.value.0)
    ensures r.Ok? ==> forall t :: t in Values(r.value.0.tradeMap) ==> !Expired(t, tradeNow)
  {
    var b :- RunBusinessStep(p, draws, ids, quoteNow, n);
    var t :- RunTradeStep(b.0, ids, b.1, tradeNow);
    OnlyStocksAndTradesUpdatedChain(p, b.0, t.0);
    Ok(t)
  }
}
