/** The in-memory registry (CommandLineProgram/.../RegistryDataStore.kt): one insertion-ordered
    map per record kind, keyed by record id. Storing a record replaces the one with the same id
    of the same kind; queries list a kind's records in map order, filtered by matchers.
 */
module DataStore {
  import opened Results
  import opened Sequences
  import opened RegistryObjects
  import opened Matcher
  import opened LinkedMap

  datatype Store = Store(
    commodityMap: LinkedMap<Commodity>,
    entityMap: LinkedMap<Entity>,
    businessMap: LinkedMap<Business>,
    productionUnitMap: LinkedMap<ProductionUnit>,
    stationMap: LinkedMap<Station>,
    stockMap: LinkedMap<Stock>,
    tradeMap: LinkedMap<Trade>)

  /** A freshly constructed store holds nothing. */
  const Empty: Store := Store([], [], [], [], [], [], [])

  /** A table whose keys are unique and each the id of the record stored under it. */
  ghost predicate Keyed<V>(m: LinkedMap<V>, id: V -> string) {
    KeysUnique(m) && KeyedBy(m, id)
  }

  /** What every store built with `Add` and `Delete` satisfies. */
  ghost predicate WellFormed(s: Store) {
    && Keyed(s.commodityMap, CommodityId)
    && Keyed(s.entityMap, EntityId)
    && Keyed(s.businessMap, BusinessId)
    && Keyed(s.productionUnitMap, ProductionUnitId)
    && Keyed(s.stationMap, StationId)
    && Keyed(s.stockMap, StockId)
    && Keyed(s.tradeMap, TradeId)
  }

  /** The record of the given kind stored under `id`. */
  function Find(s: Store, kind: Kind, id: string): Option<RegistryObject> {
    match kind
    case CommodityKind => (match Get(s.commodityMap, id) case Some(x) => Some(CommodityObj(x)) case None => None)
    case EntityKind => (match Get(s.entityMap, id) case Some(x) => Some(EntityObj(x)) case None => None)
    case BusinessKind => (match Get(s.businessMap, id) case Some(x) => Some(BusinessObj(x)) case None => None)
    case ProductionUnitKind => (match Get(s.productionUnitMap, id) case Some(x) => Some(ProductionUnitObj(x)) case None => None)
    case StationKind => (match Get(s.stationMap, id) case Some(x) => Some(StationObj(x)) case None => None)
    case StockKind => (match Get(s.stockMap, id) case Some(x) => Some(StockObj(x)) case None => None)
    case TradeKind => (match Get(s.tradeMap, id) case Some(x) => Some(TradeObj(x)) case None => None)
  }

  /** In a well-formed store, what `Find` finds has the kind and id it was asked for. */
  lemma FindHits(s: Store, kind: Kind, id: string)
    ensures WellFormed(s) && Find(s, kind, id).Some? ==> KindOf(Find(s, kind, id).value) == kind && IdOf(Find(s, kind, id).value) == id
  {
    match kind
    case CommodityKind => KeyedGet(s.commodityMap, CommodityId, id);
    case EntityKind => KeyedGet(s.entityMap, EntityId, id);
    case BusinessKind => KeyedGet(s.businessMap, BusinessId, id);
    case ProductionUnitKind => KeyedGet(s.productionUnitMap, ProductionUnitId, id);
    case StationKind => KeyedGet(s.stationMap, StationId, id);
    case StockKind => KeyedGet(s.stockMap, StockId, id);
    case TradeKind => KeyedGet(s.tradeMap, TradeId, id);
  }

  /** In a keyed table, the value found under `k` has id `k`. */
  lemma KeyedGet<V>(m: LinkedMap<V>, id: V -> string, k: string)
    ensures Keyed(m, id) && Get(m, k).Some? ==> id(Get(m, k).value) == k
  {
    if Keyed(m, id) && Get(m, k).Some? {
      var i := IndexOf(m, k).value;
      assert m[i].0 == k;
    }
  }

  /** `add(obj)`: stores `obj` under its id in the table of its kind. Afterwards exactly that
      (kind, id) finds `obj`; every other (kind, id) finds what it found before. */
  function Add(s: Store, obj: RegistryObject): (r: Store)
    ensures Find(r, KindOf(obj), IdOf(obj)) == Some(obj)
    ensures forall kind, id :: kind != KindOf(obj) || id != IdOf(obj) ==> Find(r, kind, id) == Find(s, kind, id)
    ensures WellFormed(s) ==> WellFormed(r)
    ensures obj.StockObj? ==> r == s.(stockMap := Put(s.stockMap, obj.stock.id, obj.stock))
    ensures obj.TradeObj? ==> r == s.(tradeMap := Put(s.tradeMap, obj.trade.id, obj.trade))
  {
    AddFinds(s, obj);
    Stored(s, obj)
  }

  /** The table update behind `Add`. */
  function Stored(s: Store, obj: RegistryObject): Store {
    match obj
    case CommodityObj(x) => s.(commodityMap := Put(s.commodityMap, x.id, x))
    case EntityObj(x) => s.(entityMap := Put(s.entityMap, x.id, x))
    case BusinessObj(x) => s.(businessMap := Put(s.businessMap, x.id, x))
    case ProductionUnitObj(x) => s.(productionUnitMap := Put(s.productionUnitMap, x.id, x))
    case StationObj(x) => s.(stationMap := Put(s.stationMap, x.id, x))
    case StockObj(x) => s.(stockMap := Put(s.stockMap, x.id, x))
    case TradeObj(x) => s.(tradeMap := Put(s.tradeMap, x.id, x))
  }

  lemma AddFinds(s: Store, obj: RegistryObject)
    ensures Find(Stored(s, obj), KindOf(obj), IdOf(obj)) == Some(obj)
    ensures forall kind, id :: kind != KindOf(obj) || id != IdOf(obj) ==> Find(Stored(s, obj), kind, id) == Find(s, kind, id)
    ensures WellFormed(s) ==> WellFormed(Stored(s, obj))
  {
    forall kind, id ensures Find(Stored(s, obj), kind, id) == if kind == KindOf(obj) && id == IdOf(obj) then Some(obj) else Find(s, kind, id) {
      StoredFind(s, obj, kind, id);
    }
    match obj
    case CommodityObj(x) => PutKeyedBy(s.commodityMap, x, CommodityId);
    case EntityObj(x) => PutKeyedBy(s.entityMap, x, EntityId);
    case BusinessObj(x) => PutKeyedBy(s.businessMap, x, BusinessId);
    case ProductionUnitObj(x) => PutKeyedBy(s.productionUnitMap, x, ProductionUnitId);
    case StationObj(x) => PutKeyedBy(s.stationMap, x, StationId);
    case StockObj(x) => PutKeyedBy(s.stockMap, x, StockId);
    case TradeObj(x) => PutKeyedBy(s.tradeMap, x, TradeId);
  }

  lemma StoredFind(s: Store, obj: RegistryObject, kind: Kind, id: string)
    ensures Find(Stored(s, obj), kind, id) == if kind == KindOf(obj) && id == IdOf(obj) then Some(obj) else Find(s, kind, id)
  {
    if kind != KindOf(obj) {
      FindFrame(Stored(s, obj), s, kind, id);
    } else {
      match obj
      case CommodityObj(x) => StoredCommodityFind(s, x, id);
      case EntityObj(x) => StoredEntityFind(s, x, id);
      case BusinessObj(x) => StoredBusinessFind(s, x, id);
      case ProductionUnitObj(x) => StoredProductionUnitFind(s, x, id);
      case StationObj(x) => StoredStationFind(s, x, id);
      case StockObj(x) => StoredStockFind(s, x, id);
      case TradeObj(x) => StoredTradeFind(s, x, id);
    }
  }

  /** `Find` on a kind reads only that kind's table. */
  lemma FindFrame(s: Store, t: Store, kind: Kind, id: string)
    requires kind == CommodityKind ==> s.commodityMap == t.commodityMap
    requires kind == EntityKind ==> s.entityMap == t.entityMap
    requires kind == BusinessKind ==> s.businessMap == t.businessMap
    requires kind == ProductionUnitKind ==> s.productionUnitMap == t.productionUnitMap
    requires kind == StationKind ==> s.stationMap == t.stationMap
    requires kind == StockKind ==> s.stockMap == t.stockMap
    requires kind == TradeKind ==> s.tradeMap == t.tradeMap
    ensures Find(s, kind, id) == Find(t, kind, id)
  {
    match kind
    case CommodityKind =>
    case EntityKind =>
    case BusinessKind =>
    case ProductionUnitKind =>
    case StationKind =>
    case StockKind =>
    case TradeKind =>
  }

  // Storing a record of one kind, seen through `Find` on that kind.
  lemma StoredCommodityFind(s: Store, x: Commodity, id: string)
    ensures Find(Stored(s, CommodityObj(x)), CommodityKind, id) == if id == x.id then Some(CommodityObj(x)) else Find(s, CommodityKind, id)
  {
  }

  lemma StoredEntityFind(s: Store, x: Entity, id: string)
    ensures Find(Stored(s, EntityObj(x)), EntityKind, id) == if id == x.id then Some(EntityObj(x)) else Find(s, EntityKind, id)
  {
  }

  lemma StoredBusinessFind(s: Store, x: Business, id: string)
    ensures Find(Stored(s, BusinessObj(x)), BusinessKind, id) == if id == x.id then Some(BusinessObj(x)) else Find(s, BusinessKind, id)
  {
  }

  lemma StoredProductionUnitFind(s: Store, x: ProductionUnit, id: string)
    ensures Find(Stored(s, ProductionUnitObj(x)), ProductionUnitKind, id) == if id == x.id then Some(ProductionUnitObj(x)) else Find(s, ProductionUnitKind, id)
  {
  }

  lemma StoredStationFind(s: Store, x: Station, id: string)
    ensures Find(Stored(s, StationObj(x)), StationKind, id) == if id == x.id then Some(StationObj(x)) else Find(s, StationKind, id)
  {
  }

  lemma StoredStockFind(s: Store, x: Stock, id: string)
    ensures Find(Stored(s, StockObj(x)), StockKind, id) == if id == x.id then Some(StockObj(x)) else Find(s, StockKind, id)
  {
  }

  lemma StoredTradeFind(s: Store, x: Trade, id: string)
    ensures Find(Stored(s, TradeObj(x)), TradeKind, id) == if id == x.id then Some(TradeObj(x)) else Find(s, TradeKind, id)
  {
  }

  /** `deleteCommodity(id)` … `deleteTrade(id)`: removes the record of kind `kind` stored under
      `id` and returns it, or `None` when there is none. In a well-formed store exactly that
      (kind, id) stops finding anything. */
  function Delete(s: Store, kind: Kind, id: string): (r: (Store, Option<RegistryObject>))
    ensures r.1 == Find(s, kind, id)
    ensures WellFormed(s) ==> Find(r.0, kind, id).None?
    ensures WellFormed(s) ==> forall k, i :: k != kind || i != id ==> Find(r.0, k, i) == Find(s, k, i)
    ensures WellFormed(s) ==> WellFormed(r.0)
  {
    DeleteFinds(s, kind, id);
    (Removed(s, kind, id), Find(s, kind, id))
  }

  /** The table update behind `Delete`. */
  function Removed(s: Store, kind: Kind, id: string): Store {
    match kind
    case CommodityKind => s.(commodityMap := Remove(s.commodityMap, id).0)
    case EntityKind => s.(entityMap := Remove(s.entityMap, id).0)
    case BusinessKind => s.(businessMap := Remove(s.businessMap, id).0)
    case ProductionUnitKind => s.(productionUnitMap := Remove(s.productionUnitMap, id).0)
    case StationKind => s.(stationMap := Remove(s.stationMap, id).0)
    case StockKind => s.(stockMap := Remove(s.stockMap, id).0)
    case TradeKind => s.(tradeMap := Remove(s.tradeMap, id).0)
  }

  lemma DeleteFinds(s: Store, kind: Kind, id: string)
    ensures WellFormed(s) ==> Find(Removed(s, kind, id), kind, id).None?
    ensures WellFormed(s) ==> forall k, i :: k != kind || i != id ==> Find(Removed(s, kind, id), k, i) == Find(s, k, i)
    ensures WellFormed(s) ==> WellFormed(Removed(s, kind, id))
  {
    if WellFormed(s) {
      forall k, i ensures Find(Removed(s, kind, id), k, i) == if k == kind && i == id then None else Find(s, k, i) {
        RemovedFind(s, kind, id, k, i);
      }
      match kind
      case CommodityKind => RemoveKeyedBy(s.commodityMap, id, CommodityId);
      case EntityKind => RemoveKeyedBy(s.entityMap, id, EntityId);
      case BusinessKind => RemoveKeyedBy(s.businessMap, id, BusinessId);
      case ProductionUnitKind => RemoveKeyedBy(s.productionUnitMap, id, ProductionUnitId);
      case StationKind => RemoveKeyedBy(s.stationMap, id, StationId);
      case StockKind => RemoveKeyedBy(s.stockMap, id, StockId);
      case TradeKind => RemoveKeyedBy(s.tradeMap, id, TradeId);
    }
  }

  lemma RemovedFind(s: Store, kind: Kind, id: string, k: Kind, i: string)
    requires WellFormed(s)
    ensures Find(Removed(s, kind, id), k, i) == if k == kind && i == id then None else Find(s, k, i)
  {
    if k != kind {
      FindFrame(Removed(s, kind, id), s, k, i);
    } else {
      match k
      case CommodityKind => RemovedCommodityFind(s, id, i);
      case EntityKind => RemovedEntityFind(s, id, i);
      case BusinessKind => RemovedBusinessFind(s, id, i);
      case ProductionUnitKind => RemovedProductionUnitFind(s, id, i);
      case StationKind => RemovedStationFind(s, id, i);
      case StockKind => RemovedStockFind(s, id, i);
      case TradeKind => RemovedTradeFind(s, id, i);
    }
  }

  // Removing a record of one kind, seen through `Find` on that kind.
  lemma RemovedCommodityFind(s: Store, id: string, i: string)
    requires KeysUnique(s.commodityMap)
    ensures Find(Removed(s, CommodityKind, id), CommodityKind, i) == if i == id then None else Find(s, CommodityKind, i)
  {
  }

  lemma RemovedEntityFind(s: Store, id: string, i: string)
    requires KeysUnique(s.entityMap)
    ensures Find(Removed(s, EntityKind, id), EntityKind, i) == if i == id then None else Find(s, EntityKind, i)
  {
  }

  lemma RemovedBusinessFind(s: Store, id: string, i: string)
    requires KeysUnique(s.businessMap)
    ensures Find(Removed(s, BusinessKind, id), BusinessKind, i) == if i == id then None else Find(s, BusinessKind, i)
  {
  }

  lemma RemovedProductionUnitFind(s: Store, id: string, i: string)
    requires KeysUnique(s.productionUnitMap)
    ensures Find(Removed(s, ProductionUnitKind, id), ProductionUnitKind, i) == if i == id then None else Find(s, ProductionUnitKind, i)
  {
  }

  lemma RemovedStationFind(s: Store, id: string, i: string)
    requires KeysUnique(s.stationMap)
    ensures Find(Removed(s, StationKind, id), StationKind, i) == if i == id then None else Find(s, StationKind, i)
  {
  }

  lemma RemovedStockFind(s: Store, id: string, i: string)
    requires KeysUnique(s.stockMap)
    ensures Find(Removed(s, StockKind, id), StockKind, i) == if i == id then None else Find(s, StockKind, i)
  {
  }

  lemma RemovedTradeFind(s: Store, id: string, i: string)
    requires KeysUnique(s.tradeMap)
    ensures Find(Removed(s, TradeKind, id), TradeKind, i) == if i == id then None else Find(s, TradeKind, i)
  {
  }

  /** `delete(obj)`: removes whatever record of `obj`'s kind is stored under `obj`'s id, which
      need not equal `obj`, and returns it. */
  function DeleteObject(s: Store, obj: RegistryObject): (r: (Store, Option<RegistryObject>))
    ensures WellFormed(s) && r.1.Some? ==> KindOf(r.1.value) == KindOf(obj) && IdOf(r.1.value) == IdOf(obj)
    ensures WellFormed(s) ==> Find(r.0, KindOf(obj), IdOf(obj)).None?
    ensures WellFormed(s) ==> forall k, i :: k != KindOf(obj) || i != IdOf(obj) ==> Find(r.0, k, i) == Find(s, k, i)
    ensures WellFormed(s) ==> WellFormed(r.0)
  {
    FindHits(s, KindOf(obj), IdOf(obj));
    Delete(s, KindOf(obj), IdOf(obj))
  }

  // The queries `commodities(…)` … `trades(…)`: a kind's records in map order, filtered by
  // every matcher (see `Matcher.Matches`).
  function Commodities(s: Store, ms: seq<Matcher<Commodity>>): seq<Commodity> { Matches(Values(s.commodityMap), ms) }
  function Entities(s: Store, ms: seq<Matcher<Entity>>): seq<Entity> { Matches(Values(s.entityMap), ms) }
  function Businesses(s: Store, ms: seq<Matcher<Business>>): seq<Business> { Matches(Values(s.businessMap), ms) }
  function ProductionUnits(s: Store, ms: seq<Matcher<ProductionUnit>>): seq<ProductionUnit> { Matches(Values(s.productionUnitMap), ms) }
  function Stations(s: Store, ms: seq<Matcher<Station>>): seq<Station> { Matches(Values(s.stationMap), ms) }
  function Stockpile(s: Store, ms: seq<Matcher<Stock>>): seq<Stock> { Matches(Values(s.stockMap), ms) }
  function Trades(s: Store, ms: seq<Matcher<Trade>>): seq<Trade> { Matches(Values(s.tradeMap), ms) }

  /** A query by id on a keyed table yields the record stored under that id, or nothing. */
  lemma QueryById<V(!new)>(m: LinkedMap<V>, id: V -> string, k: string, p: Matcher<V>)
    requires forall v :: p(v) <==> id(v) == k
    ensures Keyed(m, id) ==> Matches(Values(m), [p]) == match Get(m, k) case Some(v) => [v] case None => []
  {
    if Keyed(m, id) {
      assert forall v :: AllOf([p])(v) == p(v) by {
        assert [p][0] == p;
      }
      FilterExtensional(Values(m), AllOf([p]), p);
      FilterById(m, id, k, p);
    }
  }

  /** After `add(x)`, querying x's kind by x's id yields exactly `[x]`. */
  lemma AddThenQueryById(s: Store, obj: RegistryObject)
    requires WellFormed(s)
    ensures var r := Add(s, obj);
      match obj
      case CommodityObj(x) => Commodities(r, [OnCommodities(WithId(x.id))]) == [x]
      case EntityObj(x) => Entities(r, [OnEntities(WithId(x.id))]) == [x]
      case BusinessObj(x) => Businesses(r, [OnBusinesses(WithId(x.id))]) == [x]
      case ProductionUnitObj(x) => ProductionUnits(r, [OnProductionUnits(WithId(x.id))]) == [x]
      case StationObj(x) => Stations(r, [OnStations(WithId(x.id))]) == [x]
      case StockObj(x) => Stockpile(r, [OnStocks(WithId(x.id))]) == [x]
      case TradeObj(x) => Trades(r, [OnTrades(WithId(x.id))]) == [x]
  {
    var r := Add(s, obj);
    assert WellFormed(r);
    match obj
    case CommodityObj(x) => QueryById(r.commodityMap, CommodityId, x.id, OnCommodities(WithId(x.id)));
    case EntityObj(x) => QueryById(r.entityMap, EntityId, x.id, OnEntities(WithId(x.id)));
    case BusinessObj(x) => QueryById(r.businessMap, BusinessId, x.id, OnBusinesses(WithId(x.id)));
    case ProductionUnitObj(x) => QueryById(r.productionUnitMap, ProductionUnitId, x.id, OnProductionUnits(WithId(x.id)));
    case StationObj(x) => QueryById(r.stationMap, StationId, x.id, OnStations(WithId(x.id)));
    case StockObj(x) => QueryById(r.stockMap, StockId, x.id, OnStocks(WithId(x.id)));
    case TradeObj(x) => QueryById(r.tradeMap, TradeId, x.id, OnTrades(WithId(x.id)));
  }

  /** Every stock holds a non-negative amount. */
  ghost predicate NonNegativeStocks(s: Store) {
    forall x :: x in Values(s.stockMap) ==> x.amount >= 0
  }

  /** An offer for a positive amount at a positive price. */
  predicate Positive(t: Trade) {
    t.sellAmount > 0 && t.price > 0.0
  }

  /** Every open offer is for a positive amount at a positive price. */
  ghost predicate PositiveOffers(s: Store) {
    forall t :: t in Values(s.tradeMap) && t.IsActive() ==> Positive(t)
  }

  /** What every step of a tick preserves. */
  ghost predicate Invariant(s: Store) {
    WellFormed(s) && PositiveOffers(s) && NonNegativeStocks(s)
  }

  /** `r` differs from `s` at most in its trades and stocks, and has the same stock ids. */
  ghost predicate OnlyStocksAndTradesUpdated(s: Store, r: Store) {
    && r == s.(tradeMap := r.tradeMap, stockMap := r.stockMap)
    && forall k :: Get(r.stockMap, k).Some? <==> Get(s.stockMap, k).Some?
  }

  /** Two steps that each change only stocks and trades change only stocks and trades. */
  lemma OnlyStocksAndTradesUpdatedChain(s: Store, s1: Store, s2: Store)
    ensures OnlyStocksAndTradesUpdated(s, s1) && OnlyStocksAndTradesUpdated(s1, s2) ==> OnlyStocksAndTradesUpdated(s, s2)
  {
  }

  /** Adding a trade stores it in the trade table and touches nothing else. */
  lemma AddTradeIsPut(s: Store, t: Trade)
    ensures Add(s, TradeObj(t)) == s.(tradeMap := Put(s.tradeMap, t.id, t))
  {
  }

  /** Adding a stock stores it in the stock table and touches nothing else. */
  lemma AddStockIsPut(s: Store, x: Stock)
    ensures Add(s, StockObj(x)) == s.(stockMap := Put(s.stockMap, x.id, x))
  {
  }

  /** Deleting a trade removes it from the trade table and touches nothing else. */
  lemma DeleteTradeIsRemove(s: Store, t: Trade)
    ensures DeleteObject(s, TradeObj(t)).0 == s.(tradeMap := Remove(s.tradeMap, t.id).0)
  {
  }

  /** Storing a non-negative stock keeps every stock non-negative. */
  lemma PutStockKeepsNonNegative(s: Store, x: Stock)
    requires NonNegativeStocks(s) && x.amount >= 0
    ensures NonNegativeStocks(s.(stockMap := Put(s.stockMap, x.id, x)))
  {
    PutValues(s.stockMap, x.id, x);
  }

  /** Storing a closed trade or a positive offer keeps every open offer positive. */
  lemma PutTradeKeepsPositive(s: Store, t: Trade)
    requires PositiveOffers(s) && (t.IsActive() ==> Positive(t))
    ensures PositiveOffers(s.(tradeMap := Put(s.tradeMap, t.id, t)))
  {
    PutValues(s.tradeMap, t.id, t);
  }

  /** Removing a trade keeps every open offer positive. */
  lemma RemoveTradeKeepsPositive(s: Store, id: string)
    requires PositiveOffers(s)
    ensures PositiveOffers(s.(tradeMap := Remove(s.tradeMap, id).0))
  {
    RemoveValues(s.tradeMap, id);
  }
}
