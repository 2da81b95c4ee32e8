/** The registry operations shared by every store (controller/Registry.kt): look-ups by id,
    `addAll`, the `update` and `delete` extensions, and the navigation properties between
    businesses, stocks and trades.
 */
module Registry {
  import opened Results
  import opened RegistryObjects
  import opened Matcher
  import opened LinkedMap
  import opened DataStore

  /** `kinds(withId(id)).first()`: the first record of a table the id matcher lets through,
      or `NotFound` where `first()` would throw. In a keyed table this is the record stored
      under `id`, and it fails exactly when there is none. */
  function ById<V(!new)>(m: LinkedMap<V>, idOf: V -> string, p: Matcher<V>, kind: string, id: string): (r: Result<V>)
    requires forall v :: p(v) <==> idOf(v) == id
    ensures r.Ok? ==> idOf(r.value) == id && r.value in Values(m)
    ensures r.Fail? ==> r.error == NotFound(kind, id)
    ensures Keyed(m, idOf) ==> (r.Ok? <==> Get(m, id).Some?)
    ensures Keyed(m, idOf) && r.Ok? ==> Get(m, id) == Some(r.value)
  {
    var found := Matches(Values(m), [p]);
    QueryById(m, idOf, id, p);
    if |found| == 0 then Fail(NotFound(kind, id)) else Ok(found[0])
  }

  /** `commodity(id)` */
  function CommodityById(s: Store, id: string): (r: Result<Commodity>)
    ensures r.Ok? ==> r.value.id == id && r.value in Values(s.commodityMap)
    ensures WellFormed(s) ==> (r.Ok? <==> Get(s.commodityMap, id).Some?)
    ensures WellFormed(s) && r.Ok? ==> Get(s.commodityMap, id) == Some(r.value)
  {
    ById(s.commodityMap, CommodityId, OnCommodities(WithId(id)), "Commodity", id)
  }

  /** `entity(id)` */
  function EntityById(s: Store, id: string): (r: Result<Entity>)
    ensures r.Ok? ==> r.value.id == id && r.value in Values(s.entityMap)
    ensures WellFormed(s) ==> (r.Ok? <==> Get(s.entityMap, id).Some?)
    ensures WellFormed(s) && r.Ok? ==> Get(s.entityMap, id) == Some(r.value)
  {
    ById(s.entityMap, EntityId, OnEntities(WithId(id)), "Entity", id)
  }

  /** `business(id)` */
  function BusinessById(s: Store, id: string): (r: Result<Business>)
    ensures r.Ok? ==> r.value.id == id && r.value in Values(s.businessMap)
    ensures WellFormed(s) ==> (r.Ok? <==> Get(s.businessMap, id).Some?)
    ensures WellFormed(s) && r.Ok? ==> Get(s.businessMap, id) == Some(r.value)
  {
    ById(s.businessMap, BusinessId, OnBusinesses(WithId(id)), "Business", id)
  }

  /** `productionUnit(id)` */
  function ProductionUnitById(s: Store, id: string): (r: Result<ProductionUnit>)
    ensures r.Ok? ==> r.value.id == id && r.value in Values(s.productionUnitMap)
    ensures WellFormed(s) ==> (r.Ok? <==> Get(s.productionUnitMap, id).Some?)
    ensures WellFormed(s) && r.Ok? ==> Get(s.productionUnitMap, id) == Some(r.value)
  {
    ById(s.productionUnitMap, ProductionUnitId, OnProductionUnits(WithId(id)), "ProductionUnit", id)
  }

  /** `station(id)` */
  function StationById(s: Store, id: string): (r: Result<Station>)
    ensures r.Ok? ==> r.value.id == id && r.value in Values(s.stationMap)
    ensures WellFormed(s) ==> (r.Ok? <==> Get(s.stationMap, id).Some?)
    ensures WellFormed(s) && r.Ok? ==> Get(s.stationMap, id) == Some(r.value)
  {
    ById(s.stationMap, StationId, OnStations(WithId(id)), "Station", id)
  }

  /** `stock(id)` */
  function StockById(s: Store, id: string): (r: Result<Stock>)
    ensures r.Ok? ==> r.value.id == id && r.value in Values(s.stockMap)
    ensures WellFormed(s) ==> (r.Ok? <==> Get(s.stockMap, id).Some?)
    ensures WellFormed(s) && r.Ok? ==> Get(s.stockMap, id) == Some(r.value)
  {
    ById(s.stockMap, StockId, OnStocks(WithId(id)), "Stock", id)
  }

  /** `trade(id)` */
  function TradeById(s: Store, id: string): (r: Result<Trade>)
    ensures r.Ok? ==> r.value.id == id && r.value in Values(s.tradeMap)
    ensures WellFormed(s) ==> (r.Ok? <==> Get(s.tradeMap, id).Some?)
    ensures WellFormed(s) && r.Ok? ==> Get(s.tradeMap, id) == Some(r.value)
  {
    ById(s.tradeMap, TradeId, OnTrades(WithId(id)), "Trade", id)
  }

  /** `addAll(objects)`: adds the objects one after the other. */
  function AddAll(s: Store, objs: seq<RegistryObject>): (r: Store)
    ensures WellFormed(s) ==> WellFormed(r)
    decreases |objs|
  {
    if |objs| == 0 then s else AddAll(Add(s, objs[0]), objs[1..])
  }

  /** `obj` is the record of kind `kind` with id `id`. */
  predicate Hits(obj: RegistryObject, kind: Kind, id: string) {
    KindOf(obj) == kind && IdOf(obj) == id
  }

  /** The last of `objs` that is the record of kind `kind` with id `id`, scanning from the end. */
  function LastHit(objs: seq<RegistryObject>, kind: Kind, id: string): (r: Option<RegistryObject>)
    ensures r.Some? ==> r.value in objs && Hits(r.value, kind, id)
    ensures r.None? <==> forall i :: 0 <= i < |objs| ==> !Hits(objs[i], kind, id)
  {
    if |objs| == 0 then None
    else if Hits(objs[|objs| - 1], kind, id) then Some(objs[|objs| - 1])
    else LastHit(objs[..|objs| - 1], kind, id)
  }

  /** Scanning from the end agrees with dropping the first object when a later one hits. */
  lemma {:induction false} LastHitFront(objs: seq<RegistryObject>, kind: Kind, id: string)
    requires |objs| > 0
    ensures LastHit(objs, kind, id)
         == if LastHit(objs[1..], kind, id).Some? then LastHit(objs[1..], kind, id)
            else if Hits(objs[0], kind, id) then Some(objs[0]) else None
  {
    if |objs| > 1 && !Hits(objs[|objs| - 1], kind, id) {
      var init := objs[..|objs| - 1];
      LastHitFront(init, kind, id);
      assert init[1..] == objs[1..][..|objs[1..]| - 1];
    }
  }

  /** After `addAll`, each (kind, id) finds the last of the objects with that kind and id, and
      what it found before when none of them has it. */
  lemma {:induction false} AddAllLastWins(s: Store, objs: seq<RegistryObject>, kind: Kind, id: string)
    ensures Find(AddAll(s, objs), kind, id) == match LastHit(objs, kind, id) case Some(o) => Some(o) case None => Find(s, kind, id)
    decreases |objs|
  {
    if |objs| > 0 {
      AddAllLastWins(Add(s, objs[0]), objs[1..], kind, id);
      LastHitFront(objs, kind, id);
    }
  }

  /** The `T.delete()` extension as written: it calls `add`, so the object stays stored. */
  function DeleteExtension(s: Store, obj: RegistryObject): (r: Store)
    ensures Find(r, KindOf(obj), IdOf(obj)) == Some(obj)
  {
    Add(s, obj)
  }

  /** `T.delete()` as its name promises: the object's kind no longer has a record under its id,
      and nothing else changes. */
  function DeleteExtensionFixed(s: Store, obj: RegistryObject): (r: Store)
    ensures WellFormed(s) ==> Find(r, KindOf(obj), IdOf(obj)).None?
    ensures WellFormed(s) ==> forall k, i :: k != KindOf(obj) || i != IdOf(obj) ==> Find(r, k, i) == Find(s, k, i)
    ensures WellFormed(s) ==> WellFormed(r)
  {
    DeleteObject(s, obj).0
  }

  /** `ids.map(registry::stock)`: the stocks with the given ids, in order; fails on the first
      id without a stock. */
  function StocksById(s: Store, ids: seq<string>): (r: Result<seq<Stock>>)
    ensures r.Ok? ==> |r.value| == |ids|
    ensures r.Ok? ==> forall i :: 0 <= i < |ids| ==> r.value[i].id == ids[i] && r.value[i] in Values(s.stockMap)
    ensures WellFormed(s) ==> (r.Ok? <==> forall i :: 0 <= i < |ids| ==> Get(s.stockMap, ids[i]).Some?)
    ensures WellFormed(s) && r.Ok? ==> forall i :: 0 <= i < |ids| ==> Get(s.stockMap, ids[i]) == Some(r.value[i])
  {
    if |ids| == 0 then Ok([])
    else
      var first :- StockById(s, ids[0]);
      var rest :- StocksById(s, ids[1..]);
      Ok([first] + rest)
  }

  /** `Business.sellStocks` */
  function SellStocks(s: Store, b: Business): (r: Result<seq<Stock>>)
    ensures r.Ok? ==> |r.value| == |b.sellStockIds|
    ensures r.Ok? ==> forall i :: 0 <= i < |b.sellStockIds| ==> r.value[i].id == b.sellStockIds[i]
    ensures WellFormed(s) ==> (r.Ok? <==> forall i :: 0 <= i < |b.sellStockIds| ==> Get(s.stockMap, b.sellStockIds[i]).Some?)
    ensures WellFormed(s) && r.Ok? ==> forall i :: 0 <= i < |b.sellStockIds| ==> Get(s.stockMap, b.sellStockIds[i]) == Some(r.value[i])
  {
    StocksById(s, b.sellStockIds)
  }

  /** `Business.buyStock` */
  function BuyStock(s: Store, b: Business): (r: Result<Stock>)
    ensures r.Ok? ==> r.value.id == b.buyStockId
    ensures WellFormed(s) ==> (r.Ok? <==> Get(s.stockMap, b.buyStockId).Some?)
    ensures WellFormed(s) && r.Ok? ==> Get(s.stockMap, b.buyStockId) == Some(r.value)
  {
    StockById(s, b.buyStockId)
  }

  /** `Trade.sellingBusiness` */
  function SellingBusiness(s: Store, t: Trade): (r: Result<Business>)
    ensures r.Ok? ==> r.value.id == t.sellingBusinessId
    ensures WellFormed(s) ==> (r.Ok? <==> Get(s.businessMap, t.sellingBusinessId).Some?)
    ensures WellFormed(s) && r.Ok? ==> Get(s.businessMap, t.sellingBusinessId) == Some(r.value)
  {
    BusinessById(s, t.sellingBusinessId)
  }

  /** `Trade.buyingBusiness`: no business for an open offer, else the buyer, which must exist. */
  function BuyingBusiness(s: Store, t: Trade): (r: Result<Option<Business>>)
    ensures t.buyingBusinessId.None? ==> r == Ok(None)
    ensures t.buyingBusinessId.Some? && r.Ok? ==> r.value.Some? && r.value.value.id == t.buyingBusinessId.value
    ensures WellFormed(s) && t.buyingBusinessId.Some? ==> (r.Ok? <==> Get(s.businessMap, t.buyingBusinessId.value).Some?)
    ensures WellFormed(s) && t.buyingBusinessId.Some? && r.Ok? ==> Get(s.businessMap, t.buyingBusinessId.value) == r.value
  {
    match t.buyingBusinessId
    case None => Ok(None)
    case Some(id) =>
      var b :- BusinessById(s, id);
      Ok(Some(b))
  }
}
