/** Record predicates and their conjunction (controller/Matcher.kt). */
module Matcher {
  import opened Sequences
  import opened RegistryObjects

  /** `Matcher<T>`: a predicate over records. */
  type Matcher<!T> = T -> bool

  /** All matchers of `ms` hold for `x`. */
  function AllOf<T>(ms: seq<Matcher<T>>): Matcher<T> {
    (x: T) => forall i | 0 <= i < |ms| :: ms[i](x)
  }

  /** `Iterable.matches`: the matchers are applied one after the other, each filtering what
      the previous ones let through. The result is the single filter by their conjunction: a
      later matcher never brings back what an earlier one dropped, and the order is kept. */
  function Matches<T(!new)>(xs: seq<T>, ms: seq<Matcher<T>>): (r: seq<T>)
    ensures r == Filter(xs, AllOf(ms))
    ensures |ms| == 0 ==> r == xs
    decreases |ms|
  {
    if |ms| == 0 then
      FilterAll(xs);
      xs
    else
      FilterFilter(xs, ms[0], AllOf(ms[1..]), AllOf(ms));
      Matches(Filter(xs, ms[0]), ms[1..])
  }

  /** With no matchers every element passes. */
  lemma {:induction false} FilterAll<T(!new)>(xs: seq<T>)
    ensures Filter(xs, AllOf<T>([])) == xs
  {
    if |xs| > 0 {
      FilterAll(xs[1..]);
    }
  }

  /** `withId(id)`: for every kind, the record's own id is `id`. */
  function WithId(id: string): (m: Matcher<RegistryObject>)
    ensures forall c :: m(CommodityObj(c)) <==> c.id == id
    ensures forall e :: m(EntityObj(e)) <==> e.id == id
    ensures forall b :: m(BusinessObj(b)) <==> b.id == id
    ensures forall u :: m(ProductionUnitObj(u)) <==> u.id == id
    ensures forall s :: m(StationObj(s)) <==> s.id == id
    ensures forall s :: m(StockObj(s)) <==> s.id == id
    ensures forall t :: m(TradeObj(t)) <==> t.id == id
  {
    (obj: RegistryObject) => IdOf(obj) == id
  }

  /** `atStation(id)`: entities, businesses, stocks and trades located at station `id`;
      never a commodity, a production unit or a station. */
  function AtStation(id: string): (m: Matcher<RegistryObject>)
    ensures forall c :: !m(CommodityObj(c))
    ensures forall e :: m(EntityObj(e)) <==> e.stationId == id
    ensures forall b :: m(BusinessObj(b)) <==> b.stationId == id
    ensures forall u :: !m(ProductionUnitObj(u))
    ensures forall s :: !m(StationObj(s))
    ensures forall s :: m(StockObj(s)) <==> s.stationId == id
    ensures forall t :: m(TradeObj(t)) <==> t.stationId == id
  {
    (obj: RegistryObject) =>
      match obj
      case CommodityObj(_) => false
      case EntityObj(e) => e.stationId == id
      case BusinessObj(b) => b.stationId == id
      case ProductionUnitObj(_) => false
      case StationObj(_) => false
      case StockObj(s) => s.stationId == id
      case TradeObj(t) => t.stationId == id
  }

  /** `isActive()` */
  function IsActive(): Matcher<Trade> {
    (t: Trade) => t.IsActive()
  }

  /** `isTimedOut()`, with the clock reading `now` passed in. */
  function IsTimedOut(now: int): Matcher<Trade> {
    (t: Trade) => t.timestamp + t.tradeLength < now
  }

  /** `isSelling(commodityId)` */
  function IsSelling(commodityId: string): Matcher<Trade> {
    (t: Trade) => t.sellCommodityId == commodityId
  }

  /** `isBuying(commodityId)` */
  function IsBuying(commodityId: string): Matcher<Trade> {
    (t: Trade) => t.buyCommodityId == commodityId
  }

  // A matcher over any record, used where a matcher over one kind is expected.
  function OnCommodities(m: Matcher<RegistryObject>): Matcher<Commodity> { (c: Commodity) => m(CommodityObj(c)) }
  function OnEntities(m: Matcher<RegistryObject>): Matcher<Entity> { (e: Entity) => m(EntityObj(e)) }
  function OnBusinesses(m: Matcher<RegistryObject>): Matcher<Business> { (b: Business) => m(BusinessObj(b)) }
  function OnProductionUnits(m: Matcher<RegistryObject>): Matcher<ProductionUnit> { (u: ProductionUnit) => m(ProductionUnitObj(u)) }
  function OnStations(m: Matcher<RegistryObject>): Matcher<Station> { (s: Station) => m(StationObj(s)) }
  function OnStocks(m: Matcher<RegistryObject>): Matcher<Stock> { (s: Stock) => m(StockObj(s)) }
  function OnTrades(m: Matcher<RegistryObject>): Matcher<Trade> { (t: Trade) => m(TradeObj(t)) }
}
