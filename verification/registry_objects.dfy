/** The record kinds of the trade registry (model/RegistryObjects.kt).

    Every record is an immutable value carrying its own id; changing a record means storing a
    new value under the same id. Ids are opaque strings (random UUIDs in the source, chosen by
    the caller here). Default arguments of the Kotlin data classes are kept as default
    constructor arguments.
 */
module RegistryObjects {
  import opened Results

  datatype Commodity = Commodity(id: string, name: string, abbrev: string := name)

  datatype Entity = Entity(id: string, currencyId: string, stationId: string)

  /** Pays into `buyStockId`; offers the stocks `sellStockIds` for sale. */
  datatype Business = Business(
    id: string,
    stationId: string,
    entityId: string,
    buyStockId: string,
    sellStockIds: seq<string>)

  /** Adds `productionAmount` to the stock `stockId` every tick. */
  datatype ProductionUnit = ProductionUnit(id: string, stockId: string, productionAmount: int := 1)

  datatype Station = Station(id: string, name: string)

  /** How long, in milliseconds, an offer made from a stock stays open unless said otherwise. */
  const DEFAULT_TRADE_LENGTH: int := 10000

  datatype Stock = Stock(
    id: string,
    entityId: string,
    stationId: string,
    commodityId: string,
    amount: int := 0,
    tradeLength: int := DEFAULT_TRADE_LENGTH)

  /** `x` after `amount` more units have arrived. */
  function Grown(x: Stock, amount: int): Stock {
    x.(amount := x.amount + amount)
  }

  /** The stock stored under `id` after `amount` more units have arrived, if there is one. */
  function GrownEntry(entry: Option<Stock>, amount: int): Option<Stock> {
    match entry
    case Some(x) => Some(Grown(x, amount))
    case None => None
  }

  /** Growing by `a` and then by `b` is growing by `a + b`. */
  lemma GrownEntryChain(after: Option<Stock>, middle: Option<Stock>, before: Option<Stock>, a: int, b: int, total: int)
    requires middle == GrownEntry(before, a) && after == GrownEntry(middle, b) && total == a + b
    ensures after == GrownEntry(before, total)
  {
  }

  /** An offer of `sellAmount` units of `sellCommodityId` for `buyCommodityId` at `price` units
      of the latter per unit of the former, or, once `buyingBusinessId` is set, a closed deal. */
  datatype Trade = Trade(
    id: string,
    sellingBusinessId: string,
    buyingBusinessId: Option<string> := None,
    stationId: string,
    sellCommodityId: string,
    buyCommodityId: string,
    sellAmount: int,
    buyAmount: int := 0,
    price: real,
    timestamp: int,
    tradeLength: int := 0)
  {
    /** A trade is closed once it has a buyer. */
    predicate IsClosed() {
      buyingBusinessId.Some?
    }

    /** An open offer. */
    predicate IsActive() {
      !IsClosed()
    }
  }

  /** What the records hold when the optional constructor arguments are left out: a commodity is
      abbreviated by its name, a stock is empty with the default trade length, a unit produces one
      per tick, and a trade is an open offer, paid nothing yet, that times out at once. */
  lemma ConstructorDefaults(id: string, name: string, entityId: string, stationId: string, stockId: string,
                            sell: string, buy: string, sellAmount: int, price: real, now: int)
    ensures Commodity(id, name).abbrev == name
    ensures Stock(id, entityId, stationId, sell).amount == 0
    ensures Stock(id, entityId, stationId, sell).tradeLength == DEFAULT_TRADE_LENGTH == 10000
    ensures ProductionUnit(id, stockId).productionAmount == 1
    ensures var t := Trade(id := id, sellingBusinessId := entityId, stationId := stationId, sellCommodityId := sell,
                           buyCommodityId := buy, sellAmount := sellAmount, price := price, timestamp := now);
            t.IsActive() && !t.IsClosed() && t.buyAmount == 0 && t.tradeLength == 0
  {
  }

  /** The price a trade gets when none is given: payment per unit sold. */
  function DefaultPrice(buyAmount: int, sellAmount: int): (p: real)
    requires sellAmount != 0
    ensures p * sellAmount as real == buyAmount as real
  {
    buyAmount as real / sellAmount as real
  }

  /** The sealed class `RegistryObject`: one case per record kind. */
  datatype RegistryObject =
    | CommodityObj(commodity: Commodity)
    | EntityObj(entity: Entity)
    | BusinessObj(business: Business)
    | ProductionUnitObj(productionUnit: ProductionUnit)
    | StationObj(station: Station)
    | StockObj(stock: Stock)
    | TradeObj(trade: Trade)

  /** The kinds of record, each stored in a map of its own. */
  datatype Kind = CommodityKind | EntityKind | BusinessKind | ProductionUnitKind | StationKind | StockKind | TradeKind

  function KindOf(obj: RegistryObject): Kind {
    match obj
    case CommodityObj(_) => CommodityKind
    case EntityObj(_) => EntityKind
    case BusinessObj(_) => BusinessKind
    case ProductionUnitObj(_) => ProductionUnitKind
    case StationObj(_) => StationKind
    case StockObj(_) => StockKind
    case TradeObj(_) => TradeKind
  }

  function IdOf(obj: RegistryObject): string {
    match obj
    case CommodityObj(c) => c.id
    case EntityObj(e) => e.id
    case BusinessObj(b) => b.id
    case ProductionUnitObj(u) => u.id
    case StationObj(s) => s.id
    case StockObj(s) => s.id
    case TradeObj(t) => t.id
  }

  // The id of each kind of record, as a function value for the generic store lemmas.
  function CommodityId(c: Commodity): string { c.id }
  function EntityId(e: Entity): string { e.id }
  function BusinessId(b: Business): string { b.id }
  function ProductionUnitId(u: ProductionUnit): string { u.id }
  function StationId(s: Station): string { s.id }
  function StockId(s: Stock): string { s.id }
  function TradeId(t: Trade): string { t.id }
}
