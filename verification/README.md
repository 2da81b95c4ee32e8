# UniverseTrade economy core in Dafny

UniverseTrade simulates a small space economy. Its state is a registry of seven kinds of
record, each stored by id in a table of its own:
- commodities, entities, businesses, production units, stations, stocks (amounts of one
  commodity held at a station);
- trades: an open offer to sell an amount of one commodity for another at a price, or, once
  it has a buyer, a closed deal.

The world advances in ticks. Each tick runs three steps in order:
- **production**: every production unit adds its amount to its stock;
- **business**: every business prices each non-empty sell stock from the station's market and
  posts the whole stock as an open offer;
- **trade**: at every station, each commodity pair is cleared by matching the cheapest sellers
  against the buyers, with partial fills and a price-band test. Every match is recorded as a
  closed trade and settled into both businesses' buy stocks. Offers whose time is up are then
  refunded and deleted.

A text command parser turns a typed line into an action for the program's listener.

The model is functional. A registry is a value (`DataStore.Store`). Each step is a function
from a store to a `Result` of the new store. An exception in the source (`first()` on an empty
list, an `IllegalStateException`) is a `Fail`.

The modules follow the source files:
- `RegistryObjects`: the records.
- `LinkedMap`: the insertion-ordered tables behind `mutableMapOf`.
- `DataStore`: the map-backed registry.
- `Matcher`: the query predicates.
- `Registry`: the library's lookups and extensions.
- `Producer`, `Business` and `Market`/`MarketStep`: the three controllers.
- `CommandParser`: the parser.
- `Sequences`: Kotlin's `filter`, `distinct` and stable `sortedBy`.
- `Snapshot`: what the trade step's one reading of a station implies.
- `Simulation`: one tick.

Modelling conventions:
- Prices are exact reals. `Math.ceil(..).toLong()` and `toLong()` are `Market.Ceil` and
  `Market.Truncate`.
- Quantities are unbounded integers.
- The random markup draws, the fresh UUIDs of new trades and the clock are parameters. The
  n-th draw and id go to the n-th use, and each step returns the index of the next unused one.
- Business quoting and clearing divide by prices and amounts. They require every open offer to
  be for a positive amount at a positive price (`DataStore.PositiveOffers`). Every step is
  proved to keep this true, because `amount * price >= 1.0` guards every posted offer.
- The trade step is modelled as written: `MarketStep.TradeAll` clears every commodity pair of a
  station from one reading of its offers, and `Simulation.Tick` uses it. `MarketStep.TradeAllFresh`
  is the corrected step described under "Findings".

## Model

| member | source | states |
|---|---|---|
| `RegistryObjects.ConstructorDefaults` | UniverseTradeLib/src/main/java/com/sleepyduckstudio/model/RegistryObjects.kt:7-64 | The constructor defaults: a commodity's abbreviation is its name. A stock starts at amount 0 with trade length 10000. A unit produces 1. A trade built without a buyer is active, not closed, with buy amount 0 and trade length 0. |
| `RegistryObjects.DefaultPrice` | UniverseTradeLib/src/main/java/com/sleepyduckstudio/model/RegistryObjects.kt:58 | The default price times the amount sold is the amount paid: it is the payment per unit. |
| `LinkedMap.Get` | CommandLineProgram/src/main/java/com/sleepyduckstudio/RegistryDataStore.kt:8-14 | A lookup finds nothing exactly when no entry has the key. With unique keys it finds the value of the entry that has it. |
| `LinkedMap.Values` | CommandLineProgram/src/main/java/com/sleepyduckstudio/RegistryDataStore.kt:16-22 | The values come in entry order, one per entry. |
| `LinkedMap.Put` | CommandLineProgram/src/main/java/com/sleepyduckstudio/RegistryDataStore.kt:24-32 | `map[k] = v`: afterwards `k` finds `v` and every other key finds what it found before. A present key keeps its position and a new key is appended, as in a `LinkedHashMap`. Keys stay unique. |
| `LinkedMap.Remove` | CommandLineProgram/src/main/java/com/sleepyduckstudio/RegistryDataStore.kt:34-40 | `map.remove(k)` returns what `k` held. Afterwards `k` finds nothing and every other key is unchanged. |
| `LinkedMap.FilterById` | UniverseTradeLib/src/main/java/com/sleepyduckstudio/controller/Registry.kt:15-21 | In a table keyed by id, filtering by "id is `k`" yields exactly the one value stored under `k`, or nothing. |
| `DataStore.Add` | CommandLineProgram/src/main/java/com/sleepyduckstudio/RegistryDataStore.kt:24-32 | `add(obj)`: afterwards obj's kind and id find `obj`. Every other kind and id finds what it did before, including the same id in another kind's table. Well-formedness is kept. |
| `DataStore.Delete` | CommandLineProgram/src/main/java/com/sleepyduckstudio/RegistryDataStore.kt:34-40 | `deleteX(id)` returns the record stored under `id`, or none when there is none. Afterwards that kind and id finds nothing and everything else is unchanged. |
| `DataStore.DeleteObject` | CommandLineProgram/src/main/java/com/sleepyduckstudio/RegistryDataStore.kt:42-50 | `delete(obj)` removes whatever record of obj's kind has obj's id, and returns it. Afterwards that kind and id finds nothing and every other record is unchanged. |
| `DataStore.QueryById` | CommandLineProgram/src/main/java/com/sleepyduckstudio/RegistryDataStore.kt:52-70 | A query with one id matcher on a keyed table returns the record stored under that id, or the empty list. |
| `DataStore.AddThenQueryById` | CommandLineProgram/src/main/java/com/sleepyduckstudio/RegistryDataStore.kt:24-32 | After `add(x)`, querying x's kind with `withId(x.id)` returns exactly `[x]`, for each of the seven kinds. |
| `Matcher.Matches` | UniverseTradeLib/src/main/java/com/sleepyduckstudio/controller/Matcher.kt:7-10 | Applying matchers one after another is a single filter by their conjunction. The result keeps the input order. With no matchers it is the whole input. |
| `Matcher.WithId` | UniverseTradeLib/src/main/java/com/sleepyduckstudio/controller/Matcher.kt:12-22 | For each of the seven kinds, the matcher holds exactly when the record's id is `id`. |
| `Matcher.AtStation` | UniverseTradeLib/src/main/java/com/sleepyduckstudio/controller/Matcher.kt:24-34 | Never holds for a commodity, a production unit or a station. For the other kinds it holds exactly when the station id is `id`. |
| `Sequences.Filter` | CommandLineProgram/src/main/java/com/sleepyduckstudio/RegistryDataStore.kt:52-54 | Keeps exactly the elements satisfying the predicate, as a subsequence in input order. |
| `Sequences.FilterFilter` | CommandLineProgram/src/main/java/com/sleepyduckstudio/RegistryDataStore.kt:53 | Filtering twice equals filtering once by the conjunction. |
| `Sequences.Distinct` | UniverseTradeLib/src/main/java/com/sleepyduckstudio/controller/MarketController.kt:19-20 | `distinct()` holds the same elements as its input, none twice. An element comes before another exactly in the order of their first occurrences in the input. |
| `Sequences.SortBy` | UniverseTradeLib/src/main/java/com/sleepyduckstudio/controller/MarketController.kt:34 | `sortedBy` returns a permutation of its input in ascending key order. |
| `Sequences.SortByStable` | UniverseTradeLib/src/main/java/com/sleepyduckstudio/controller/MarketController.kt:34 | The sort is stable: elements with equal keys keep their input order. |
| `Registry.ById` | UniverseTradeLib/src/main/java/com/sleepyduckstudio/controller/Registry.kt:15-21 | `kinds(withId(id)).first()` returns a stored record with that id. It fails with not-found exactly when none is stored under `id`. |
| `Registry.CommodityById` | UniverseTradeLib/src/main/java/com/sleepyduckstudio/controller/Registry.kt:15 | `commodity(id)` finds the commodity stored under `id` and fails exactly when there is none. |
| `Registry.EntityById` | UniverseTradeLib/src/main/java/com/sleepyduckstudio/controller/Registry.kt:16 | The same for `entity(id)`. |
| `Registry.BusinessById` | UniverseTradeLib/src/main/java/com/sleepyduckstudio/controller/Registry.kt:17 | The same for `business(id)`. |
| `Registry.ProductionUnitById` | UniverseTradeLib/src/main/java/com/sleepyduckstudio/controller/Registry.kt:18 | The same for `productionUnit(id)`. |
| `Registry.StationById` | UniverseTradeLib/src/main/java/com/sleepyduckstudio/controller/Registry.kt:19 | The same for `station(id)`. |
| `Registry.StockById` | UniverseTradeLib/src/main/java/com/sleepyduckstudio/controller/Registry.kt:20 | The same for `stock(id)`. |
| `Registry.TradeById` | UniverseTradeLib/src/main/java/com/sleepyduckstudio/controller/Registry.kt:21 | The same for `trade(id)`. |
| `Registry.AddAll` | UniverseTradeLib/src/main/java/com/sleepyduckstudio/controller/Registry.kt:41 | `addAll` keeps the registry well formed. |
| `Registry.AddAllLastWins` | UniverseTradeLib/src/main/java/com/sleepyduckstudio/controller/Registry.kt:41 | After `addAll(objs)`, each kind and id finds the last of `objs` with that kind and id. When none of them has it, it finds what it found before. |
| `Registry.DeleteExtension` | UniverseTradeLib/src/main/java/com/sleepyduckstudio/controller/Registry.kt:48-50 | As written: after `obj.delete()` the object is still found under its kind and id. |
| `Registry.DeleteExtensionFixed` | UniverseTradeLib/src/main/java/com/sleepyduckstudio/controller/Registry.kt:48-50 | As intended: after `obj.delete()` nothing is found under obj's kind and id, and every other record is unchanged. |
| `Registry.StocksById` | UniverseTradeLib/src/main/java/com/sleepyduckstudio/controller/Registry.kt:52 | `ids.map(registry::stock)` returns the stored stocks with those ids, position by position. It fails exactly when some id has no stock. |
| `Registry.SellStocks` | UniverseTradeLib/src/main/java/com/sleepyduckstudio/controller/Registry.kt:52 | `sellStocks` returns the business's sell stocks in the order of `sellStockIds`. It fails exactly when one is missing. |
| `Registry.BuyStock` | UniverseTradeLib/src/main/java/com/sleepyduckstudio/controller/Registry.kt:53 | `buyStock` returns the stock stored under `buyStockId`. It fails exactly when there is none. |
| `Registry.SellingBusiness` | UniverseTradeLib/src/main/java/com/sleepyduckstudio/controller/Registry.kt:57 | `sellingBusiness` returns the stored business under the trade's seller id. It fails exactly when there is none. |
| `Registry.BuyingBusiness` | UniverseTradeLib/src/main/java/com/sleepyduckstudio/controller/Registry.kt:58 | `buyingBusiness` is null when the trade has no buyer id. Otherwise it is the business stored under that id, and it fails exactly when that business is missing. |
| `Producer.Produce` | UniverseTradeLib/src/main/java/com/sleepyduckstudio/controller/ProducerController.kt:5-6 | One unit: its stock is stored back grown by the production amount. It fails exactly when the unit's stock does not exist. |
| `Producer.ProduceAllFails` | UniverseTradeLib/src/main/java/com/sleepyduckstudio/controller/ProducerController.kt:4-7 | The unit loop succeeds exactly when every unit's stock exists. |
| `Producer.ProduceAllFrame` | UniverseTradeLib/src/main/java/com/sleepyduckstudio/controller/ProducerController.kt:3-8 | A successful loop changes only the amounts of existing stocks. |
| `Producer.ProduceAllGrows` | UniverseTradeLib/src/main/java/com/sleepyduckstudio/controller/ProducerController.kt:5-6 | Each stock ends grown by the sum of the amounts of the units that point at it. The stock is re-read per unit, so units sharing a stock add up, and a stock no unit names is unchanged. |
| `Producer.RunProductionStep` | UniverseTradeLib/src/main/java/com/sleepyduckstudio/controller/ProducerController.kt:3-8 | `runProductionStep()` succeeds exactly when every unit's stock exists. Only stock amounts change, each stock by the total of its units. |
| `Producer.ProductionKeepsStocksNonNegative` | UniverseTradeLib/src/main/java/com/sleepyduckstudio/controller/ProducerController.kt:6 | With non-negative production amounts, non-negative stocks stay non-negative. |
| `Business.RandomRange` | UniverseTradeLib/src/main/java/com/sleepyduckstudio/controller/BusinessController.kt:63 | A draw in [0, 1) is scaled into [from, to). It is exactly `from` when the range is empty. |
| `Business.MarkupRange` | UniverseTradeLib/src/main/java/com/sleepyduckstudio/controller/BusinessController.kt:43 | The markup lies in [0.9, 1.5). |
| `Business.LowestPrice` | UniverseTradeLib/src/main/java/com/sleepyduckstudio/controller/BusinessController.kt:42 | `minBy { price }?.price` is none exactly for no trades. Otherwise it is one of the prices and no price is lower. |
| `Business.HighestPrice` | UniverseTradeLib/src/main/java/com/sleepyduckstudio/controller/BusinessController.kt:59 | `maxBy { price }?.price` is none exactly for no trades. Otherwise it is one of the prices and no price is higher. |
| `Business.Offers` | UniverseTradeLib/src/main/java/com/sleepyduckstudio/controller/BusinessController.kt:34-39 | The four-matcher query returns exactly the stored trades that are active, sell the commodity, buy the other and are at the station. |
| `Business.RecommendedSellPriceFromBuyers` | UniverseTradeLib/src/main/java/com/sleepyduckstudio/controller/BusinessController.kt:51-60 | The result is none exactly when the inverse market at the station has no open offer. Otherwise it is the positive reciprocal of that market's highest price. It fails exactly when the business's buy stock is missing. |
| `Business.LowestSellPrice` | UniverseTradeLib/src/main/java/com/sleepyduckstudio/controller/BusinessController.kt:42 | With comparable sellers at the station the base is their lowest price. Without sellers but with inverse buyers it is the reciprocal of the buyers' highest price. Without either it is none. A price found is positive. |
| `Business.MarkedUp` | UniverseTradeLib/src/main/java/com/sleepyduckstudio/controller/BusinessController.kt:47 | A marked-up price keeps its sign and is at least 0.9 of the base. |
| `Business.RecommendedSellPrice` | UniverseTradeLib/src/main/java/com/sleepyduckstudio/controller/BusinessController.kt:33-49 | The price is the lowest comparable price, or the inverse market's reciprocal, times the markup. With no market it is exactly 1.0, without markup. It is always positive, and fails exactly when the buy stock is missing. |
| `Business.Offer` | UniverseTradeLib/src/main/java/com/sleepyduckstudio/controller/BusinessController.kt:15-25 | The posted trade is active and sells the whole stock amount of the stock's commodity for the buy-stock commodity. It has the stock's station and trade length, the recommended price and the current time. |
| `Business.Post` | UniverseTradeLib/src/main/java/com/sleepyduckstudio/controller/BusinessController.kt:15-26 | Posting stores the offer and the emptied stock and nothing else. It keeps well-formedness, positive offers and non-negative stocks. |
| `Business.QuoteStock` | UniverseTradeLib/src/main/java/com/sleepyduckstudio/controller/BusinessController.kt:11-27 | A stock with amount 0 is skipped. Below `amount * price >= 1.0` the store is unchanged. Otherwise the offer is posted and the stock, as read, is stored with amount 0. It fails exactly when the buy stock is missing. |
| `Business.QuoteStocks` | UniverseTradeLib/src/main/java/com/sleepyduckstudio/controller/BusinessController.kt:10-29 | Over the sell stocks, all read first, only stocks and trades change and the invariants are kept. When the stocks exist, it fails only for a missing buy stock. |
| `Business.QuoteBusinesses` | UniverseTradeLib/src/main/java/com/sleepyduckstudio/controller/BusinessController.kt:9-30 | Over all businesses, only stocks and trades change and the invariants are kept. |
| `Business.QuoteBusinessesFails` | UniverseTradeLib/src/main/java/com/sleepyduckstudio/controller/BusinessController.kt:9-30 | The business loop succeeds when every business's stocks exist. On success every business's sell stocks existed. |
| `Business.QuoteBusinessesFound` | UniverseTradeLib/src/main/java/com/sleepyduckstudio/controller/BusinessController.kt:9-10 | On success, every business's sell stocks existed when the loop began. |
| `Business.QuoteBusinessesSucceeds` | UniverseTradeLib/src/main/java/com/sleepyduckstudio/controller/BusinessController.kt:9-30 | When every business's sell stocks and buy stock exist, the business loop succeeds. |
| `Business.RunBusinessStep` | UniverseTradeLib/src/main/java/com/sleepyduckstudio/controller/BusinessController.kt:8-31 | `runBusinessStep()` keeps well-formedness, positive offers and non-negative stocks, and changes only stocks and trades. It succeeds when all businesses' stocks exist, and on success every business's sell stocks existed. With fresh, distinct trade ids it undoes nothing: every trade stored before is still stored unchanged, every empty stock stays empty, and the ids it did not use are still fresh. |
| `Business.PostedKeepsPostings` | UniverseTradeLib/src/main/java/com/sleepyduckstudio/controller/BusinessController.kt:15-26 | Posting an offer under a fresh id and storing the stock emptied leaves every stored trade unchanged and every empty stock empty. The later ids stay fresh. |
| `Business.QuoteStockKeepsPostings` | UniverseTradeLib/src/main/java/com/sleepyduckstudio/controller/BusinessController.kt:11-27 | Quoting one stock with a fresh id undoes nothing, and the ids after the ones it used stay fresh. |
| `Business.QuoteStocksKeepsPostings` | UniverseTradeLib/src/main/java/com/sleepyduckstudio/controller/BusinessController.kt:10-29 | One business's loop over its sell stocks undoes nothing, and the ids it did not use stay fresh. |
| `Business.QuoteBusinessesKeepsPostings` | UniverseTradeLib/src/main/java/com/sleepyduckstudio/controller/BusinessController.kt:9-30 | The loop over all businesses undoes nothing, and the ids it did not use stay fresh. |
| `Business.QuoteStocksSplit` | UniverseTradeLib/src/main/java/com/sleepyduckstudio/controller/BusinessController.kt:10 | The loop over a business's stocks is its first `j` iterations followed by the rest, from the store and id index they leave. |
| `Business.QuoteStocksFirstPosts` | UniverseTradeLib/src/main/java/com/sleepyduckstudio/controller/BusinessController.kt:11-26 | When the first stock of the loop is non-empty and its price makes the offer worth posting, the loop ends with that offer stored under the id it drew and the stock empty. |
| `Business.QuoteStocksPosts` | UniverseTradeLib/src/main/java/com/sleepyduckstudio/controller/BusinessController.kt:10-29 | Each sell stock of a business, quoted in the store the stocks before it left, ends the loop empty with its offer stored under the id it drew, when it was non-empty and worth posting. |
| `Business.QuoteBusinessesSplit` | UniverseTradeLib/src/main/java/com/sleepyduckstudio/controller/BusinessController.kt:9 | The business loop is its first `i` businesses followed by the rest. |
| `Business.QuoteBusinessesPosts` | UniverseTradeLib/src/main/java/com/sleepyduckstudio/controller/BusinessController.kt:9-30 | Each sell stock of each business, quoted in the store everything before it left, ends the loop empty with its offer stored, when it was non-empty and worth posting. |
| `Business.RunBusinessStepPosts` | UniverseTradeLib/src/main/java/com/sleepyduckstudio/controller/BusinessController.kt:8-31 | The same for `runBusinessStep()` over the stored businesses in registry order: no posted offer is lost and no emptied stock refills within the step. |
| `Market.Ceil` | UniverseTradeLib/src/main/java/com/sleepyduckstudio/controller/MarketController.kt:49 | `Math.ceil(x).toLong()` is the least integer not below `x`. |
| `Market.Truncate` | UniverseTradeLib/src/main/java/com/sleepyduckstudio/controller/MarketController.kt:51 | `toLong()` rounds towards zero. |
| `Market.FillBounds` | UniverseTradeLib/src/main/java/com/sleepyduckstudio/controller/MarketController.kt:47-52 | The match amount is positive, at most what the seller has and at most what the buyer wants. The payment is between 0 and what the buyer has. One side is always used up. |
| `Market.AcceptsIffSellerPrice` | UniverseTradeLib/src/main/java/com/sleepyduckstudio/controller/MarketController.kt:54 | The band test `price in sellerPrice..buyerPrice` holds exactly when the price reaches the seller's price. The upper bound never fails. |
| `Market.HeadFill` | UniverseTradeLib/src/main/java/com/sleepyduckstudio/controller/MarketController.kt:42-52 | The match of the first seller and buyer stays within both offers and uses one of them up. |
| `Market.Deal` | UniverseTradeLib/src/main/java/com/sleepyduckstudio/controller/MarketController.kt:55-63 | The recorded trade is closed, sold by the sell offer's business to the buy offer's business, for the match amount and payment, priced at payment per unit. |
| `Market.CloseTrade` | UniverseTradeLib/src/main/java/com/sleepyduckstudio/controller/MarketController.kt:93-104 | An active trade raises "Tried to close trade with no buyer". Otherwise the buyer's buy stock gains the amount sold and the seller's buy stock gains the payment. It succeeds exactly when both businesses and buy stocks exist, and only those stocks change. |
| `Market.CreditBoth` | UniverseTradeLib/src/main/java/com/sleepyduckstudio/controller/MarketController.kt:102-103 | Both credits are computed from the stocks as first read and written in order. Stored stocks stay stored. Non-negative credits keep stocks non-negative. |
| `Market.Settle` | UniverseTradeLib/src/main/java/com/sleepyduckstudio/controller/MarketController.kt:55-84 | An accepted match writes the deal, then the buyer's rest, then the seller's rest. A used-up offer is deleted and a partial one is stored reduced by exactly what it gave. The stocks see the settlement, and positivity and the sellers' buy stocks are kept. It fails exactly when a business or buy stock is missing. |
| `Market.ClearStep` | UniverseTradeLib/src/main/java/com/sleepyduckstudio/controller/MarketController.kt:41-90 | One loop turn takes one offer out of a list. A refused match drops the seller if it has less than the buyer wants, else the buyer, and leaves the registry untouched. An accepted one is priced within the band, keeps each list's rest in front and uses the next id. It keeps every invariant. |
| `Market.ClearLoop` | UniverseTradeLib/src/main/java/com/sleepyduckstudio/controller/MarketController.kt:41-90 | The loop ends with heads that no longer cross, and takes ids onward from where it started. It changes only trades and stock amounts and keeps every invariant. It cannot fail when every business behind the offers has a buy stock. |
| `MarketStep.SellingBook` | UniverseTradeLib/src/main/java/com/sleepyduckstudio/controller/MarketController.kt:33-35 | The sellers' list is a permutation of the offers of S for B, ascending by price, with equal prices in reading order. |
| `MarketStep.BuyingBook` | UniverseTradeLib/src/main/java/com/sleepyduckstudio/controller/MarketController.kt:37-39 | The buyers' list is a permutation of the offers of B for S, descending by posted price, with equal prices in reading order. |
| `MarketStep.BooksSwap` | UniverseTradeLib/src/main/java/com/sleepyduckstudio/controller/MarketController.kt:33-39 | The sellers' list of (S, B) holds the same offers as the buyers' list of (B, S). |
| `MarketStep.TradePair` | UniverseTradeLib/src/main/java/com/sleepyduckstudio/controller/MarketController.kt:28-91 | Clearing one pair changes only trades and stock amounts, keeps the invariants and does not reuse ids. It cannot fail when every business behind the offers has a buy stock. |
| `MarketStep.LocalTrades` | UniverseTradeLib/src/main/java/com/sleepyduckstudio/controller/MarketController.kt:18 | The station's reading is the stored active trades at that station, in the order the trade table stores them. |
| `MarketStep.SellCommodities` | UniverseTradeLib/src/main/java/com/sleepyduckstudio/controller/MarketController.kt:19 | Each commodity offered at the station, once, in the order the station's offers first sell it. |
| `MarketStep.BuyCommodities` | UniverseTradeLib/src/main/java/com/sleepyduckstudio/controller/MarketController.kt:20 | Each commodity asked for at the station, once, in the order the station's offers first ask for it. |
| `MarketStep.DistinctOffered` | UniverseTradeLib/src/main/java/com/sleepyduckstudio/controller/MarketController.kt:19-20 | `map { .. }.distinct()` lists a commodity before another only if some offer names the first before any offer names the second. |
| `MarketStep.TradeBuys` | UniverseTradeLib/src/main/java/com/sleepyduckstudio/controller/MarketController.kt:22-24 | The inner loop over buy commodities keeps the invariants and cannot fail when the sellers have buy stocks. |
| `MarketStep.TradeSells` | UniverseTradeLib/src/main/java/com/sleepyduckstudio/controller/MarketController.kt:21-25 | The outer loop over sell commodities keeps the invariants and cannot fail when the sellers have buy stocks. |
| `MarketStep.TradeAtStation` | UniverseTradeLib/src/main/java/com/sleepyduckstudio/controller/MarketController.kt:17-26 | As written, every pair is cleared from one reading. This keeps the invariants and cannot fail when every trade's business has a buy stock. |
| `MarketStep.TradeAtStationFresh` | UniverseTradeLib/src/main/java/com/sleepyduckstudio/controller/MarketController.kt:17-26 | Corrected: each pair reads the station afresh, with the same guarantees. |
| `MarketStep.TradeStations` | UniverseTradeLib/src/main/java/com/sleepyduckstudio/controller/MarketController.kt:14 | Trading station after station, each with the station step as written, keeps the invariants and cannot fail when every trade's business has a buy stock. |
| `MarketStep.TradeAll` | UniverseTradeLib/src/main/java/com/sleepyduckstudio/controller/MarketController.kt:13-15 | `trade()` over every stored station, each with the station step as written (`MarketStep.TradeAtStation`), keeps the invariants and cannot fail when every trade's business has a buy stock. |
| `MarketStep.TradeStationsFresh` | UniverseTradeLib/src/main/java/com/sleepyduckstudio/controller/MarketController.kt:14 | Corrected: the station loop with the corrected station step keeps the same invariants. |
| `MarketStep.TradeAllFresh` | UniverseTradeLib/src/main/java/com/sleepyduckstudio/controller/MarketController.kt:13-15 | Corrected: `trade()` over every stored station with the corrected station step keeps the invariants and cannot fail when every trade's business has a buy stock. |
| `MarketStep.FirstWithCommodity` | UniverseTradeLib/src/main/java/com/sleepyduckstudio/controller/MarketController.kt:117 | `first { commodityId == c }` returns the first stock of that commodity. It fails exactly when there is none. |
| `MarketStep.SellerStocks` | UniverseTradeLib/src/main/java/com/sleepyduckstudio/controller/MarketController.kt:117 | `trade.sellingBusiness.sellStocks` succeeds exactly when the selling business and all of its sell stocks are stored, and then lists those stocks. |
| `MarketStep.RefundStock` | UniverseTradeLib/src/main/java/com/sleepyduckstudio/controller/MarketController.kt:117 | The refund goes to the first of the seller's sell stocks that holds the commodity the offer sells, and that stock is stored. It fails exactly when the sell stocks cannot be read or none of them holds that commodity. |
| `MarketStep.TimeoutTrade` | UniverseTradeLib/src/main/java/com/sleepyduckstudio/controller/MarketController.kt:110-120 | A closed trade is left alone. An open one has its amount added back to its seller's first sell stock of its commodity and is deleted. It fails exactly when that stock is missing. No other trade changes. |
| `MarketStep.TimeoutAll` | UniverseTradeLib/src/main/java/com/sleepyduckstudio/controller/MarketController.kt:107 | After timing out a list of trades, each open one is gone and every trade with another id is unchanged. |
| `MarketStep.RefundStockSame` | UniverseTradeLib/src/main/java/com/sleepyduckstudio/controller/MarketController.kt:110-119 | Refunds change only stock amounts, so an earlier refund does not change which stock a later offer is refunded to, or whether it can be refunded. |
| `MarketStep.TimeoutTradeGrows` | UniverseTradeLib/src/main/java/com/sleepyduckstudio/controller/MarketController.kt:110-119 | One timeout grows the refund stock of an open offer by the offer's amount. It changes no other stock and only changes amounts. |
| `MarketStep.TimeoutAllGrows` | UniverseTradeLib/src/main/java/com/sleepyduckstudio/controller/MarketController.kt:107 | After timing out a list of trades, each stock has grown by the sum of the amounts of the open offers refunded to it. Offers refunded to the same stock add up, and a stock that no offer is refunded to is unchanged. |
| `MarketStep.TimedOutTrades` | UniverseTradeLib/src/main/java/com/sleepyduckstudio/controller/MarketController.kt:107 | The query returns exactly the stored active trades with `timestamp + tradeLength < now`, strictly. |
| `MarketStep.TimeoutTrades` | UniverseTradeLib/src/main/java/com/sleepyduckstudio/controller/MarketController.kt:106-108 | Afterwards no stored open offer has timed out, and every stored trade that had not timed out is still stored. Each stock has grown by the amounts of the timed-out open offers refunded to it. |
| `MarketStep.RunTradeStep` | UniverseTradeLib/src/main/java/com/sleepyduckstudio/controller/MarketController.kt:8-11 | Trading, with the station step as written, then timing out keeps the invariants and does not reuse ids. Afterwards no open offer has timed out. |
| `Snapshot.ClearLoopKeepsBooksCurrent` | UniverseTradeLib/src/main/java/com/sleepyduckstudio/controller/MarketController.kt:41-90 | Clearing keeps the working lists identical to what the registry stores: every listed offer is stored as listed. An offer the loop has used up or reduced is never stored again as it was. |
| `Snapshot.LocalBooksCurrent` | UniverseTradeLib/src/main/java/com/sleepyduckstudio/controller/MarketController.kt:33-39 | Lists freshly read from the registry, for two different commodities, start out current. |
| `Snapshot.FirstSellerUsedUp` | UniverseTradeLib/src/main/java/com/sleepyduckstudio/controller/MarketController.kt:54-84 | When the first match is accepted, the first seller's offer, as read, is no longer in the registry afterwards. |
| `Snapshot.PairSupersedesFirstSeller` | UniverseTradeLib/src/main/java/com/sleepyduckstudio/controller/MarketController.kt:28-91 | When a pair's first match is accepted, its first seller's offer, as read at the station, is gone from the registry once the pair is cleared. |
| `Snapshot.StaleOfferTradedAgain` | UniverseTradeLib/src/main/java/com/sleepyduckstudio/controller/MarketController.kt:17-26 | As written, the later pair (B, S) is also visited. Its buyers' list, from the same reading, still holds that used offer at its full amount. |
| `Snapshot.FreshReadDropsUsedOffer` | UniverseTradeLib/src/main/java/com/sleepyduckstudio/controller/MarketController.kt:17-26 | Corrected: a fresh reading for (B, S) holds that used offer in neither list. |
| `Simulation.ProductionKeeps` | UniverseTradeLib/src/main/java/com/sleepyduckstudio/controller/ProducerController.kt:3-8 | Production keeps the offers, well-formedness and stock ids, and non-negative stocks under non-negative production. |
| `Simulation.QuoteThenTrade` | CommandLineProgram/src/main/java/com/sleepyduckstudio/CommandLineProgram.kt:46-47 | The business step, stamping offers with one clock reading, then the trade step with a second reading: only stocks and trades change, the invariants are kept, and no open offer has timed out at the second reading. |
| `Simulation.Tick` | CommandLineProgram/src/main/java/com/sleepyduckstudio/CommandLineProgram.kt:45-47 | One tick of production, business and trade keeps the store well formed and the offers positive. It changes only stocks and trades, and leaves no offer timed out at the trade step's clock reading, which is separate from the business step's. Stocks stay non-negative under non-negative production, and a unit with a missing stock aborts it. |
| `CommandParser.Fold` | TextCommands/src/main/java/com/sleepyduckstudio/commandline/CommandParser.kt:22 | Ignoring case maps an ASCII capital to its small letter and leaves every other character alone. |
| `CommandParser.TextIsLowerCase` | TextCommands/src/main/java/com/sleepyduckstudio/commandline/CommandParser.kt:6-20 | Every command text is its own case fold. |
| `CommandParser.TextsDiffer` | TextCommands/src/main/java/com/sleepyduckstudio/commandline/CommandParser.kt:6-20 | Two different command texts differ at a position both have, so neither is a prefix of the other. |
| `CommandParser.AtMostOneCommand` | TextCommands/src/main/java/com/sleepyduckstudio/commandline/CommandParser.kt:22 | A line starts, ignoring case, with at most one command text. |
| `CommandParser.FirstCommand` | TextCommands/src/main/java/com/sleepyduckstudio/commandline/CommandParser.kt:45-59 | The `when` chain picks a type the line matches and that no earlier type matches. It picks none exactly when no type matches. |
| `CommandParser.SelectsIff` | TextCommands/src/main/java/com/sleepyduckstudio/commandline/CommandParser.kt:45-59 | The chain selects a type exactly when the line starts with its text, ignoring case. |
| `CommandParser.ExecuteCommand` | TextCommands/src/main/java/com/sleepyduckstudio/commandline/CommandParser.kt:45-60 | The line is unknown exactly when it matches no type. A matched type other than `add` is invoked, and `add` parses its argument. |
| `CommandParser.IndexOfFirst` | TextCommands/src/main/java/com/sleepyduckstudio/commandline/CommandParser.kt:69 | The search finds the first occurrence of the delimiter, and finds none only when there is none. |
| `CommandParser.SubstringAfterFirst` | TextCommands/src/main/java/com/sleepyduckstudio/commandline/CommandParser.kt:81 | `substringAfter` returns the text after the first occurrence of the delimiter. |
| `CommandParser.SubstringAfterMissing` | TextCommands/src/main/java/com/sleepyduckstudio/commandline/CommandParser.kt:81 | Without the delimiter it returns the empty string. |
| `CommandParser.TrimCuts` | TextCommands/src/main/java/com/sleepyduckstudio/commandline/CommandParser.kt:81 | `trim('"', ' ')` removes only quote and space characters from the ends, and none remain at either end. |
| `CommandParser.TrimPadded` | TextCommands/src/main/java/com/sleepyduckstudio/commandline/CommandParser.kt:81 | Trimming a name padded with quotes and spaces returns the name itself. |
| `CommandParser.AddCommand` | TextCommands/src/main/java/com/sleepyduckstudio/commandline/CommandParser.kt:68-78 | `add` adds a station exactly when the text after the first space starts with `station`. Without a space, or with any other second part, it answers with the usage. |
| `CommandParser.AddStationCommand` | TextCommands/src/main/java/com/sleepyduckstudio/commandline/CommandParser.kt:80-87 | A non-empty, non-blank `--name` argument adds a station with the given id and that name. Otherwise the reply is the usage. An added name is never empty or blank. |
| `CommandParser.AddStationLine` | TextCommands/src/main/java/com/sleepyduckstudio/commandline/CommandParser.kt:68-87 | `add station --name <arg>`, with `add` in any case, adds a station named by `arg` trimmed. When that name is empty or blank it answers `Usage: add [station] --name "name"`. |
| `CommandParser.AddStationRoundTrip` | TextCommands/src/main/java/com/sleepyduckstudio/commandline/CommandParser.kt:68-87 | A line built from a non-blank name, with quotes and spaces around it, parses back to a station with exactly that name. |
| `CommandParser.AddOtherIsUsage` | TextCommands/src/main/java/com/sleepyduckstudio/commandline/CommandParser.kt:68-78 | Any `add` line without a space, or whose second part does not start with `station` (case-sensitive), answers with the usage. |
| `CommandParser.AddLine` | TextCommands/src/main/java/com/sleepyduckstudio/commandline/CommandParser.kt:45-87 | Every line that selects `add` adds the station named by its trimmed `--name` argument exactly when its second part starts with `station` and that name is neither empty nor blank. Otherwise it answers with the usage. |
| `CommandParser.MissingNameIsUsage` | TextCommands/src/main/java/com/sleepyduckstudio/commandline/CommandParser.kt:81-86 | A line without `--name ` never adds a station. An `add` line without it answers with the usage. |

## Left out

- Floating point: prices are exact reals. IEEE rounding, `NaN` and infinities are not modelled.
  The division by a zero price or amount that would produce them is excluded by the invariant
  `DataStore.PositiveOffers`, which every step is proved to keep.
- Business.RecommendedSellPriceFromBuyers: requires `PositiveOffers`, which the source does not check; without it the source divides by a zero price or amount.
- Business.LowestSellPrice: requires `PositiveOffers`, which the source does not check; without it the source divides by a zero price or amount.
- Business.RecommendedSellPrice: requires `PositiveOffers`, which the source does not check; without it the source divides by a zero price or amount.
- Business.QuoteStock: requires `PositiveOffers`, which the source does not check; without it the source divides by a zero price or amount.
- Business.QuoteStocks: requires `PositiveOffers`, which the source does not check; without it the source divides by a zero price or amount.
- Business.QuoteBusinesses: requires `PositiveOffers`, which the source does not check; without it the source divides by a zero price or amount.
- Business.RunBusinessStep: requires `PositiveOffers`, which the source does not check; without it the source divides by a zero price or amount.
- MarketStep.TradeAtStation: requires `PositiveOffers`, which the source does not check; without it the source divides by a zero price or amount.
- MarketStep.TradeAtStationFresh: requires `PositiveOffers`, which the source does not check; without it the source divides by a zero price or amount.
- MarketStep.TradeStations: requires `PositiveOffers`, which the source does not check; without it the source divides by a zero price or amount.
- MarketStep.TradeAll: requires `PositiveOffers`, which the source does not check; without it the source divides by a zero price or amount.
- MarketStep.TradeStationsFresh: requires `PositiveOffers`, for the same reason.
- MarketStep.TradeAllFresh: requires `PositiveOffers`, for the same reason.
- MarketStep.RunTradeStep: requires `PositiveOffers`, which the source does not check; without it the source divides by a zero price or amount.
- Simulation.QuoteThenTrade: requires `PositiveOffers`, which the source does not check; without it the source divides by a zero price or amount.
- Simulation.Tick: requires `PositiveOffers`, which the source does not check; without it the source divides by a zero price or amount.
- Market.ClearStep, Market.ClearLoop: require both working lists to hold only positive offers, for the same reason.
- Long overflow: quantities are unbounded integers. The source's 64-bit `Long` arithmetic wraps on overflow; the model does not.
- Randomness, UUIDs and the clock: `Random.nextDouble()`, `UUID.randomUUID()`, `Date().time` and
  `System.currentTimeMillis()` are parameters (draw sequences, id sequences, `now`).
- Simulation.Tick: takes two clock readings, one for the business step (`Date().time` in the
  `Trade` constructor) and one for the trade step. Within a step the source reads the clock
  once per record; the model uses one reading per step. Offers posted in one step and deals
  closed in it therefore carry the same timestamp.
- Business.QuoteStocksPosts, Business.QuoteBusinessesPosts, Business.RunBusinessStepPosts and
  the `KeepsPostings` lemmas assume fresh, pairwise different trade ids (`Business.FreshIds`),
  as random UUIDs are in practice. With a colliding id the source overwrites a stored trade.
- Partial updates on failure: when the source throws in the middle of a step, the writes made
  before the throw stay in the registry. The model returns `Fail` and does not say what the
  store held at that point.
- Market.CloseTrade: when the buyer's and the seller's buy stock are the same stock, both credits
  are computed from the stock as first read. The seller's write is the one that remains, as
  in the source. The contract states this through `Credited` and does not call it a loss.
- A pair with the same sell and buy commodity: the books of such a pair are the same offers.
  `Snapshot` states its properties only for two different commodities.
- MarketStep.TimeoutAll: states what happens to the trade table and to stock amounts on
  success, but not when it succeeds (each open offer needs a sell stock of its commodity).
- Simulation.Tick: does not state that the returned id index grows. Each step states it for
  itself.
- CommandParser.Fold: folds only ASCII letters. Kotlin's `ignoreCase` compares characters by
  their upper and lower case forms, so a few non-ASCII letters also match ASCII ones: dotless
  'ı' (U+0131), 'İ' (U+0130), long 's' 'ſ' (U+017F) and the Kelvin sign (U+212A). For
  instance "ſtart" selects `start` in the source but is unknown in the model.
- CommandParser.IsWhitespace follows a current Unicode table. The JVM's table depends on its
  version (U+180E, for one, changed class).
- The listener callbacks, `println`, the Swing and console programs, the start/pause thread and
  `Thread.sleep` are I/O, UI and concurrency. One tick is modelled as production, business and
  trade, in the order of CommandLineProgram.kt:45-47.
- `Stock.commodity`, `Trade.sellCommodity` and `Trade.buyCommodity` (Registry.kt:55,59-60) are
  used only by commented-out logging.
- `update()` (Registry.kt:44-46) is `add` and appears wherever the controllers store a record.
- The matcher lambdas `isActive`, `isTimedOut`, `isSelling` and `isBuying` are stated through the
  queries that use them (`Business.Offers`, `MarketStep.TimedOutTrades`, `MarketStep.SellingBook`).
- The older copies under `src/main/java` (controllers, command line, `Rational`,
  `SequenceExtensions`) and `TextCommands/.../Command.kt` are superseded. The UUID regex in
  CommandParser.kt:23 is never used.

## Findings

| source | as written | input that shows it | evidently intended | confidence | as-written member | corrected member |
|---|---|---|---|---|---|---|
| UniverseTradeLib/src/main/java/com/sleepyduckstudio/controller/Registry.kt:48-50 | `T.delete()` calls `registry.add(this)` | any stored record `x`: after `x.delete()` the registry still finds `x` | remove the record, as `registry.delete(this)` | not executed | `Registry.DeleteExtension` | `Registry.DeleteExtensionFixed` |
| UniverseTradeLib/src/main/java/com/sleepyduckstudio/controller/MarketController.kt:17-26 | one reading of the station's open offers serves every commodity pair | at one station, t1 sells 10 S for B at price 1.0 and t2 sells 10 B for S at price 1.0. Pair (S, B) trades them fully and deletes both. Pair (B, S) is cleared from the same reading, trades t2 against t1 again, and credits each buy stock a second time | each pair sees the offers as stored after the earlier pairs | not executed | `Snapshot.StaleOfferTradedAgain` | `Snapshot.FreshReadDropsUsedOffer` |
