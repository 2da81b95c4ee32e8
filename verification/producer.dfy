/** The production step (controller/ProducerController.kt): every production unit adds its
    production amount to its stock.
 */
module Producer {
  import opened Results
  import opened RegistryObjects
  import opened LinkedMap
  import opened DataStore
  import opened Registry

  /** The total that `units` add to the stock `id`. */
  function Produced(units: seq<ProductionUnit>, id: string): int {
    if |units| == 0 then 0
    else (if units[0].stockId == id then units[0].productionAmount else 0) + Produced(units[1..], id)
  }

  /** One unit's production: its stock, looked up by id, grows by the production amount and
      is stored back under its id. Fails when the unit's stock does not exist. */
  function Produce(s: Store, u: ProductionUnit): (r: Result<Store>)
    ensures WellFormed(s) ==> (r.Ok? <==> Get(s.stockMap, u.stockId).Some?)
    ensures WellFormed(s) && r.Ok? ==>
      r.value == s.(stockMap := Put(s.stockMap, u.stockId, Grown(Get(s.stockMap, u.stockId).value, u.productionAmount)))
    ensures WellFormed(s) && r.Ok? ==> WellFormed(r.value)
  {
    var stock :- StockById(s, u.stockId);
    AddStockIsPut(s, Grown(stock, u.productionAmount));
    Ok(Add(s, StockObj(Grown(stock, u.productionAmount))))
  }

  /** The units produce one after the other, each reading its stock after the previous ones
      wrote it. The first unit whose stock is missing aborts the rest. */
  function ProduceAll(s: Store, units: seq<ProductionUnit>): Result<Store>
    decreases |units|
  {
    if |units| == 0 then Ok(s)
    else
      var s1 :- Produce(s, units[0]);
      ProduceAll(s1, units[1..])
  }

  /** The store `r` differs from the well-formed `s` at most in the amounts of existing stocks. */
  ghost predicate OnlyStocksUpdated(s: Store, r: Store) {
    r == s.(stockMap := r.stockMap) && WellFormed(r) && Keys(r.stockMap) == Keys(s.stockMap)
  }

  /** Every unit's stock exists. */
  predicate StocksExist(s: Store, units: seq<ProductionUnit>) {
    forall i :: 0 <= i < |units| ==> Get(s.stockMap, units[i].stockId).Some?
  }

  /** Producing with a list of units succeeds iff every unit's stock exists. */
  lemma {:induction false} ProduceAllFails(s: Store, units: seq<ProductionUnit>)
    ensures WellFormed(s) ==> (ProduceAll(s, units).Ok? <==> StocksExist(s, units))
    decreases |units|
  {
    if WellFormed(s) && |units| > 0 {
      var rest := units[1..];
      var p := Produce(s, units[0]);
      if p.Ok? {
        var s1 := p.value;
        ProduceAllFails(s1, rest);
        assert ProduceAll(s, units) == ProduceAll(s1, rest);
        forall id ensures Get(s1.stockMap, id).Some? <==> Get(s.stockMap, id).Some? {
          ProduceGrows(s, units[0], id);
        }
        StocksExistStep(s, s1, units);
      }
    }
  }

  /** When a step keeps the set of stock ids, the remaining units find their stocks after it
      iff they found them before. */
  lemma StocksExistStep(s: Store, s1: Store, units: seq<ProductionUnit>)
    requires |units| > 0 && Get(s.stockMap, units[0].stockId).Some?
    requires forall id :: Get(s1.stockMap, id).Some? <==> Get(s.stockMap, id).Some?
    ensures StocksExist(s, units) <==> StocksExist(s1, units[1..])
  {
    var rest := units[1..];
    if StocksExist(s1, rest) {
      forall i | 0 <= i < |units| ensures Get(s.stockMap, units[i].stockId).Some? {
        if i > 0 {
          assert units[i] == rest[i - 1];
        }
      }
    }
  }

  /** A successful production changes nothing but the amounts of existing stocks. */
  lemma {:induction false} ProduceAllFrame(s: Store, units: seq<ProductionUnit>)
    ensures WellFormed(s) && ProduceAll(s, units).Ok? ==> OnlyStocksUpdated(s, ProduceAll(s, units).value)
    decreases |units|
  {
    if WellFormed(s) && |units| > 0 {
      var p := Produce(s, units[0]);
      if p.Ok? {
        ProduceAllFrame(p.value, units[1..]);
      }
    }
  }

  /** After a successful production, each stock has grown by the total of the units pointing
      at it, so units sharing a stock add up. */
  lemma {:induction false} ProduceAllGrows(s: Store, units: seq<ProductionUnit>, id: string)
    ensures WellFormed(s) && ProduceAll(s, units).Ok? ==>
      Get(ProduceAll(s, units).value.stockMap, id) == GrownEntry(Get(s.stockMap, id), Produced(units, id))
    decreases |units|
  {
    if WellFormed(s) && |units| > 0 && ProduceAll(s, units).Ok? {
      var u := units[0];
      var rest := units[1..];
      var s1 := Produce(s, u).value;
      assert ProduceAll(s, units) == ProduceAll(s1, rest);
      ProduceAllGrows(s1, rest, id);
      ProduceGrows(s, u, id);
      var a := if id == u.stockId then u.productionAmount else 0;
      assert Produced(units, id) == a + Produced(rest, id);
      GrownEntryChain(Get(ProduceAll(s1, rest).value.stockMap, id), Get(s1.stockMap, id), Get(s.stockMap, id),
                      a, Produced(rest, id), Produced(units, id));
    } else if WellFormed(s) && |units| == 0 {
      GrownEntryChain(Get(s.stockMap, id), Get(s.stockMap, id), Get(s.stockMap, id), 0, 0, 0);
    }
  }

  /** One unit's production grows its own stock and no other. */
  lemma ProduceGrows(s: Store, u: ProductionUnit, id: string)
    requires WellFormed(s) && Produce(s, u).Ok?
    ensures WellFormed(Produce(s, u).value)
    ensures Get(Produce(s, u).value.stockMap, id) == GrownEntry(Get(s.stockMap, id), if id == u.stockId then u.productionAmount else 0)
  {
    match Get(s.stockMap, id)
    case None =>
    case Some(x) => assert Grown(x, 0) == x;
  }

  /** A production step never takes anything away when no unit has a negative amount. */
  lemma {:induction false} ProducedNonNegative(units: seq<ProductionUnit>, id: string)
    requires forall i :: 0 <= i < |units| ==> units[i].productionAmount >= 0
    ensures Produced(units, id) >= 0
  {
    if |units| > 0 {
      ProducedNonNegative(units[1..], id);
    }
  }

  /** `ProduceAllGrows` for every stock id at once. */
  lemma ProduceAllGrowsEverywhere(s: Store, units: seq<ProductionUnit>)
    ensures WellFormed(s) && ProduceAll(s, units).Ok? ==> forall id ::
      Get(ProduceAll(s, units).value.stockMap, id) == GrownEntry(Get(s.stockMap, id), Produced(units, id))
  {
    forall id {
      ProduceAllGrows(s, units, id);
    }
  }

  /** `runProductionStep()`: every production unit, in registry order, produces into its stock.
      Only stocks change, each by what the units pointing at it produce; the step fails iff a
      unit names a stock that does not exist. */
  function RunProductionStep(s: Store): (r: Result<Store>)
    ensures WellFormed(s) ==> (r.Ok? <==> StocksExist(s, Values(s.productionUnitMap)))
    ensures WellFormed(s) && r.Ok? ==> OnlyStocksUpdated(s, r.value)
    ensures WellFormed(s) && r.Ok? ==> forall id ::
      Get(r.value.stockMap, id) == GrownEntry(Get(s.stockMap, id), Produced(Values(s.productionUnitMap), id))
  {
    var units := ProductionUnits(s, []);
    ProduceAllFails(s, units);
    ProduceAllFrame(s, units);
    ProduceAllGrowsEverywhere(s, units);
    ProduceAll(s, units)
  }

  /** With non-negative production amounts, a production step keeps every stock non-negative. */
  lemma ProductionKeepsStocksNonNegative(s: Store)
    requires WellFormed(s) && NonNegativeStocks(s)
    requires forall u :: u in Values(s.productionUnitMap) ==> u.productionAmount >= 0
    requires RunProductionStep(s).Ok?
    ensures NonNegativeStocks(RunProductionStep(s).value)
  {
    var units := Values(s.productionUnitMap);
    var r := RunProductionStep(s).value;
    forall i | 0 <= i < |units| ensures units[i].productionAmount >= 0 {
      assert units[i] in units;
    }
    forall x | x in Values(r.stockMap) ensures x.amount >= 0 {
      ProducedNonNegative(units, x.id);
      GrownStockNonNegative(s.stockMap, r.stockMap, x, Produced(units, x.id));
    }
  }

  /** A stock that has grown by a non-negative total from a table of non-negative stocks is
      non-negative. */
  lemma GrownStockNonNegative(before: LinkedMap<Stock>, after: LinkedMap<Stock>, x: Stock, total: int)
    requires Keyed(after, StockId) && x in Values(after)
    requires forall y :: y in Values(before) ==> y.amount >= 0
    requires total >= 0 && Get(after, x.id) == GrownEntry(Get(before, x.id), total)
    ensures x.amount >= 0
  {
    GetValue(after, x, StockId);
    if Get(before, x.id).Some? {
      GetInValues(before, x.id);
    }
  }
}
