/** Which reading of the offers a pair is cleared from (controller/MarketController.kt lines
    17-26). As written, a station's open offers are read once and every pair of commodities
    is cleared from that one reading; the pair (B, S) then sees again, unchanged, the offers
    the pair (S, B) has just used up or reduced. Reading the offers anew for each pair (the
    corrected `MarketStep.TradeAtStationFresh`) clears every pair from books that agree with
    the store, and keeps them agreeing while the pair is cleared.
 */
module Snapshot {
  import opened Results
  import opened Sequences
  import opened RegistryObjects
  import opened Matcher
  import opened LinkedMap
  import opened DataStore
  import opened Market
  import opened MarketStep

  /** Every offer of `ts` is stored, unchanged, under its id. */
  ghost predicate Current(m: LinkedMap<Trade>, ts: seq<Trade>) {
    forall i :: 0 <= i < |ts| ==> Get(m, ts[i].id) == Some(ts[i])
  }

  /** No two offers of `ts` share an id. */
  predicate DistinctIds(ts: seq<Trade>) {
    forall i, j :: 0 <= i < j < |ts| ==> ts[i].id != ts[j].id
  }

  /** No offer of `xs` shares an id with an offer of `ys`. */
  predicate Apart(xs: seq<Trade>, ys: seq<Trade>) {
    forall i, j :: 0 <= i < |xs| && 0 <= j < |ys| ==> xs[i].id != ys[j].id
  }

  /** None of the ids `ids(n)`, `ids(n + 1)`, ... is the id of an offer of `ts`. */
  ghost predicate FreshFrom(ids: nat -> string, n: nat, ts: seq<Trade>) {
    forall k: nat, i :: n <= k && 0 <= i < |ts| ==> ids(k) != ts[i].id
  }

  /** The books of a pair describe the store: each of their offers is stored as it stands in
      its book, no offer is in a book twice or in both, and the deal ids still to be used
      are none of theirs. */
  ghost predicate BooksCurrent(c: Clearing, ids: nat -> string) {
    && Current(c.store.tradeMap, c.selling) && Current(c.store.tradeMap, c.buying)
    && DistinctIds(c.selling) && DistinctIds(c.buying) && Apart(c.selling, c.buying)
    && FreshFrom(ids, c.next, c.selling) && FreshFrom(ids, c.next, c.buying)
  }

  /** `r` holds the offers of `ts` under the same ids, position by position. */
  predicate SameIds(r: seq<Trade>, ts: seq<Trade>) {
    |r| == |ts| && forall i :: 0 <= i < |r| ==> r[i].id == ts[i].id
  }

  /** The value under `k` after three writes: the last write to `k` wins. */
  lemma Overwrite3<V>(before: Option<V>, w1: (string, Option<V>), w2: (string, Option<V>), w3: (string, Option<V>), k: string)
    ensures Overwrite(before, [w1, w2, w3], k) ==
      if k == w3.0 then w3.1 else if k == w2.0 then w2.1 else if k == w1.0 then w1.1 else before
  {
    var w := [w1, w2, w3];
    assert w[..2] == [w1, w2];
    assert [w1, w2][..1] == [w1];
    assert [w1][..0] == [];
    assert Overwrite(before, w, k) == if k == w3.0 then w3.1 else Overwrite(before, [w1, w2], k);
    assert Overwrite(before, [w1, w2], k) == if k == w2.0 then w2.1 else Overwrite(before, [w1], k);
    assert Overwrite(before, [w1], k) == if k == w1.0 then w1.1 else before;
  }

  /** What is left of a list after its first offer is used keeps the ids of the list, or of
      its tail when the first offer is used up. */
  lemma RemainingIds(ts: seq<Trade>, used: int)
    requires |ts| > 0
    ensures var r := Remaining(Rest(ts[0], used), ts[1..]);
      if Rest(ts[0], used).None? then r == ts[1..] else SameIds(r, ts)
  {
    var r := Remaining(Rest(ts[0], used), ts[1..]);
    if Rest(ts[0], used).Some? {
      forall i | 0 <= i < |r| ensures r[i].id == ts[i].id {
        if i > 0 {
          assert r[i] == ts[1..][i - 1];
        }
      }
    }
  }

  /** Dropping the first offer of a list keeps the facts about ids. */
  lemma TailIds(xs: seq<Trade>, ys: seq<Trade>, ids: nat -> string, n: nat)
    requires |xs| > 0
    ensures DistinctIds(xs) ==> DistinctIds(xs[1..])
    ensures Apart(xs, ys) ==> Apart(xs[1..], ys) && Apart(ys, xs[1..])
    ensures FreshFrom(ids, n, xs) ==> FreshFrom(ids, n + 1, xs[1..]) && FreshFrom(ids, n, xs[1..])
  {
    assert forall i :: 0 <= i < |xs[1..]| ==> xs[1..][i] == xs[i + 1];
  }

  /** Lists with the same ids, position by position, satisfy the same facts about ids. */
  lemma SameIdsFacts(r: seq<Trade>, xs: seq<Trade>, ys: seq<Trade>, ids: nat -> string, n: nat)
    requires SameIds(r, xs)
    ensures DistinctIds(xs) ==> DistinctIds(r)
    ensures Apart(xs, ys) ==> Apart(r, ys) && Apart(ys, r)
    ensures FreshFrom(ids, n, xs) ==> FreshFrom(ids, n + 1, r) && FreshFrom(ids, n, r)
  {
  }

  /** A turn that drops an offer without trading keeps the books current. */
  lemma DroppedKeepsBooksCurrent(c: Clearing, r: Clearing, ids: nat -> string)
    requires |c.selling| > 0 && |c.buying| > 0 && BooksCurrent(c, ids)
    requires r == c.(selling := c.selling[1..]) || r == c.(buying := c.buying[1..])
    ensures BooksCurrent(r, ids)
  {
    TailIds(c.selling, c.buying, ids, c.next);
    TailIds(c.buying, c.selling, ids, c.next);
    assert forall i :: 0 <= i < |c.selling[1..]| ==> c.selling[1..][i] == c.selling[i + 1];
    assert forall i :: 0 <= i < |c.buying[1..]| ==> c.buying[1..][i] == c.buying[i + 1];
  }

  /** The ids of the books after a settled match satisfy what they did before. */
  lemma SettledIds(c: Clearing, r: Clearing, ids: nat -> string, amount: int, pay: int)
    requires |c.selling| > 0 && |c.buying| > 0 && BooksCurrent(c, ids)
    requires r.selling == Remaining(Rest(c.selling[0], amount), c.selling[1..])
    requires r.buying == Remaining(Rest(c.buying[0], pay), c.buying[1..])
    requires r.next == c.next + 1
    ensures DistinctIds(r.selling) && DistinctIds(r.buying) && Apart(r.selling, r.buying)
    ensures FreshFrom(ids, r.next, r.selling) && FreshFrom(ids, r.next, r.buying)
  {
    RemainingIds(c.selling, amount);
    RemainingIds(c.buying, pay);
    var xs := if Rest(c.selling[0], amount).None? then c.selling[1..] else c.selling;
    var ys := if Rest(c.buying[0], pay).None? then c.buying[1..] else c.buying;
    TailIds(c.selling, c.buying, ids, c.next);
    TailIds(c.buying, c.selling, ids, c.next);
    assert DistinctIds(xs) && DistinctIds(ys) && FreshFrom(ids, r.next, xs) && FreshFrom(ids, r.next, ys);
    TailIds(c.buying, c.selling[1..], ids, c.next);
    assert Apart(xs, ys) && Apart(ys, xs);
    if Rest(c.selling[0], amount).Some? {
      SameIdsFacts(r.selling, xs, ys, ids, c.next + 1);
    }
    if Rest(c.buying[0], pay).Some? {
      SameIdsFacts(r.buying, ys, r.selling, ids, c.next + 1);
    }
  }

  /** What is left of a list is current when its first offer's rest is stored in its place and
      the others are stored unchanged. */
  lemma RemainingCurrent(m: LinkedMap<Trade>, ts: seq<Trade>, used: int)
    requires |ts| > 0 && Get(m, ts[0].id) == Rest(ts[0], used)
    requires forall i :: 1 <= i < |ts| ==> Get(m, ts[i].id) == Some(ts[i])
    ensures Current(m, Remaining(Rest(ts[0], used), ts[1..]))
  {
    var r := Remaining(Rest(ts[0], used), ts[1..]);
    forall i | 0 <= i < |r| ensures Get(m, r[i].id) == Some(r[i]) {
      if Rest(ts[0], used).None? {
        assert r[i] == ts[i + 1];
      } else if i > 0 {
        assert r[i] == ts[i];
      }
    }
  }

  /** After a settled match the stored offers are the books' offers: the rests of the two
      first offers are stored in their place, the deal under a fresh id, and nothing else. */
  lemma SettledCurrent(c: Clearing, r: Clearing, ids: nat -> string, amount: int, pay: int, deal: Trade)
    requires |c.selling| > 0 && |c.buying| > 0 && BooksCurrent(c, ids)
    requires deal.id == ids(c.next)
    requires r.selling == Remaining(Rest(c.selling[0], amount), c.selling[1..])
    requires r.buying == Remaining(Rest(c.buying[0], pay), c.buying[1..])
    requires Rewritten(c.store.tradeMap, r.store.tradeMap,
      [(deal.id, Some(deal)), (c.buying[0].id, Rest(c.buying[0], pay)), (c.selling[0].id, Rest(c.selling[0], amount))])
    ensures Current(r.store.tradeMap, r.selling) && Current(r.store.tradeMap, r.buying)
  {
    var sell := c.selling[0];
    var buy := c.buying[0];
    var m := c.store.tradeMap;
    var m' := r.store.tradeMap;
    var w1 := (deal.id, Some(deal));
    var w2 := (buy.id, Rest(buy, pay));
    var w3 := (sell.id, Rest(sell, amount));
    forall k ensures Get(m', k) == if k == sell.id then Rest(sell, amount) else if k == buy.id then Rest(buy, pay)
      else if k == deal.id then Some(deal) else Get(m, k)
    {
      Overwrite3(Get(m, k), w1, w2, w3, k);
    }
    assert sell.id != buy.id && deal.id != sell.id && deal.id != buy.id;
    RemainingCurrent(m', c.selling, amount);
    RemainingCurrent(m', c.buying, pay);
  }

  /** A settled match keeps the books current. */
  lemma SettledKeepsBooksCurrent(c: Clearing, r: Clearing, ids: nat -> string, amount: int, pay: int, deal: Trade)
    requires |c.selling| > 0 && |c.buying| > 0 && BooksCurrent(c, ids)
    requires deal.id == ids(c.next)
    requires r.selling == Remaining(Rest(c.selling[0], amount), c.selling[1..])
    requires r.buying == Remaining(Rest(c.buying[0], pay), c.buying[1..])
    requires r.next == c.next + 1
    requires Rewritten(c.store.tradeMap, r.store.tradeMap,
      [(deal.id, Some(deal)), (c.buying[0].id, Rest(c.buying[0], pay)), (c.selling[0].id, Rest(c.selling[0], amount))])
    ensures BooksCurrent(r, ids)
  {
    SettledIds(c, r, ids, amount, pay);
    SettledCurrent(c, r, ids, amount, pay, deal);
  }

  /** The store no longer holds the open offer `t` as it was: `t`'s id is free, or holds a
      closed trade or an offer of less. */
  ghost predicate Superseded(m: LinkedMap<Trade>, t: Trade) {
    match Get(m, t.id)
    case None => true
    case Some(u) => u.IsClosed() || u.sellAmount < t.sellAmount
  }

  /** A settled match keeps an offer superseded: what it stores under an offer's id is a rest
      of the offer stored there, or a closed deal. */
  lemma SettledKeepsSuperseded(c: Clearing, r: Clearing, amount: int, pay: int, deal: Trade, t: Trade)
    requires |c.selling| > 0 && |c.buying| > 0
    requires Get(c.store.tradeMap, c.selling[0].id) == Some(c.selling[0])
    requires Get(c.store.tradeMap, c.buying[0].id) == Some(c.buying[0])
    requires amount >= 0 && pay >= 0 && deal.IsClosed()
    requires Rewritten(c.store.tradeMap, r.store.tradeMap,
      [(deal.id, Some(deal)), (c.buying[0].id, Rest(c.buying[0], pay)), (c.selling[0].id, Rest(c.selling[0], amount))])
    requires Superseded(c.store.tradeMap, t)
    ensures Superseded(r.store.tradeMap, t)
  {
    Overwrite3(Get(c.store.tradeMap, t.id), (deal.id, Some(deal)), (c.buying[0].id, Rest(c.buying[0], pay)), (c.selling[0].id, Rest(c.selling[0], amount)), t.id);
  }

  /** One turn of the loop keeps the books current and superseded offers superseded; a turn
      that trades supersedes the first seller's offer. */
  lemma ClearStepKeepsBooksCurrent(c: Clearing, sellCommodityId: string, buyCommodityId: string, ids: nat -> string, now: int, r: Clearing, t: Trade)
    requires AllPositive(c.selling) && AllPositive(c.buying) && Crossing(c)
    requires ClearStep(c, sellCommodityId, buyCommodityId, ids, now) == Ok(r)
    requires WellFormed(c.store) && BooksCurrent(c, ids)
    ensures BooksCurrent(r, ids)
    ensures Superseded(c.store.tradeMap, t) ==> Superseded(r.store.tradeMap, t)
    ensures Matched(c) ==> Superseded(r.store.tradeMap, c.selling[0])
  {
    if Matched(c) {
      var deal := Deal(c.selling[0], c.buying[0], sellCommodityId, buyCommodityId, HeadFill(c), ids(c.next), now);
      MatchedKeepsBooksCurrent(c, r, ids, deal, t);
    } else {
      DroppedKeepsBooksCurrent(c, r, ids);
    }
  }

  lemma MatchedKeepsBooksCurrent(c: Clearing, r: Clearing, ids: nat -> string, deal: Trade, t: Trade)
    requires AllPositive(c.selling) && AllPositive(c.buying) && |c.selling| > 0 && |c.buying| > 0
    requires Cleared(c, r, deal) && deal.IsClosed() && deal.id == ids(c.next)
    requires WellFormed(c.store) && BooksCurrent(c, ids)
    ensures BooksCurrent(r, ids)
    ensures Superseded(c.store.tradeMap, t) ==> Superseded(r.store.tradeMap, t)
    ensures Superseded(r.store.tradeMap, c.selling[0])
  {
    var f := HeadFill(c);
    SettledKeepsBooksCurrent(c, r, ids, f.amount, f.pay, deal);
    if Superseded(c.store.tradeMap, t) {
      SettledKeepsSuperseded(c, r, f.amount, f.pay, deal, t);
    }
    Overwrite3(Get(c.store.tradeMap, c.selling[0].id), (deal.id, Some(deal)), (c.buying[0].id, Rest(c.buying[0], f.pay)),
      (c.selling[0].id, Rest(c.selling[0], f.amount)), c.selling[0].id);
  }

  /** The loop at lines 41-90 cleared from current books keeps them current to the end, and
      an offer it supersedes stays superseded: the store never again holds it as it was. */
  lemma {:induction false} ClearLoopKeepsBooksCurrent(c: Clearing, sellCommodityId: string, buyCommodityId: string, ids: nat -> string, now: int, t: Trade)
    requires AllPositive(c.selling) && AllPositive(c.buying)
    requires ClearLoop(c, sellCommodityId, buyCommodityId, ids, now).Ok?
    requires WellFormed(c.store) && BooksCurrent(c, ids)
    ensures BooksCurrent(ClearLoop(c, sellCommodityId, buyCommodityId, ids, now).value, ids)
    ensures Superseded(c.store.tradeMap, t) ==> Superseded(ClearLoop(c, sellCommodityId, buyCommodityId, ids, now).value.store.tradeMap, t)
    decreases |c.selling| + |c.buying|
  {
    if Crossing(c) {
      var c1 := ClearStep(c, sellCommodityId, buyCommodityId, ids, now).value;
      ClearStepKeepsBooksCurrent(c, sellCommodityId, buyCommodityId, ids, now, c1, t);
      ClearLoopKeepsBooksCurrent(c1, sellCommodityId, buyCommodityId, ids, now, t);
    }
  }

  /** The deal ids from `ids(n)` on are not yet ids of stored trades. */
  ghost predicate UnusedFrom(s: Store, ids: nat -> string, n: nat) {
    forall k: nat :: n <= k ==> Get(s.tradeMap, ids(k)).None?
  }

  /** A table keyed by id holds no trade twice. */
  lemma ValuesNoDuplicates(m: LinkedMap<Trade>)
    requires Keyed(m, TradeId)
    ensures NoDuplicates(Values(m))
  {
    forall i, j | 0 <= i < j < |m| ensures Values(m)[i] != Values(m)[j] {
      assert m[i].0 == TradeId(m[i].1) && m[j].0 == TradeId(m[j].1);
    }
  }

  /** A book drawn from stored offers is current, and its ids are distinct and unused. */
  lemma BookIsCurrent(s: Store, local: seq<Trade>, p: Trade -> bool, b: seq<Trade>, ids: nat -> string, n: nat)
    requires WellFormed(s) && NoDuplicates(local) && UnusedFrom(s, ids, n)
    requires forall t :: t in local ==> t in Values(s.tradeMap)
    requires multiset(b) == multiset(Filter(local, p))
    ensures Current(s.tradeMap, b) && DistinctIds(b) && FreshFrom(ids, n, b)
    ensures forall i :: 0 <= i < |b| ==> p(b[i])
  {
    BookFacts(local, p, b);
    FilterNoDuplicates(local, p);
    NoDuplicatesIffSingle(Filter(local, p));
    NoDuplicatesIffSingle(b);
    forall i | 0 <= i < |b| ensures Get(s.tradeMap, b[i].id) == Some(b[i]) && p(b[i]) {
      assert b[i] in b;
      GetValue(s.tradeMap, b[i], TradeId);
    }
  }

  /** The station's open offers are read from a keyed table, so none is read twice. */
  lemma LocalNoDuplicates(s: Store, station: string)
    requires WellFormed(s)
    ensures NoDuplicates(LocalTrades(s, station))
  {
    var ms := [IsActive(), OnTrades(AtStation(station))];
    assert LocalTrades(s, station) == Filter(Values(s.tradeMap), AllOf(ms));
    ValuesNoDuplicates(s.tradeMap);
    FilterNoDuplicates(Values(s.tradeMap), AllOf(ms));
  }

  /** Current books of opposite pairs of different commodities share no id. */
  lemma BooksApart(m: LinkedMap<Trade>, selling: seq<Trade>, buying: seq<Trade>, sell: string, buy: string)
    requires sell != buy && Current(m, selling) && Current(m, buying)
    requires forall i :: 0 <= i < |selling| ==> PairOf(sell, buy)(selling[i])
    requires forall j :: 0 <= j < |buying| ==> PairOf(buy, sell)(buying[j])
    ensures Apart(selling, buying)
  {
    forall i, j | 0 <= i < |selling| && 0 <= j < |buying| ensures selling[i].id != buying[j].id {
      assert PairOf(sell, buy)(selling[i]) && PairOf(buy, sell)(buying[j]);
    }
  }

  /** The books of a pair drawn from the offers stored at the station are current, when the
      pair's commodities differ and the deal ids to come are unused. */
  lemma LocalBooksCurrent(s: Store, station: string, sell: string, buy: string, ids: nat -> string, n: nat)
    requires WellFormed(s) && sell != buy && UnusedFrom(s, ids, n)
    ensures var local := LocalTrades(s, station);
      BooksCurrent(Clearing(s, SellingBook(local, sell, buy), BuyingBook(local, sell, buy), n), ids)
  {
    var local := LocalTrades(s, station);
    LocalNoDuplicates(s, station);
    var selling := SellingBook(local, sell, buy);
    var buying := BuyingBook(local, sell, buy);
    BookIsCurrent(s, local, PairOf(sell, buy), selling, ids, n);
    BookIsCurrent(s, local, PairOf(buy, sell), buying, ids, n);
    BooksApart(s.tradeMap, selling, buying, sell, buy);
  }

  /** The books of the pair (`sell`, `buy`) at `station`, cleared from the offers stored in
      `s`, deal ids taken from `ids(n)` on. */
  function PairBooks(s: Store, station: string, sell: string, buy: string, n: nat): Clearing {
    var local := LocalTrades(s, station);
    Clearing(s, SellingBook(local, sell, buy), BuyingBook(local, sell, buy), n)
  }

  /** The first seller's offer trades when the first offers of the pair cross and the match
      is accepted. */
  ghost predicate FirstSellerTrades(s: Store, station: string, sell: string, buy: string, n: nat) {
    var c := PairBooks(s, station, sell, buy, n);
    AllPositive(c.selling) && AllPositive(c.buying) && Crossing(c) && Matched(c)
  }

  /** Clearing a pair whose first seller trades leaves that seller's offer, as it was read,
      out of the store: it is used up, or stored for less. */
  lemma {:induction false} PairSupersedesFirstSeller(s: Store, station: string, sell: string, buy: string, ids: nat -> string, n: nat, now: int)
    requires WellFormed(s) && PositiveOffers(s) && sell != buy && UnusedFrom(s, ids, n)
    requires FirstSellerTrades(s, station, sell, buy, n)
    requires TradePair(s, LocalTrades(s, station), sell, buy, ids, n, now).Ok?
    ensures var t := PairBooks(s, station, sell, buy, n).selling[0];
      && t in LocalTrades(s, station) && OfPair(t, sell, buy)
      && t !in Values(TradePair(s, LocalTrades(s, station), sell, buy, ids, n, now).value.0.tradeMap)
  {
    var local := LocalTrades(s, station);
    var c := PairBooks(s, station, sell, buy, n);
    BookFacts(local, PairOf(sell, buy), c.selling);
    assert c.selling[0] in c.selling;
    LocalBooksCurrent(s, station, sell, buy, ids, n);
    FirstSellerUsedUp(c, sell, buy, ids, now);
  }

  /** A loop whose first turn trades does not leave the first seller's offer, as read, in
      the store. */
  lemma {:induction false} FirstSellerUsedUp(c: Clearing, sellCommodityId: string, buyCommodityId: string, ids: nat -> string, now: int)
    requires AllPositive(c.selling) && AllPositive(c.buying) && Crossing(c) && Matched(c)
    requires ClearLoop(c, sellCommodityId, buyCommodityId, ids, now).Ok?
    requires WellFormed(c.store) && BooksCurrent(c, ids) && c.selling[0].IsActive()
    ensures c.selling[0] !in Values(ClearLoop(c, sellCommodityId, buyCommodityId, ids, now).value.store.tradeMap)
  {
    var t := c.selling[0];
    var c1 := ClearStep(c, sellCommodityId, buyCommodityId, ids, now).value;
    ClearStepKeepsBooksCurrent(c, sellCommodityId, buyCommodityId, ids, now, c1, t);
    ClearLoopKeepsBooksCurrent(c1, sellCommodityId, buyCommodityId, ids, now, t);
    var r := ClearLoop(c1, sellCommodityId, buyCommodityId, ids, now).value;
    if t in Values(r.store.tradeMap) {
      GetValue(r.store.tradeMap, t, TradeId);
    }
  }

  /** As written (`MarketStep.TradeAtStation`), the pair (`buy`, `sell`) is visited as well and
      is cleared from the same reading: its sellers' book still offers the first seller's
      offer of the pair (`sell`, `buy`), at its full amount, although clearing that pair has
      used it up or reduced it in the store. */
  lemma {:induction false} StaleOfferTradedAgain(s: Store, station: string, sell: string, buy: string, ids: nat -> string, n: nat, now: int)
    requires WellFormed(s) && PositiveOffers(s) && sell != buy && UnusedFrom(s, ids, n)
    requires FirstSellerTrades(s, station, sell, buy, n)
    requires TradePair(s, LocalTrades(s, station), sell, buy, ids, n, now).Ok?
    ensures var local := LocalTrades(s, station);
      var t := PairBooks(s, station, sell, buy, n).selling[0];
      && buy in SellCommodities(local) && sell in BuyCommodities(local)
      && t in BuyingBook(local, buy, sell)
      && t !in Values(TradePair(s, local, sell, buy, ids, n, now).value.0.tradeMap)
  {
    var local := LocalTrades(s, station);
    var c := PairBooks(s, station, sell, buy, n);
    PairSupersedesFirstSeller(s, station, sell, buy, ids, n, now);
    BookFacts(local, PairOf(buy, sell), c.buying);
    assert c.buying[0] in c.buying;
    BookFacts(local, PairOf(sell, buy), BuyingBook(local, buy, sell));
  }

  /** Corrected (`MarketStep.TradeAtStationFresh`): the pair (`buy`, `sell`) reads the offers
      again, and neither of its books holds the first seller's offer of the pair (`sell`,
      `buy`) as it was read before that pair was cleared. */
  lemma {:induction false} FreshReadDropsUsedOffer(s: Store, station: string, sell: string, buy: string, ids: nat -> string, n: nat, now: int)
    requires WellFormed(s) && PositiveOffers(s) && sell != buy && UnusedFrom(s, ids, n)
    requires FirstSellerTrades(s, station, sell, buy, n)
    requires TradePair(s, LocalTrades(s, station), sell, buy, ids, n, now).Ok?
    ensures var t := PairBooks(s, station, sell, buy, n).selling[0];
      var after := LocalTrades(TradePair(s, LocalTrades(s, station), sell, buy, ids, n, now).value.0, station);
      t !in BuyingBook(after, buy, sell) && t !in SellingBook(after, buy, sell)
  {
    var p := TradePair(s, LocalTrades(s, station), sell, buy, ids, n, now).value;
    var after := LocalTrades(p.0, station);
    PairSupersedesFirstSeller(s, station, sell, buy, ids, n, now);
    BookFacts(after, PairOf(sell, buy), BuyingBook(after, buy, sell));
    BookFacts(after, PairOf(buy, sell), SellingBook(after, buy, sell));
  }
}
