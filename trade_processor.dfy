/**
 * The aggregation engine: a keyed store of per-pair summaries, a batch
 * operation that partitions the batch and applies every pair's sorted group
 * to that pair's record, and the two read operations.
 *
 * The engine runs one task per pair; the tasks touch disjoint keys, so this
 * model runs them one after another, each applying its whole group at once.
 */
module TradeProcessor {
  import opened Wrappers
  import opened Models
  import opened Batch
  import opened Summary

  type Store = map<string, Analytics>

  /** The record a pair's task starts from: the stored one, or the all-zero default. */
  function Entry(store: Store, pair: string): (r: Analytics)
    ensures pair in store ==> r == store[pair]
    ensures pair !in store ==>
      && r.pair == "" && r.last_price == 0.0 && r.trade_count == 0
      && r.total_volume == 0.0 && r.buy_volume == 0.0 && r.sell_volume == 0.0 && r.high == 0.0 && r.low == 0.0
  {
    if pair in store then store[pair] else DefaultAnalytics()
  }

  /** Every group applied to its own pair's entry; the other entries unchanged. */
  function ApplyGroups(store: Store, groups: map<string, seq<Trade>>): (r: Store)
    ensures r.Keys == store.Keys + groups.Keys
  {
    map p | p in store.Keys + groups.Keys ::
      if p in groups then ApplyAll(Entry(store, p), groups[p]) else store[p]
  }

  lemma ApplyGroupsAt(store: Store, groups: map<string, seq<Trade>>, pair: string)
    ensures pair in groups ==> ApplyGroups(store, groups)[pair] == ApplyAll(Entry(store, pair), groups[pair])
    ensures pair !in groups && pair in store ==> ApplyGroups(store, groups)[pair] == store[pair]
  {
  }

  /** The store after one batch: each pair's sorted group applied to that pair's entry. */
  function ApplyBatch(store: Store, trades: seq<Trade>): (r: Store)
    ensures r.Keys == store.Keys + PairsOf(trades)
    ensures forall p :: p in store && p !in PairsOf(trades) ==> r[p] == store[p]
  {
    ApplyGroups(store, Partition(trades))
  }

  /** A pair the batch mentions gets its sorted group applied to its entry. */
  lemma ApplyBatchAt(store: Store, trades: seq<Trade>, pair: string)
    requires pair in PairsOf(trades)
    ensures ApplyBatch(store, trades)[pair] == ApplyAll(Entry(store, pair), SortByTimestamp(TradesOf(trades, pair)))
  {
  }

  /**
   * For every pair, the count rises by the number of the batch's trades of
   * that pair and each volume by the sum of their amounts on that field; a
   * pair the batch does not mention is unchanged in all four.
   */
  lemma BatchTotals(store: Store, trades: seq<Trade>, pair: string)
    ensures var before, after, g := Entry(store, pair), Entry(ApplyBatch(store, trades), pair), TradesOf(trades, pair);
      && after.trade_count == before.trade_count + |g|
      && after.total_volume == before.total_volume + VolumeOf(g, AllSides)
      && after.buy_volume == before.buy_volume + VolumeOf(g, OnSide(Buy))
      && after.sell_volume == before.sell_volume + VolumeOf(g, OnSide(Sell))
  {
    var g := TradesOf(trades, pair);
    TradesOfEmpty(trades, pair);
    if pair in PairsOf(trades) {
      ApplyBatchAt(store, trades, pair);
      var sorted := SortByTimestamp(g);
      SortByTimestampSorts(g);
      ApplyAllVolumes(Entry(store, pair), sorted);
      VolumeOfPermutation(sorted, g, AllSides);
      VolumeOfPermutation(sorted, g, OnSide(Buy));
      VolumeOfPermutation(sorted, g, OnSide(Sell));
    }
  }

  /**
   * A pair the batch mentions ends with the price of its latest trade in the
   * batch: the greatest timestamp, and among equal timestamps the one latest
   * in the batch. Its record is keyed by its own pair.
   */
  lemma BatchLastPrice(store: Store, trades: seq<Trade>, pair: string)
    requires pair in PairsOf(trades)
    ensures var g, after := TradesOf(trades, pair), ApplyBatch(store, trades)[pair];
      && g != []
      && after.last_price == g[LatestIndex(g)].price
      && after.pair == pair
  {
    var g := TradesOf(trades, pair);
    ApplyBatchAt(store, trades, pair);
    TradesOfEmpty(trades, pair);
    TradesOfCounts(trades, pair);
    LastOfSortIsLatest(g);
    assert multiset(g)[g[LatestIndex(g)]] > 0;
  }

  /**
   * With every price of the pair's group positive: a new pair gets the group's
   * highest and lowest price; a stored record whose low is set combines its
   * high and low with the group's; and a record that starts new, or with
   * 0 < low <= high, keeps 0 < low <= high.
   */
  lemma BatchExtremes(store: Store, trades: seq<Trade>, pair: string)
    requires pair in PairsOf(trades) && AllPricesPositive(TradesOf(trades, pair))
    ensures var g, before, after := TradesOf(trades, pair), Entry(store, pair), ApplyBatch(store, trades)[pair];
      && g != []
      && after.high == Max(before.high, MaxPrice(g))
      && after.low == (if before.low == 0.0 then MinPrice(g) else Min(before.low, MinPrice(g)))
      && (pair !in store ==> after.high == MaxPrice(g) && after.low == MinPrice(g))
      && (pair !in store || 0.0 < store[pair].low <= store[pair].high ==> 0.0 < after.low <= after.high)
  {
    var g := TradesOf(trades, pair);
    ApplyBatchAt(store, trades, pair);
    TradesOfEmpty(trades, pair);
    SortByTimestampSorts(g);
    ApplyAllExtremesOfPermutation(Entry(store, pair), g, SortByTimestamp(g));
  }

  /** Every stored record stays keyed by its own pair. */
  lemma BatchKeepsKeys(store: Store, trades: seq<Trade>)
    requires forall p :: p in store ==> store[p].pair == p
    ensures var r := ApplyBatch(store, trades); forall p :: p in r ==> r[p].pair == p
  {
    forall p | p in PairsOf(trades) {
      BatchLastPrice(store, trades, p);
    }
  }

  /**
   * Counts and volumes do not depend on the order in which two batches are
   * processed.
   */
  lemma BatchesCommute(store: Store, b1: seq<Trade>, b2: seq<Trade>, pair: string)
    ensures var x, y := Entry(ApplyBatch(ApplyBatch(store, b1), b2), pair), Entry(ApplyBatch(ApplyBatch(store, b2), b1), pair);
      && x.trade_count == y.trade_count
      && x.total_volume == y.total_volume
      && x.buy_volume == y.buy_volume
      && x.sell_volume == y.sell_volume
  {
    var x, y := Entry(ApplyBatch(ApplyBatch(store, b1), b2), pair), Entry(ApplyBatch(ApplyBatch(store, b2), b1), pair);
    assert x.trade_count == y.trade_count && x.total_volume == y.total_volume by {
      TwoBatchTotals(store, b1, b2, pair);
      TwoBatchTotals(store, b2, b1, pair);
    }
    assert x.buy_volume == y.buy_volume && x.sell_volume == y.sell_volume by {
      TwoBatchTotals(store, b1, b2, pair);
      TwoBatchTotals(store, b2, b1, pair);
    }
  }

  lemma TwoBatchTotals(store: Store, b1: seq<Trade>, b2: seq<Trade>, pair: string)
    ensures var before, after, g1, g2 := Entry(store, pair), Entry(ApplyBatch(ApplyBatch(store, b1), b2), pair), TradesOf(b1, pair), TradesOf(b2, pair);
      && after.trade_count == before.trade_count + |g1| + |g2|
      && after.total_volume == before.total_volume + VolumeOf(g1, AllSides) + VolumeOf(g2, AllSides)
      && after.buy_volume == before.buy_volume + VolumeOf(g1, OnSide(Buy)) + VolumeOf(g2, OnSide(Buy))
      && after.sell_volume == before.sell_volume + VolumeOf(g1, OnSide(Sell)) + VolumeOf(g2, OnSide(Sell))
  {
    BatchTotals(store, b1, pair);
    BatchTotals(ApplyBatch(store, b1), b2, pair);
  }

  /** The three trades of the ordering scenario, in timestamp order. */
  function ScenarioTrades(): seq<Trade> {
    [Trade(100, "BTC-USD", 50000.0, 1.0, Buy),
     Trade(200, "BTC-USD", 50500.0, 1.0, Sell),
     Trade(300, "BTC-USD", 51000.0, 1.0, Buy)]
  }

  lemma ScenarioFigures()
    ensures var s := ScenarioTrades();
      && VolumeOf(s, AllSides) == 3.0 && VolumeOf(s, OnSide(Buy)) == 2.0 && VolumeOf(s, OnSide(Sell)) == 1.0
      && MaxPrice(s) == 51000.0 && MinPrice(s) == 50000.0
  {
    var s := ScenarioTrades();
    assert s[..2] == [s[0], s[1]] && [s[0], s[1]][..1] == [s[0]] && [s[0]][..0] == [];
    forall v ensures VolumeOf(s, v) == Weight(s[0], v) + Weight(s[1], v) + Weight(s[2], v) {
      assert VolumeOf([s[0]], v) == Weight(s[0], v);
      assert VolumeOf([s[0], s[1]], v) == Weight(s[0], v) + Weight(s[1], v);
    }
  }

  lemma ScenarioMembers(batch: seq<Trade>)
    requires multiset(batch) == multiset(ScenarioTrades())
    ensures |batch| == 3
    ensures forall t :: t in batch <==> t in ScenarioTrades()
  {
    assert |batch| == |multiset(batch)|;
    forall t ensures t in batch <==> t in ScenarioTrades() {
      assert t in batch <==> t in multiset(batch);
    }
  }

  /** Any ordering of the scenario's trades is one pair's whole group. */
  lemma ScenarioGroup(batch: seq<Trade>)
    requires multiset(batch) == multiset(ScenarioTrades())
    ensures PairsOf(batch) == {"BTC-USD"} && TradesOf(batch, "BTC-USD") == batch
    ensures AllPricesPositive(batch)
  {
    var listed := ScenarioTrades();
    ScenarioMembers(batch);
    assert forall t :: t in listed ==> t.pair == "BTC-USD" && t.price > 0.0;
    PairsOfOnePair(batch, "BTC-USD");
    TradesOfOnePair(batch, "BTC-USD");
  }

  /** In any ordering, the latest trade of the scenario is the one stamped 300. */
  lemma ScenarioLatest(batch: seq<Trade>)
    requires multiset(batch) == multiset(ScenarioTrades())
    ensures |batch| == 3 && batch[LatestIndex(batch)] == ScenarioTrades()[2]
  {
    var listed := ScenarioTrades();
    ScenarioMembers(batch);
    var latest := batch[LatestIndex(batch)];
    assert latest.timestamp >= 300 by {
      var k :| 0 <= k < |batch| && batch[k] == listed[2];
    }
    assert latest in listed;
  }

  lemma ScenarioTotals(batch: seq<Trade>)
    requires multiset(batch) == multiset(ScenarioTrades())
    ensures var a := ApplyBatch(map[], batch)["BTC-USD"];
      && a.trade_count == 3 && a.total_volume == 3.0 && a.buy_volume == 2.0 && a.sell_volume == 1.0
  {
    var listed, pair := ScenarioTrades(), "BTC-USD";
    ScenarioGroup(batch);
    assert VolumeOf(batch, AllSides) == 3.0 && VolumeOf(batch, OnSide(Buy)) == 2.0 && VolumeOf(batch, OnSide(Sell)) == 1.0 by {
      ScenarioFigures();
      VolumeOfPermutation(listed, batch, AllSides);
      VolumeOfPermutation(listed, batch, OnSide(Buy));
      VolumeOfPermutation(listed, batch, OnSide(Sell));
    }
    BatchTotals(map[], batch, pair);
  }

  lemma ScenarioPrices(batch: seq<Trade>)
    requires multiset(batch) == multiset(ScenarioTrades())
    ensures var a := ApplyBatch(map[], batch)["BTC-USD"];
      && a.pair == "BTC-USD" && a.last_price == 51000.0 && a.high == 51000.0 && a.low == 50000.0
  {
    var listed, pair := ScenarioTrades(), "BTC-USD";
    ScenarioGroup(batch);
    ScenarioFigures();
    BatchExtremes(map[], batch, pair);
    ExtremesOfPermutation(listed, batch);
    ScenarioLatest(batch);
    BatchLastPrice(map[], batch, pair);
  }

  /**
   * The ordering scenario: three BTC-USD trades stamped 100, 200 and 300, in
   * any input order, leave one record with count 3, last price 51000 (the
   * trade stamped 300), high 51000, low 50000, total volume 3, buy volume 2
   * and sell volume 1.
   */
  lemma OrderingScenario(batch: seq<Trade>)
    requires multiset(batch) == multiset(ScenarioTrades())
    ensures ApplyBatch(map[], batch).Keys == {"BTC-USD"}
    ensures ApplyBatch(map[], batch)["BTC-USD"] == Analytics("BTC-USD", 51000.0, 3.0, 2.0, 1.0, 51000.0, 50000.0, 3)
  {
    var after := ApplyBatch(map[], batch);
    assert after.Keys == {"BTC-USD"} by {
      ScenarioGroup(batch);
    }
    var a := after["BTC-USD"];
    assert a.pair == "BTC-USD" && a.last_price == 51000.0 && a.high == 51000.0 && a.low == 50000.0 by {
      ScenarioPrices(batch);
    }
    assert a.trade_count == 3 && a.total_volume == 3.0 && a.buy_volume == 2.0 && a.sell_volume == 1.0 by {
      ScenarioTotals(batch);
    }
  }

  /** What a stored record says about the trades of its pair. */
  ghost predicate Summarizes(a: Analytics, pair: string, trades: seq<Trade>) {
    && trades != []
    && a.pair == pair
    && a.trade_count == |trades|
    && a.total_volume == VolumeOf(trades, AllSides)
    && a.buy_volume == VolumeOf(trades, OnSide(Buy))
    && a.sell_volume == VolumeOf(trades, OnSide(Sell))
    && a.low <= a.high
    && (AllPricesPositive(trades) ==> a.high == MaxPrice(trades) && a.low == MinPrice(trades))
  }

  /**
   * The store holds one record for every pair ever processed, and each record
   * summarizes all trades of its pair accepted so far.
   */
  ghost predicate Consistent(store: Store, history: seq<Trade>) {
    && store.Keys == PairsOf(history)
    && forall p :: p in store ==> Summarizes(store[p], p, TradesOf(history, p))
  }

  lemma PairsOfConcat(a: seq<Trade>, b: seq<Trade>)
    ensures PairsOf(a + b) == PairsOf(a) + PairsOf(b)
  {
    assert forall t :: t in a + b <==> t in a || t in b;
  }

  lemma TotalsAfterBatch(store: Store, history: seq<Trade>, trades: seq<Trade>, pair: string)
    requires Consistent(store, history)
    requires pair in PairsOf(trades)
    ensures var after, all := ApplyBatch(store, trades)[pair], TradesOf(history + trades, pair);
      && after.trade_count == |all|
      && after.total_volume == VolumeOf(all, AllSides)
      && after.buy_volume == VolumeOf(all, OnSide(Buy))
      && after.sell_volume == VolumeOf(all, OnSide(Sell))
  {
    var h, g := TradesOf(history, pair), TradesOf(trades, pair);
    var before := Entry(store, pair);
    assert before.trade_count == |h| && before.total_volume == VolumeOf(h, AllSides)
      && before.buy_volume == VolumeOf(h, OnSide(Buy)) && before.sell_volume == VolumeOf(h, OnSide(Sell)) by {
      if pair in store {
        assert Summarizes(store[pair], pair, h);
      } else {
        TradesOfEmpty(history, pair);
      }
    }
    TradesOfConcat(history, trades, pair);
    BatchTotals(store, trades, pair);
    VolumeOfConcat(h, g, AllSides);
    VolumeOfConcat(h, g, OnSide(Buy));
    VolumeOfConcat(h, g, OnSide(Sell));
  }

  lemma ExtremesAfterBatch(store: Store, history: seq<Trade>, trades: seq<Trade>, pair: string)
    requires Consistent(store, history)
    requires pair in PairsOf(trades)
    requires AllPricesPositive(TradesOf(history + trades, pair))
    ensures var after, all := ApplyBatch(store, trades)[pair], TradesOf(history + trades, pair);
      all != [] && after.high == MaxPrice(all) && after.low == MinPrice(all)
  {
    var h, g := TradesOf(history, pair), TradesOf(trades, pair);
    TradesOfConcat(history, trades, pair);
    assert forall t :: t in g ==> t in h + g;
    BatchExtremes(store, trades, pair);
    if pair !in store {
      TradesOfEmpty(history, pair);
      assert h + g == g;
    } else {
      assert forall t :: t in h ==> t in h + g;
      var lo :| lo in h && lo.price == MinPrice(h);
      MaxPriceOfConcat(h, g);
      MinPriceOfConcat(h, g);
    }
  }

  lemma SummarizesAfterBatch(store: Store, history: seq<Trade>, trades: seq<Trade>, pair: string)
    requires Consistent(store, history)
    requires pair in PairsOf(trades)
    ensures Summarizes(ApplyBatch(store, trades)[pair], pair, TradesOf(history + trades, pair))
  {
    TradesOfConcat(history, trades, pair);
    TradesOfEmpty(trades, pair);
    ApplyBatchAt(store, trades, pair);
    BatchLastPrice(store, trades, pair);
    TotalsAfterBatch(store, history, trades, pair);
    if AllPricesPositive(TradesOf(history + trades, pair)) {
      ExtremesAfterBatch(store, history, trades, pair);
    }
  }

  /** Processing a batch keeps every record a summary of all trades of its pair. */
  lemma ConsistentAfterBatch(store: Store, history: seq<Trade>, trades: seq<Trade>)
    requires Consistent(store, history)
    ensures Consistent(ApplyBatch(store, trades), history + trades)
  {
    var r := ApplyBatch(store, trades);
    PairsOfConcat(history, trades);
    forall p | p in r ensures Summarizes(r[p], p, TradesOf(history + trades, p)) {
      if p in PairsOf(trades) {
        SummarizesAfterBatch(store, history, trades, p);
      } else {
        TradesOfConcat(history, trades, p);
        TradesOfEmpty(trades, p);
        assert TradesOf(history, p) + [] == TradesOf(history, p);
      }
    }
  }

  /**
   * The invariants every stored record keeps: it is keyed by its pair, it has
   * counted at least one trade, total volume is buy plus sell volume, and
   * low <= high; when all its pair's prices are positive, also 0 < low, so the
   * 0.0 sentinel stands for "no trade counted yet".
   */
  lemma ConsistentRecord(store: Store, history: seq<Trade>, pair: string)
    requires Consistent(store, history) && pair in store
    ensures store[pair].pair == pair && store[pair].trade_count > 0
    ensures store[pair].total_volume == store[pair].buy_volume + store[pair].sell_volume
    ensures store[pair].low <= store[pair].high
    ensures AllPricesPositive(TradesOf(history, pair)) ==> 0.0 < store[pair].low <= store[pair].high
    ensures AllPricesPositive(TradesOf(history, pair)) ==> SentinelMatchesCount(store[pair])
  {
    var ts := TradesOf(history, pair);
    VolumeOfSplits(ts);
    if AllPricesPositive(ts) {
      var lo :| lo in ts && lo.price == MinPrice(ts);
    }
  }

  /**
   * Every entry a task starts from in a consistent store, stored or default,
   * gets the same record from the 0.0 sentinel rule as from a "first trade"
   * test on the count, as long as all prices of its pair are positive.
   */
  lemma EntryRulesAgree(store: Store, history: seq<Trade>, pair: string, group: seq<Trade>)
    requires Consistent(store, history)
    requires AllPricesPositive(TradesOf(history, pair)) && AllPricesPositive(group)
    ensures SentinelMatchesCount(Entry(store, pair))
    ensures ApplyAll(Entry(store, pair), group) == ApplyAllFirstByCount(Entry(store, pair), group)
  {
    if pair in store {
      ConsistentRecord(store, history, pair);
    }
    SentinelAgreesWithCountAll(Entry(store, pair), group);
  }

  /** The record a pair's task produces: its group applied to `entry`, trade by trade. */
  method UpdateEntry(entry: Analytics, trades: seq<Trade>) returns (e: Analytics)
    ensures e == ApplyAll(entry, trades)
  {
    e := entry;
    for i := 0 to |trades|
      invariant e == ApplyAll(entry, trades[..i])
    {
      var trade := trades[i];
      assert trades[..i + 1][..i] == trades[..i];
      ghost var before := e;
      e := e.(pair := trade.pair, last_price := trade.price, total_volume := e.total_volume + trade.amount);
      match trade.side {
        case Buy => e := e.(buy_volume := e.buy_volume + trade.amount);
        case Sell => e := e.(sell_volume := e.sell_volume + trade.amount);
      }
      if trade.price > e.high || e.high == 0.0 {
        e := e.(high := trade.price);
      }
      if trade.price < e.low || e.low == 0.0 {
        e := e.(low := trade.price);
      }
      e := e.(trade_count := e.trade_count + 1);
      assert e == ApplyTrade(before, trade);
    }
    assert trades[..|trades|] == trades;
  }

  /**
   * The engine. `analytics` is the keyed store; `history` (ghost) is every
   * trade accepted so far, batch after batch, and is what the records are
   * summaries of.
   */
  class MyTradeProcessor {
    var analytics: Store
    ghost var history: seq<Trade>

    ghost predicate Valid()
      reads this
    {
      Consistent(analytics, history)
    }

    /** A new engine has an empty store. */
    constructor ()
      ensures Valid() && analytics == map[] && history == []
    {
      analytics := map[];
      history := [];
    }

    /**
     * Partitions the batch, then applies every pair's sorted group to that
     * pair's record, creating missing records as the all-zero default.
     */
    method ProcessTrades(trades: seq<Trade>)
      requires Valid()
      modifies this
      ensures Valid()
      ensures history == old(history) + trades
      ensures analytics == ApplyBatch(old(analytics), trades)
    {
      var groups := PartitionBatch(trades);
      ghost var store := analytics;
      RunPairTasks(groups);
      ConsistentAfterBatch(store, history, trades);
      history := history + trades;
    }

    /**
     * Runs one task per pair, each applying its whole group to that pair's
     * record (created as the default record when missing). The tasks touch
     * disjoint keys and run here one after another.
     */
    method RunPairTasks(groups: map<string, seq<Trade>>)
      modifies this`analytics
      ensures analytics == ApplyGroups(old(analytics), groups)
    {
      ghost var store := analytics;
      var pending := groups.Keys;
      while pending != {}
        invariant pending <= groups.Keys
        invariant analytics.Keys == store.Keys + (groups.Keys - pending)
        invariant forall p :: p in analytics && p in pending ==> analytics[p] == store[p]
        invariant forall p :: p in analytics && p !in pending ==>
          analytics[p] == if p in groups then ApplyAll(Entry(store, p), groups[p]) else store[p]
        decreases pending
      {
        var pair :| pair in pending;
        var entry := if pair in analytics then analytics[pair] else DefaultAnalytics();
        assert entry == Entry(store, pair);
        entry := UpdateEntry(entry, groups[pair]);
        analytics := analytics[pair := entry];
        pending := pending - {pair};
      }
      forall p | p in analytics ensures analytics[p] == ApplyGroups(store, groups)[p] {
        ApplyGroupsAt(store, groups, p);
      }
    }

    /** The record of one pair, or None for a pair no processed batch contained. */
    method GetAnalytics(pair: string) returns (r: Option<Analytics>)
      requires Valid()
      ensures r.None? <==> pair !in PairsOf(history)
      ensures r.Some? ==> pair in analytics && r.value == analytics[pair]
      ensures r.Some? ==> Summarizes(r.value, pair, TradesOf(history, pair))
    {
      r := if pair in analytics then Some(analytics[pair]) else None;
    }

    /** A copy of every record, one per pair ever processed. */
    method GetAllAnalytics() returns (r: Store)
      requires Valid()
      ensures r == analytics
      ensures r.Keys == PairsOf(history) && |r| == |PairsOf(history)|
    {
      r := map p | p in analytics :: analytics[p];
    }
  }
}
