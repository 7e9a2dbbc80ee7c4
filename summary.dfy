/**
 * The per-trade merge: how one trade, and then one ordered group of trades,
 * changes a pair's summary record. `high` and `low` treat 0.0 as "not yet
 * set", exactly as the merge does; the lemmas below say what that rule
 * amounts to when every price is positive.
 */
module Summary {
  import opened Models

  /**
   * Applies one trade: overwrites pair and last price, adds the amount to the
   * total and to the trade's side, raises the high / lowers the low (or sets
   * them when they still hold the 0.0 sentinel) and counts the trade.
   */
  function ApplyTrade(a: Analytics, t: Trade): (r: Analytics)
    ensures r.total_volume - (r.buy_volume + r.sell_volume) == a.total_volume - (a.buy_volume + a.sell_volume)
    ensures a.low <= a.high ==> r.low <= r.high
    ensures t.price > 0.0 && (a.low == 0.0 || 0.0 < a.low <= a.high) ==> 0.0 < r.low <= r.high
  {
    var (buy, sell) := match t.side
      case Buy => (a.buy_volume + t.amount, a.sell_volume)
      case Sell => (a.buy_volume, a.sell_volume + t.amount);
    var high := if t.price > a.high || a.high == 0.0 then t.price else a.high;
    var low := if t.price < a.low || a.low == 0.0 then t.price else a.low;
    Analytics(t.pair, t.price, a.total_volume + t.amount, buy, sell, high, low, a.trade_count + 1)
  }

  /** Applies a group of trades in order, first to last. */
  function ApplyAll(a: Analytics, trades: seq<Trade>): (r: Analytics)
    ensures r.trade_count == a.trade_count + |trades|
    ensures r.total_volume - (r.buy_volume + r.sell_volume) == a.total_volume - (a.buy_volume + a.sell_volume)
    ensures trades != [] ==> r.last_price == trades[|trades| - 1].price && r.pair == trades[|trades| - 1].pair
    ensures a.low <= a.high ==> r.low <= r.high
  {
    if trades == [] then a
    else ApplyTrade(ApplyAll(a, trades[..|trades| - 1]), trades[|trades| - 1])
  }

  /** Which volume field a trade contributes to. */
  datatype Volume = AllSides | OnSide(side: Side)

  function Weight(t: Trade, v: Volume): real {
    match v
    case AllSides => t.amount
    case OnSide(side) => if t.side == side then t.amount else 0.0
  }

  /** The summed amounts of `trades` that count towards volume `v`. */
  function VolumeOf(trades: seq<Trade>, v: Volume): real {
    if trades == [] then 0.0
    else VolumeOf(trades[..|trades| - 1], v) + Weight(trades[|trades| - 1], v)
  }

  lemma {:induction false} VolumeOfConcat(a: seq<Trade>, b: seq<Trade>, v: Volume)
    ensures VolumeOf(a + b, v) == VolumeOf(a, v) + VolumeOf(b, v)
  {
    if b == [] {
      assert a + b == a;
    } else {
      assert (a + b)[..|a + b| - 1] == a + b[..|b| - 1];
      VolumeOfConcat(a, b[..|b| - 1], v);
    }
  }

  lemma VolumeOfRemove(b: seq<Trade>, i: nat, v: Volume)
    requires i < |b|
    ensures VolumeOf(b, v) == VolumeOf(b[..i] + b[i + 1..], v) + Weight(b[i], v)
  {
    assert b == (b[..i] + [b[i]]) + b[i + 1..];
    VolumeOfConcat(b[..i] + [b[i]], b[i + 1..], v);
    VolumeOfConcat(b[..i], [b[i]], v);
    VolumeOfConcat(b[..i], b[i + 1..], v);
    assert [b[i]][..0] == [];
  }

  lemma MultisetRemove(b: seq<Trade>, i: nat)
    requires i < |b|
    ensures multiset(b[..i] + b[i + 1..]) == multiset(b) - multiset{b[i]}
  {
    assert b == b[..i] + [b[i]] + b[i + 1..];
  }

  /** Volumes depend only on which trades there are, not on their order. */
  lemma {:induction false} VolumeOfPermutation(a: seq<Trade>, b: seq<Trade>, v: Volume)
    requires multiset(a) == multiset(b)
    ensures VolumeOf(a, v) == VolumeOf(b, v)
  {
    if a != [] {
      var init, x := a[..|a| - 1], a[|a| - 1];
      assert a == init + [x];
      assert x in multiset(b);
      var i :| 0 <= i < |b| && b[i] == x;
      MultisetRemove(b, i);
      VolumeOfPermutation(init, b[..i] + b[i + 1..], v);
      VolumeOfRemove(b, i, v);
    }
  }

  /** The total volume is the buy volume plus the sell volume. */
  lemma {:induction false} VolumeOfSplits(trades: seq<Trade>)
    ensures VolumeOf(trades, AllSides) == VolumeOf(trades, OnSide(Buy)) + VolumeOf(trades, OnSide(Sell))
  {
    if trades != [] {
      VolumeOfSplits(trades[..|trades| - 1]);
    }
  }

  /** Every volume field grows by the group's volume on that field. */
  lemma {:induction false} ApplyAllVolumes(a: Analytics, trades: seq<Trade>)
    ensures ApplyAll(a, trades).total_volume == a.total_volume + VolumeOf(trades, AllSides)
    ensures ApplyAll(a, trades).buy_volume == a.buy_volume + VolumeOf(trades, OnSide(Buy))
    ensures ApplyAll(a, trades).sell_volume == a.sell_volume + VolumeOf(trades, OnSide(Sell))
  {
    if trades != [] {
      ApplyAllVolumes(a, trades[..|trades| - 1]);
    }
  }

  ghost predicate AllPricesPositive(trades: seq<Trade>) {
    forall t :: t in trades ==> t.price > 0.0
  }

  function Max(x: real, y: real): real {
    if x >= y then x else y
  }

  function Min(x: real, y: real): real {
    if x <= y then x else y
  }

  /** The highest price in a non-empty group. */
  function MaxPrice(trades: seq<Trade>): (m: real)
    requires trades != []
    ensures forall t :: t in trades ==> t.price <= m
    ensures exists t :: t in trades && t.price == m
  {
    var init, last := trades[..|trades| - 1], trades[|trades| - 1];
    assert trades == init + [last];
    if init == [] then last.price else Max(MaxPrice(init), last.price)
  }

  /** The lowest price in a non-empty group. */
  function MinPrice(trades: seq<Trade>): (m: real)
    requires trades != []
    ensures forall t :: t in trades ==> m <= t.price
    ensures exists t :: t in trades && t.price == m
  {
    var init, last := trades[..|trades| - 1], trades[|trades| - 1];
    assert trades == init + [last];
    if init == [] then last.price else Min(MinPrice(init), last.price)
  }

  /** The extreme prices depend only on which trades there are. */
  lemma ExtremesOfPermutation(a: seq<Trade>, b: seq<Trade>)
    requires a != [] && multiset(a) == multiset(b)
    ensures b != [] && MaxPrice(a) == MaxPrice(b) && MinPrice(a) == MinPrice(b)
  {
    assert forall t :: t in a <==> t in b by {
      forall t ensures t in a <==> t in b {
        assert t in a <==> t in multiset(a);
      }
    }
  }

  lemma {:induction false} MaxPriceOfConcat(a: seq<Trade>, b: seq<Trade>)
    requires a != [] && b != []
    ensures MaxPrice(a + b) == Max(MaxPrice(a), MaxPrice(b))
  {
    var init, last := b[..|b| - 1], b[|b| - 1];
    assert (a + b)[..|a + b| - 1] == a + init;
    assert (a + b)[|a + b| - 1] == last;
    if init != [] {
      MaxPriceOfConcat(a, init);
    }
  }

  lemma {:induction false} MinPriceOfConcat(a: seq<Trade>, b: seq<Trade>)
    requires a != [] && b != []
    ensures MinPrice(a + b) == Min(MinPrice(a), MinPrice(b))
  {
    var init, last := b[..|b| - 1], b[|b| - 1];
    assert (a + b)[..|a + b| - 1] == a + init;
    assert (a + b)[|a + b| - 1] == last;
    if init != [] {
      MinPriceOfConcat(a, init);
    }
  }

  /**
   * With every price positive, the 0.0 sentinel rule keeps the running
   * maximum and minimum: the high becomes the larger of the old high and the
   * group's highest price, and the low becomes the group's lowest price if the
   * low was still unset, otherwise the smaller of the two.
   */
  lemma {:induction false} ApplyAllExtremes(a: Analytics, trades: seq<Trade>)
    requires trades != [] && AllPricesPositive(trades)
    ensures ApplyAll(a, trades).high == Max(a.high, MaxPrice(trades))
    ensures ApplyAll(a, trades).low == if a.low == 0.0 then MinPrice(trades) else Min(a.low, MinPrice(trades))
  {
    var init := trades[..|trades| - 1];
    assert trades == init + [trades[|trades| - 1]];
    if init != [] {
      ApplyAllExtremes(a, init);
    }
  }

  /** The same holds for the group taken in any order. */
  lemma ApplyAllExtremesOfPermutation(a: Analytics, group: seq<Trade>, ordered: seq<Trade>)
    requires group != [] && AllPricesPositive(group) && multiset(ordered) == multiset(group)
    ensures 0.0 < MinPrice(group) <= MaxPrice(group)
    ensures ApplyAll(a, ordered).high == Max(a.high, MaxPrice(group))
    ensures ApplyAll(a, ordered).low == if a.low == 0.0 then MinPrice(group) else Min(a.low, MinPrice(group))
  {
    ExtremesOfPermutation(group, ordered);
    forall t | t in ordered ensures t.price > 0.0 {
      assert t in multiset(group);
    }
    ApplyAllExtremes(a, ordered);
    var lo :| lo in group && lo.price == MinPrice(group);
  }

  /**
   * The rule that tracks "first trade of the pair" by the count instead of
   * by the 0.0 sentinel; every other field as the merge sets it.
   */
  function ApplyTradeFirstByCount(a: Analytics, t: Trade): (r: Analytics)
    ensures r.trade_count == a.trade_count + 1
    ensures a.trade_count == 0 ==> r.high == t.price && r.low == t.price
    ensures a.trade_count > 0 ==> r.high == Max(a.high, t.price) && r.low == Min(a.low, t.price)
  {
    var s := ApplyTrade(a, t);
    var first := a.trade_count == 0;
    s.(high := if first || t.price > a.high then t.price else a.high,
       low := if first || t.price < a.low then t.price else a.low)
  }

  /**
   * The records on which the sentinel stands for the count: an unused record
   * has both bounds at 0.0, a used one has 0 < low <= high.
   */
  predicate SentinelMatchesCount(a: Analytics) {
    && (a.trade_count == 0 ==> a.high == 0.0 && a.low == 0.0)
    && (a.trade_count > 0 ==> 0.0 < a.low <= a.high)
  }

  /**
   * On such records and with a positive price, the sentinel rule and the
   * count rule give the same record, and the result is again such a record.
   */
  lemma SentinelAgreesWithCount(a: Analytics, t: Trade)
    requires SentinelMatchesCount(a) && t.price > 0.0
    ensures ApplyTrade(a, t) == ApplyTradeFirstByCount(a, t)
    ensures SentinelMatchesCount(ApplyTrade(a, t))
  {
  }

  /** A group applied in order with the count rule. */
  function ApplyAllFirstByCount(a: Analytics, trades: seq<Trade>): Analytics {
    if trades == [] then a
    else ApplyTradeFirstByCount(ApplyAllFirstByCount(a, trades[..|trades| - 1]), trades[|trades| - 1])
  }

  /** Folding a group with positive prices keeps the two rules in step, trade by trade. */
  lemma {:induction false} SentinelAgreesWithCountAll(a: Analytics, trades: seq<Trade>)
    requires SentinelMatchesCount(a) && AllPricesPositive(trades)
    ensures ApplyAll(a, trades) == ApplyAllFirstByCount(a, trades)
    ensures SentinelMatchesCount(ApplyAll(a, trades))
  {
    if trades != [] {
      var init, last := trades[..|trades| - 1], trades[|trades| - 1];
      assert last in trades;
      assert AllPricesPositive(init) by {
        forall t | t in init ensures t.price > 0.0 {
          assert trades == init + [last];
        }
      }
      SentinelAgreesWithCountAll(a, init);
      SentinelAgreesWithCount(ApplyAll(a, init), last);
    }
  }

  /**
   * Where the merge and the count rule part ways: a price of exactly 0.0
   * clears the low back to "unset", and the next trade then replaces it, so
   * the stored low is not the lowest price seen, while the count rule keeps 0.0.
   */
  lemma ZeroPriceUnsetsLow()
    ensures var trades := [Trade(1, "X", 10.0, 1.0, Buy), Trade(2, "X", 0.0, 1.0, Buy), Trade(3, "X", 5.0, 1.0, Buy)];
      && MinPrice(trades) == 0.0
      && ApplyAll(DefaultAnalytics(), trades).low == 5.0
      && ApplyAllFirstByCount(DefaultAnalytics(), trades).low == 0.0
  {
    var t0, t1, t2 := Trade(1, "X", 10.0, 1.0, Buy), Trade(2, "X", 0.0, 1.0, Buy), Trade(3, "X", 5.0, 1.0, Buy);
    var trades := [t0, t1, t2];
    assert trades[..2] == [t0, t1] && [t0, t1][..1] == [t0] && [t0][..0] == [];
    assert MinPrice([t0]) == 10.0;
    assert MinPrice([t0, t1]) == 0.0;
    var first := ApplyTrade(ApplyAll(DefaultAnalytics(), []), t0);
    assert ApplyAll(DefaultAnalytics(), [t0]) == first && first.low == 10.0;
    var second := ApplyTrade(first, t1);
    assert ApplyAll(DefaultAnalytics(), [t0, t1]) == second && second.low == 0.0;
    assert ApplyAll(DefaultAnalytics(), trades) == ApplyTrade(second, t2);
    var byCount := ApplyTradeFirstByCount(ApplyAllFirstByCount(DefaultAnalytics(), []), t0);
    assert ApplyAllFirstByCount(DefaultAnalytics(), [t0]) == byCount && byCount.low == 10.0;
    byCount := ApplyTradeFirstByCount(byCount, t1);
    assert ApplyAllFirstByCount(DefaultAnalytics(), [t0, t1]) == byCount && byCount.low == 0.0;
    assert ApplyAllFirstByCount(DefaultAnalytics(), trades) == ApplyTradeFirstByCount(byCount, t2);
  }
}
