/**
 * The batch partitioner: a batch of trades is grouped by pair, each group
 * keeping batch order, and each group is then sorted by timestamp with a
 * stable sort, so trades with equal timestamps keep their batch order.
 */
module Batch {
  import opened Models

  /** The distinct pairs that occur in a batch. */
  function PairsOf(trades: seq<Trade>): set<string> {
    set t | t in trades :: t.pair
  }

  /** The trades of `pair`, in batch order. */
  function TradesOf(trades: seq<Trade>, pair: string): (r: seq<Trade>)
    ensures |r| <= |trades|
  {
    if trades == [] then []
    else
      var init, last := trades[..|trades| - 1], trades[|trades| - 1];
      if last.pair == pair then TradesOf(init, pair) + [last] else TradesOf(init, pair)
  }

  /**
   * A pair's group holds exactly the batch's trades of that pair, each as
   * often as it occurs in the batch, and no other trade.
   */
  lemma {:induction false} TradesOfCounts(trades: seq<Trade>, pair: string)
    ensures forall t :: multiset(TradesOf(trades, pair))[t] == if t.pair == pair then multiset(trades)[t] else 0
  {
    if trades != [] {
      var init, last := trades[..|trades| - 1], trades[|trades| - 1];
      assert trades == init + [last];
      TradesOfCounts(init, pair);
    }
  }

  /** A pair has trades in a batch exactly when it occurs in the batch. */
  lemma TradesOfEmpty(trades: seq<Trade>, pair: string)
    ensures pair in PairsOf(trades) <==> TradesOf(trades, pair) != []
  {
    var r := TradesOf(trades, pair);
    TradesOfCounts(trades, pair);
    if pair in PairsOf(trades) {
      var t :| t in trades && t.pair == pair;
      assert multiset(r)[t] > 0;
    }
  }

  /** A batch of one pair is its own group. */
  lemma {:induction false} TradesOfOnePair(trades: seq<Trade>, pair: string)
    requires forall t :: t in trades ==> t.pair == pair
    ensures TradesOf(trades, pair) == trades
  {
    if trades != [] {
      var init := trades[..|trades| - 1];
      assert trades == init + [trades[|trades| - 1]];
      TradesOfOnePair(init, pair);
    }
  }

  /** A non-empty batch of one pair has that pair alone. */
  lemma PairsOfOnePair(trades: seq<Trade>, pair: string)
    requires trades != [] && forall t :: t in trades ==> t.pair == pair
    ensures PairsOf(trades) == {pair}
  {
    assert trades[0] in trades;
  }

  /** Grouping two batches one after the other gives the two groups joined. */
  lemma {:induction false} TradesOfConcat(a: seq<Trade>, b: seq<Trade>, pair: string)
    ensures TradesOf(a + b, pair) == TradesOf(a, pair) + TradesOf(b, pair)
  {
    if b == [] {
      assert a + b == a;
    } else {
      var init, last := b[..|b| - 1], b[|b| - 1];
      assert (a + b)[..|a + b| - 1] == a + init;
      assert (a + b)[|a + b| - 1] == last;
      TradesOfConcat(a, init, pair);
    }
  }

  ghost predicate SortedByTimestamp(s: seq<Trade>) {
    forall i, j :: 0 <= i < j < |s| ==> s[i].timestamp <= s[j].timestamp
  }

  /** The trades of `s` stamped `ts`, in the order they have in `s`. */
  function AtTimestamp(s: seq<Trade>, ts: nat): seq<Trade> {
    if s == [] then []
    else (if s[0].timestamp == ts then [s[0]] else []) + AtTimestamp(s[1..], ts)
  }

  /**
   * Inserts `x` into `s` in front of the first trade whose timestamp is not
   * smaller than its own.
   */
  function Insert(x: Trade, s: seq<Trade>): (r: seq<Trade>)
    ensures |r| == |s| + 1
    ensures multiset(r) == multiset(s) + multiset{x}
  {
    if s == [] || x.timestamp <= s[0].timestamp then [x] + s
    else
      assert s == [s[0]] + s[1..];
      [s[0]] + Insert(x, s[1..])
  }

  /** A sorted sequence stays sorted with a trade in front that is not later than any of it. */
  lemma SortedCons(x: Trade, s: seq<Trade>)
    requires SortedByTimestamp(s)
    requires forall t :: t in s ==> x.timestamp <= t.timestamp
    ensures SortedByTimestamp([x] + s)
  {
    var r := [x] + s;
    forall i, j | 0 <= i < j < |r| ensures r[i].timestamp <= r[j].timestamp {
      assert r[j] == s[j - 1];
      if i > 0 {
        assert r[i] == s[i - 1];
      }
    }
  }

  lemma {:induction false} InsertSorted(x: Trade, s: seq<Trade>)
    requires SortedByTimestamp(s)
    ensures SortedByTimestamp(Insert(x, s))
  {
    if s == [] || x.timestamp <= s[0].timestamp {
      forall t | t in s ensures x.timestamp <= t.timestamp {
        var k :| 0 <= k < |s| && s[k] == t;
      }
      SortedCons(x, s);
    } else {
      var tail := s[1..];
      var rest := Insert(x, tail);
      assert SortedByTimestamp(tail);
      InsertSorted(x, tail);
      forall t | t in rest ensures s[0].timestamp <= t.timestamp {
        assert multiset(rest)[t] > 0;
        if t != x {
          var k :| 0 <= k < |tail| && tail[k] == t;
          assert s[k + 1] == t;
        }
      }
      SortedCons(s[0], rest);
    }
  }

  /**
   * The sort applied to every group: a stable sort by timestamp (ascending),
   * here an insertion sort.
   */
  function SortByTimestamp(s: seq<Trade>): (r: seq<Trade>)
    ensures |r| == |s|
  {
    if s == [] then [] else Insert(s[0], SortByTimestamp(s[1..]))
  }

  /** The sort leaves its input sorted by timestamp and neither drops nor adds a trade. */
  lemma {:induction false} SortByTimestampSorts(s: seq<Trade>)
    ensures SortedByTimestamp(SortByTimestamp(s))
    ensures multiset(SortByTimestamp(s)) == multiset(s)
  {
    if s != [] {
      assert s == [s[0]] + s[1..];
      SortByTimestampSorts(s[1..]);
      InsertSorted(s[0], SortByTimestamp(s[1..]));
    }
  }

  lemma {:induction false} InsertAtTimestamp(x: Trade, s: seq<Trade>, ts: nat)
    ensures AtTimestamp(Insert(x, s), ts) == (if x.timestamp == ts then [x] else []) + AtTimestamp(s, ts)
  {
    if s == [] || x.timestamp <= s[0].timestamp {
      assert ([x] + s)[1..] == s;
    } else {
      var rest := Insert(x, s[1..]);
      assert ([s[0]] + rest)[1..] == rest;
      InsertAtTimestamp(x, s[1..], ts);
    }
  }

  /** Stability: among trades with one timestamp, the sort keeps batch order. */
  lemma {:induction false} SortIsStable(s: seq<Trade>, ts: nat)
    ensures AtTimestamp(SortByTimestamp(s), ts) == AtTimestamp(s, ts)
  {
    if s != [] {
      SortIsStable(s[1..], ts);
      InsertAtTimestamp(s[0], SortByTimestamp(s[1..]), ts);
    }
  }

  /**
   * The index of the trade a stable ascending sort puts last: the greatest
   * timestamp, and among equal greatest timestamps the latest position.
   */
  function LatestIndex(s: seq<Trade>): (j: nat)
    requires |s| > 0
    ensures j < |s|
    ensures forall i :: 0 <= i < |s| ==> s[i].timestamp <= s[j].timestamp
    ensures forall i :: j < i < |s| ==> s[i].timestamp < s[j].timestamp
  {
    if |s| == 1 then 0
    else
      var k := 1 + LatestIndex(s[1..]);
      if s[0].timestamp > s[k].timestamp then 0 else k
  }

  lemma {:induction false} LastOfInsert(x: Trade, s: seq<Trade>)
    requires SortedByTimestamp(s)
    ensures var r := Insert(x, s);
      r[|r| - 1] == if s == [] || x.timestamp > s[|s| - 1].timestamp then x else s[|s| - 1]
  {
    if s != [] && x.timestamp > s[0].timestamp {
      LastOfInsert(x, s[1..]);
    }
  }

  /** The last trade of a sorted group is the latest trade of the group. */
  lemma {:induction false} LastOfSortIsLatest(s: seq<Trade>)
    requires |s| > 0
    ensures SortByTimestamp(s)[|s| - 1] == s[LatestIndex(s)]
  {
    if |s| > 1 {
      var tail := s[1..];
      var sortedTail := SortByTimestamp(tail);
      SortByTimestampSorts(tail);
      LastOfSortIsLatest(tail);
      LastOfInsert(s[0], sortedTail);
      var k := 1 + LatestIndex(tail);
      assert sortedTail[|tail| - 1] == s[k];
    }
  }

  /** The partitioner's result: per pair, that pair's trades, stably sorted. */
  function Partition(trades: seq<Trade>): (groups: map<string, seq<Trade>>)
    ensures groups.Keys == PairsOf(trades)
  {
    map p | p in PairsOf(trades) :: SortByTimestamp(TradesOf(trades, p))
  }

  /**
   * One pair's group holds exactly the batch's trades of that pair, is not
   * empty, is sorted by timestamp and keeps batch order among equal timestamps.
   */
  lemma GroupOfPair(trades: seq<Trade>, pair: string)
    requires pair in PairsOf(trades)
    ensures var g := SortByTimestamp(TradesOf(trades, pair));
      && g != [] && SortedByTimestamp(g)
      && (forall t :: multiset(g)[t] == if t.pair == pair then multiset(trades)[t] else 0)
      && (forall ts :: AtTimestamp(g, ts) == AtTimestamp(TradesOf(trades, pair), ts))
  {
    var own := TradesOf(trades, pair);
    var g := SortByTimestamp(own);
    SortByTimestampSorts(own);
    TradesOfCounts(trades, pair);
    TradesOfEmpty(trades, pair);
    assert |g| == |multiset(g)| == |multiset(own)| == |own|;
    forall ts ensures AtTimestamp(g, ts) == AtTimestamp(own, ts) {
      SortIsStable(own, ts);
    }
  }

  /**
   * Partitioning neither drops nor duplicates a trade, puts every trade in its
   * own pair's group, and leaves every group sorted by timestamp with equal
   * timestamps in batch order.
   */
  lemma PartitionIsExact(trades: seq<Trade>)
    ensures var groups := Partition(trades);
      && (forall t :: t in trades ==> t.pair in groups)
      && (forall p: string, t: Trade :: p in groups ==> multiset(groups[p])[t] == if t.pair == p then multiset(trades)[t] else 0)
      && (forall p, t :: p in groups && t in groups[p] ==> t.pair == p)
      && (forall p :: p in groups ==> groups[p] != [] && SortedByTimestamp(groups[p]))
      && (forall p, ts :: p in groups ==> AtTimestamp(groups[p], ts) == AtTimestamp(TradesOf(trades, p), ts))
  {
    var groups := Partition(trades);
    forall p | p in groups
      ensures groups[p] != [] && SortedByTimestamp(groups[p])
      ensures forall t: Trade :: multiset(groups[p])[t] == if t.pair == p then multiset(trades)[t] else 0
      ensures forall ts :: AtTimestamp(groups[p], ts) == AtTimestamp(TradesOf(trades, p), ts)
    {
      GroupOfPair(trades, p);
    }
    forall p: string, t: Trade | p in groups && t in groups[p] ensures t.pair == p {
      GroupOfPair(trades, p);
      assert multiset(groups[p])[t] > 0;
    }
  }

  lemma GroupStep(s: seq<Trade>, t: Trade)
    ensures PairsOf(s + [t]) == PairsOf(s) + {t.pair}
    ensures forall p :: TradesOf(s + [t], p) == if t.pair == p then TradesOf(s, p) + [t] else TradesOf(s, p)
  {
    assert (s + [t])[..|s|] == s;
    assert forall u :: u in s + [t] <==> u in s || u == t;
  }

  /** Groups a batch by pair; each group keeps batch order. */
  method GroupByPair(trades: seq<Trade>) returns (groups: map<string, seq<Trade>>)
    ensures groups.Keys == PairsOf(trades)
    ensures forall p :: p in groups ==> groups[p] == TradesOf(trades, p)
  {
    groups := map[];
    for i := 0 to |trades|
      invariant groups.Keys == PairsOf(trades[..i])
      invariant forall p :: p in groups ==> groups[p] == TradesOf(trades[..i], p)
    {
      var t := trades[i];
      ghost var done := trades[..i];
      assert trades[..i + 1] == done + [t];
      GroupStep(done, t);
      TradesOfEmpty(done, t.pair);
      var group := if t.pair in groups then groups[t.pair] else [];
      groups := groups[t.pair := group + [t]];
      assert groups.Keys == PairsOf(done + [t]);
      assert forall p :: p in groups ==> groups[p] == TradesOf(done + [t], p);
    }
    assert trades[..|trades|] == trades;
  }

  /** Groups a batch by pair, then sorts every group by timestamp. */
  method PartitionBatch(trades: seq<Trade>) returns (groups: map<string, seq<Trade>>)
    ensures groups == Partition(trades)
  {
    groups := GroupByPair(trades);
    var pending := groups.Keys;
    while pending != {}
      invariant pending <= groups.Keys == PairsOf(trades)
      invariant forall p :: p in groups ==>
        groups[p] == if p in pending then TradesOf(trades, p) else SortByTimestamp(TradesOf(trades, p))
      decreases pending
    {
      var p :| p in pending;
      groups := groups[p := SortByTimestamp(groups[p])];
      pending := pending - {p};
    }
    assert groups.Keys == Partition(trades).Keys;
    assert forall p :: p in groups ==> groups[p] == Partition(trades)[p];
  }
}
