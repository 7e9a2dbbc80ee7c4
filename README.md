# Trading engine aggregation core, in Dafny

This project models the aggregation engine of a small trading engine. The
engine takes a batch of market trades and groups it by trading pair. It sorts
each pair's group by timestamp with a stable sort. It then folds every group,
trade by trade, into that pair's running summary record (`Analytics`) in a
keyed store. Two reads return one pair's record or a snapshot of the whole
store. The project also models the small thread-id helper of the logging setup.
That helper keeps the text between the first `(` and the last `)` of a thread
id's debug text.

Modules:

- `Models`: the `Trade`, `Side` and `Analytics` records, and the all-zero
  default record.
- `Wrappers`: the `Option` type.
- `Batch`: grouping by pair, the stable sort by timestamp, and the resulting
  partition. This covers both the functions that specify it and the
  `GroupByPair` / `PartitionBatch` methods with loops.
- `Summary`: the per-trade merge (`ApplyTrade`) and the fold of a group
  (`ApplyAll`). It also holds reference definitions (volume sums, highest and
  lowest price) and the lemmas that tie the merge to them.
- `TradeProcessor`: the store as a function of batches (`ApplyBatch`) and its
  lemmas. It also holds the class `MyTradeProcessor`, whose `analytics` map
  field the methods update in place. Its ghost `history` field holds every
  trade accepted so far. Its invariant `Valid()` says that every stored
  record summarizes all trades of its pair: the count, the three volumes, its
  pair name, low <= high, and, when prices are positive, the high and low as
  the highest and lowest price.
- `Utils`: `find`, `rfind` and `parse_thread_id`.

The engine runs one task per pair. Each task holds its pair's entry for the
whole group, and tasks of one batch touch different keys. The model therefore
runs the tasks one after another (`RunPairTasks`) and applies each pair's
whole group at once.

High and low follow the code: `0.0` means "not yet set". A trade priced 0.0
therefore resets the low to unset, while a positive high stays. A different
rule would treat a trade as the pair's first when `trade_count == 0` at
entry, and only then set both bounds to its price. Where the two rules
disagree, the model follows the code. `ApplyTradeFirstByCount` is that
count-based rule. `SentinelAgreesWithCount` and `SentinelAgreesWithCountAll`
prove that both rules give the same record on records whose bounds are 0.0
exactly when nothing was counted, and otherwise satisfy 0 < low <= high, as
long as prices are positive. `EntryRulesAgree` states that every entry a
consistent store gives a task (`SentinelMatchesCount(Entry(store, pair))`) is
such a record, stored or default, so the two rules agree there. On an
arbitrary record the two rules can differ. `ZeroPriceUnsetsLow` exhibits a
group with a 0.0 price where they also differ: the stored low is 5.0 although
the lowest price is 0.0, and the count-based rule keeps the low at 0.0.

## Model

| member | source | states |
|---|---|---|
| Batch.TradesOf | src/services/trade_processor/mod.rs:18-21 | a pair's group in batch order, never longer than the batch (its contents are in TradesOfCounts) |
| Batch.TradesOfCounts | src/services/trade_processor/mod.rs:18-21 | a pair's group holds each trade of that pair exactly as often as the batch does, and no trade of another pair |
| Batch.TradesOfEmpty | src/services/trade_processor/mod.rs:18-21 | a pair gets a non-empty group exactly when it occurs in the batch |
| Batch.TradesOfConcat | src/services/trade_processor/mod.rs:18-21 | grouping two batches one after the other gives the two groups joined, in batch order |
| Batch.GroupByPair | src/services/trade_processor/mod.rs:18-21 | the grouping loop produces one key per pair of the batch, and under it that pair's trades in batch order |
| Batch.SortByTimestamp | src/services/trade_processor/mod.rs:23-25 | the stable sort by timestamp; keeps the length (order, same trades and stability are in SortByTimestampSorts and SortIsStable) |
| Batch.SortByTimestampSorts | src/services/trade_processor/mod.rs:23-25 | the sort leaves each group in non-decreasing timestamp order, with the same trades |
| Batch.SortIsStable | src/services/trade_processor/mod.rs:23-25 | among trades with one timestamp, the sorted group keeps their batch order |
| Batch.LatestIndex | src/services/trade_processor/mod.rs:23-25 | the position of the trade with the greatest timestamp, the latest one among ties |
| Batch.LastOfSortIsLatest | src/services/trade_processor/mod.rs:23-25 | the last trade of the sorted group is the one with the greatest timestamp, the latest in batch order among ties |
| Batch.Partition | src/services/trade_processor/mod.rs:18-25 | the partition has exactly one key per pair that occurs in the batch |
| Batch.GroupOfPair | src/services/trade_processor/mod.rs:18-25 | each pair's sorted group is non-empty, sorted, stable, and holds exactly the batch's trades of that pair |
| Batch.PartitionIsExact | src/services/trade_processor/mod.rs:18-25 | every trade of the batch has a group; each group holds every trade of its pair exactly as often as the batch does and no other trade; each group is sorted and stable |
| Batch.PartitionBatch | src/services/trade_processor/mod.rs:18-25 | grouping, then sorting every group in place, yields the partition |
| Summary.ApplyTrade | src/services/trade_processor/mod.rs:36-52 | one trade keeps total − (buy + sell) unchanged and keeps low <= high for any price; with a positive price, a record with an unset low or with 0 < low <= high ends with 0 < low <= high |
| Summary.ApplyAll | src/services/trade_processor/mod.rs:36-52 | folding a group adds its length to the count, keeps total − (buy + sell) and low <= high, and leaves the last trade's price and pair |
| Summary.VolumeOfSplits | src/services/trade_processor/mod.rs:39-43 | the total volume of any trades is their buy volume plus their sell volume |
| Summary.VolumeOfPermutation | src/services/trade_processor/mod.rs:39-43 | each volume depends only on which trades there are, not on their order |
| Summary.ApplyAllVolumes | src/services/trade_processor/mod.rs:39-43 | folding a group raises each volume by the group's amounts on that side |
| Summary.ApplyAllExtremes | src/services/trade_processor/mod.rs:44-50 | with positive prices, high becomes max(old high, highest price); low becomes the lowest price if unset, else min(old low, lowest price) |
| Summary.ApplyAllExtremesOfPermutation | src/services/trade_processor/mod.rs:44-50 | the same extremes result for the group applied in any order, with 0 < lowest <= highest price |
| Summary.ApplyTradeFirstByCount | src/services/trade_processor/mod.rs:44-50 | the count-based rule: the first counted trade sets both bounds to its price, later ones take max and min |
| Summary.SentinelAgreesWithCount | src/services/trade_processor/mod.rs:44-50 | with a positive price, on a record whose bounds are 0.0 exactly when nothing was counted, the sentinel rule gives the count-based rule's record, and such a record again |
| Summary.SentinelAgreesWithCountAll | src/services/trade_processor/mod.rs:36-52 | folding a group with positive prices from such a record gives the same record under both rules, and such a record again |
| Summary.ZeroPriceUnsetsLow | src/services/trade_processor/mod.rs:48-50 | a 0.0 price resets the low to unset: for prices 10, 0, 5 the stored low is 5 while the lowest price is 0, and the count-based rule keeps the low at 0 |
| TradeProcessor.Entry | src/services/trade_processor/mod.rs:34 | the stored record, or the all-zero default when the pair has none |
| TradeProcessor.ApplyGroups | src/services/trade_processor/mod.rs:30-37 | the store's keys after the tasks are the old keys plus one per group |
| TradeProcessor.ApplyBatch | src/services/trade_processor/mod.rs:30-37 | after a batch the keys are the old keys plus the batch's pairs, and a pair the batch does not mention keeps its record |
| TradeProcessor.BatchTotals | src/services/trade_processor/mod.rs:34-51 | for every pair, the count rises by the number of its trades in the batch and each volume by their amounts on that side; an entry missing before starts from zero |
| TradeProcessor.BatchLastPrice | src/services/trade_processor/mod.rs:23-38 | a pair in the batch ends with the price of its greatest-timestamp trade (the latest in batch order among ties), keyed by its own pair |
| TradeProcessor.BatchExtremes | src/services/trade_processor/mod.rs:44-50 | with positive prices, the high becomes max(entry high, group's highest price); the low becomes the group's lowest price if the entry's low is unset, else the min of the two; a new pair gets exactly the group's extremes; 0 < low <= high is kept |
| TradeProcessor.BatchKeepsKeys | src/services/trade_processor/mod.rs:34-37 | every record stays keyed by its own pair after a batch |
| TradeProcessor.BatchesCommute | tests/concurrency.rs:79-89 | processing two batches in either order gives the same count and volumes for every pair |
| TradeProcessor.OrderingScenario | tests/concurrency.rs:22-48 | the three BTC-USD trades stamped 300, 100, 200, in any order, give count 3, last price 51000, high 51000, low 50000, volumes 3 / 2 / 1 |
| TradeProcessor.TotalsAfterBatch | src/services/trade_processor/mod.rs:34-51 | after a batch, a pair in the batch's record has the count and volumes of all its pair's trades so far |
| TradeProcessor.ExtremesAfterBatch | src/services/trade_processor/mod.rs:44-50 | after a batch, with positive prices, a pair in the batch's record has as high and low the highest and lowest price of all its pair's trades so far |
| TradeProcessor.SummarizesAfterBatch | src/services/trade_processor/mod.rs:17-64 | after a batch, a touched pair's record summarizes all of that pair's trades so far |
| TradeProcessor.ConsistentAfterBatch | src/services/trade_processor/mod.rs:17-64 | a batch keeps the whole store a summary of all trades so far, one record per pair ever seen |
| TradeProcessor.ConsistentRecord | src/services/trade_processor/mod.rs:36-52 | every stored record is keyed by its pair, has count > 0, total == buy + sell and low <= high; with positive prices also 0 < low, so its bounds are set exactly when a trade was counted |
| TradeProcessor.EntryRulesAgree | src/services/trade_processor/mod.rs:34-50 | with positive prices, every entry a task starts from in a consistent store, stored or default, has its bounds 0.0 exactly when nothing was counted and otherwise 0 < low <= high, and gets the same record from the sentinel rule as from the count-based rule |
| TradeProcessor.UpdateEntry | src/services/trade_processor/mod.rs:36-52 | the field-by-field per-trade loop yields the fold `ApplyAll` of the group |
| TradeProcessor.MyTradeProcessor.constructor | src/services/trade_processor/mod.rs:10-13 | a new engine has an empty store and satisfies its invariant |
| TradeProcessor.MyTradeProcessor.ProcessTrades | src/services/trade_processor/mod.rs:17-64 | the store becomes `ApplyBatch` of the old store and the batch, the history grows by the batch, and the invariant is kept |
| TradeProcessor.MyTradeProcessor.RunPairTasks | src/services/trade_processor/mod.rs:30-57 | running every pair's task applies each group to its entry, creating a missing one as the default, and leaves other entries alone |
| TradeProcessor.MyTradeProcessor.GetAnalytics | src/services/trade_processor/mod.rs:66-70 | None exactly for a pair never processed; otherwise the stored record, which summarizes all of the pair's trades |
| TradeProcessor.MyTradeProcessor.GetAllAnalytics | src/services/trade_processor/mod.rs:72-78 | the snapshot equals the store, with one entry per distinct pair ever processed |
| Utils.Find | src/utils.rs:58 | the position of the first occurrence, and None exactly when the character is absent |
| Utils.RFind | src/utils.rs:59 | the position of the last occurrence, and None exactly when the character is absent |
| Utils.ParseThreadId | src/utils.rs:54-64 | the result is always a contiguous piece of the input |
| Utils.ParseBetweenDelimiters | src/utils.rs:57-61 | with a first '(' before a last ')', the result is exactly the text strictly between them |
| Utils.ParseWithoutOpen | src/utils.rs:58-63 | without a '(' the input comes back unchanged |
| Utils.ParseWithoutClose | src/utils.rs:59-63 | without a ')' the input comes back unchanged |
| Utils.CloseBeforeOpenHasNoSlice | src/utils.rs:60 | whenever the last ')' comes before the first '(', there is no valid slice, so the helper aborts on such text |
| Utils.CloseBeforeOpenExample | src/utils.rs:60 | an example: ")(" has no valid slice |
| Utils.ParseThreadIdText | src/utils.rs:55-61 | the debug text "ThreadId(n)" yields n |

## Left out

- Concurrency is not modelled: the spawned per-pair tasks, the unordered task set, the store's per-key locking, and the propagation of task failures (`res??`). The per-pair tasks run one after another, each atomic, and a failing task has no counterpart.
- The cross-batch ordering of last price, high and low under concurrent batches is not stated. It depends on which task takes the entry lock last. Run sequentially, the last applied batch wins, as `BatchLastPrice` shows for one batch.
- Prices and amounts are exact reals, so floating-point rounding is not modelled.
- Timestamps and the trade count are unbounded naturals. A 64-bit overflow of the count is not modelled.
- The store is a value map that the class field holds. The copy-on-read of records and the shared reference to the store are not modelled.
- The logging setup (`init_logging`) and the debug log lines are I/O and are not modelled.
- `parse_thread_id` takes a thread id's debug text as a string. The formatting of a thread id is not modelled. Characters stand for bytes, which is exact here because both delimiters are ASCII.
- The trade generator, the runner in src/main.rs, the error enum and the benchmark are not part of this model.
- The async trait in src/traits.rs is mirrored only as the method signatures of `MyTradeProcessor`.
- The many-tasks test's sum of counts and volumes over all pairs is not stated as a sum over the store. `ConsistentRecord` gives each record its own pair's count and volumes instead.
- Utils.ParseThreadId: text whose last ')' comes before its first '(' makes the slice abort. The model excludes such text by a precondition (`SliceInBounds`) rather than modelling the abort.
- Summary.ApplyAllExtremes: the high/low results are stated only when every price is positive. With a 0.0 price the sentinel rule does not yield the lowest price (see `ZeroPriceUnsetsLow`).
- TradeProcessor.BatchExtremes: stated only for groups with positive prices. With a 0.0 price the sentinel rule does not yield the lowest price.
- TradeProcessor.ConsistentRecord: 0 < low is stated only when all of the pair's prices are positive; low <= high holds for any price.
