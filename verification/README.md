# Pre-aggregation window iterator with natural months

A Dafny model of `PreAggrWindowWithNaturalMonthIterator`, the time-range
iterator IoTDB uses to pre-aggregate a `GROUP BY TIME` query whose interval
or sliding step is counted in calendar months. The wrapped
`AggrWindowIterator` yields the raw, possibly overlapping windows. This
iterator turns them into one stream of non-overlapping sub-ranges. It puts
both ends of every raw window into a `TimeSelector` (an ordered multiset of
timestamps, ascending or descending). It then hands out ranges
`[first boundary, next boundary)`. It pulls more raw windows from the wrapped
iterator at two points of `getNextTimeRange`: before the pop, when
`lastEndTime >= curStartTimeForIterator`, and after the pop, when the popped
start `>= curStartTimeForIterator`. Both tests compare plain numbers, in
either direction, where `curStartTimeForIterator` is the start of the last
window pulled. A refill adds windows only while the heap holds fewer than
`HEAP_MAX_SIZE` (100) boundaries.

Files:

- `Wrappers.dfy`: `Option`.
- `TimeRange.dfy`: the `[min, max)` pair.
- `TimeSelector.dfy`: the boundary heap, specified at the interface the iterator uses.
- `AggrWindowIterator.dfy`: the raw window stream, as a sequence of windows.
- `PreAggrWindowIterator.dfy`: the iterator itself. Each Java method is a function from the old state to the new one.
- `PreAggrProperties.dfy`: properties that span several calls or hold only under a stated condition.

What the model shows about the source:

- A refill checks the heap size before adding a pair of boundaries. A refill that starts below 100 can therefore end at 101.
- Both refill tests (`lastEndTime >= curStartTimeForIterator` and `retStartTime >= curStartTimeForIterator`) compare plain numbers. The comparison is the same in descending mode.
- The `curStartTime` argument of `getNextTimeRange` plays no part.
- `lastEndTime` starts at 0.
- When the second refill leaves the heap empty, `getNextTimeRange` returns `null` and the popped start is lost.
- Contiguity (each range starts at the previous end) holds whenever no unpulled window has a boundary before the previous end.
- Ordering (start before end in traversal order) also holds under that condition.
- That condition can fail once a refill is refused because the heap is full. `PreAggrProperties.CapacityCanBreakOrdering` exhibits it:
  - The windows are `[i, i + 200)` for `i = 0 … 100`, ascending.
  - The example state has the boundaries `200 … 299` pending, the cursor at 99 and `lastEnd = 200`.
  - The next call hands out `[200, 100)`.
  - Following the constructor and the next 100 calls by hand over the same windows reaches this state. The model does not prove that derivation; the lemma starts from the state itself.

## Model

| member | source | states |
|---|---|---|
| PreAggr.New | server/src/main/java/org/apache/iotdb/db/utils/timerangeiterator/PreAggrWindowWithNaturalMonthIterator.java:37-57 | the constructor keeps the direction flag for `isAscending` and the heap; it seeds the heap with both ends of the first window; the heap ends with 2 to `HEAP_MAX_SIZE` boundaries; the refill stopped because the stream had no next window or the heap reached `HEAP_MAX_SIZE`; `lastEndTime` is 0 |
| PreAggrProperties.InitHoldsLeadingWindows | server/src/main/java/org/apache/iotdb/db/utils/timerangeiterator/PreAggrWindowWithNaturalMonthIterator.java:85-92 | after `initHeap`, for some `n`, the heap holds exactly the boundaries of the first `n` raw windows (`2n` of them); the cursor is the start of window `n`; `n` is all the windows or the heap is at `HEAP_MAX_SIZE` |
| PreAggr.TryToExpandHeap | server/src/main/java/org/apache/iotdb/db/utils/timerangeiterator/PreAggrWindowWithNaturalMonthIterator.java:94-103 | the heap after the loop is the heap before plus both ends of every window `Pulled` names (the windows after the cursor, taken while the size before each pair is below `HEAP_MAX_SIZE`); the cursor becomes the start of the last window taken |
| PreAggr.ExpandTurn | server/src/main/java/org/apache/iotdb/db/utils/timerangeiterator/PreAggrWindowWithNaturalMonthIterator.java:96-101 | one loop turn followed by the rest of the loop meets the whole loop's contract |
| PreAggr.ExpandStep | server/src/main/java/org/apache/iotdb/db/utils/timerangeiterator/PreAggrWindowWithNaturalMonthIterator.java:97-99 | one loop turn adds exactly the window's two ends, grows the size by 2, keeps the comparator, and moves the cursor to the window's start |
| PreAggr.PulledStops | server/src/main/java/org/apache/iotdb/db/utils/timerangeiterator/PreAggrWindowWithNaturalMonthIterator.java:96 | from below `HEAP_MAX_SIZE` the refill overshoots by at most one boundary; it stops only when there is no next window or the size has reached `HEAP_MAX_SIZE` |
| PreAggrProperties.ExpandBoundAndExit | server/src/main/java/org/apache/iotdb/db/utils/timerangeiterator/PreAggrWindowWithNaturalMonthIterator.java:94-103 | a refill on a heap at `HEAP_MAX_SIZE` or above changes nothing; from below, the heap ends with at most `HEAP_MAX_SIZE + 1` boundaries; on exit, either there is no next window or the heap has at least `HEAP_MAX_SIZE` |
| PreAggrProperties.ExpandCanEndAboveCap | server/src/main/java/org/apache/iotdb/db/utils/timerangeiterator/PreAggrWindowWithNaturalMonthIterator.java:96-98 | the bound is reached: a refill of a 99-boundary heap ends with 101 |
| PreAggrProperties.PulledIsConsecutive | server/src/main/java/org/apache/iotdb/db/utils/timerangeiterator/PreAggrWindowWithNaturalMonthIterator.java:95-101 | with distinct window starts, a refill from window `k` takes windows `k+1 …` of the stream in order, and the cursor ends at the start of the last one |
| PreAggr.GetFirstTimeRange | server/src/main/java/org/apache/iotdb/db/utils/timerangeiterator/PreAggrWindowWithNaturalMonthIterator.java:60-64 | the range starts at the first boundary in traversal order, which is removed; it ends at the first of the remaining boundaries, which stays in the heap and becomes `lastEndTime`; the start comes no later than the end; nothing else changes |
| PreAggr.Refill | server/src/main/java/org/apache/iotdb/db/utils/timerangeiterator/PreAggrWindowWithNaturalMonthIterator.java:68-70 | the guarded refill adds exactly the boundaries of the windows it takes, and takes none unless the trigger is numerically at or above the cursor; only the heap and the cursor change |
| PreAggr.PopRange | server/src/main/java/org/apache/iotdb/db/utils/timerangeiterator/PreAggrWindowWithNaturalMonthIterator.java:74-82 | the start is the first pending boundary; the answer is `None` exactly when the heap is empty after the second refill; otherwise the end is the new first boundary and becomes `lastEndTime`; every boundary pending before is still pending, except the start |
| PreAggr.GetNextTimeRange | server/src/main/java/org/apache/iotdb/db/utils/timerangeiterator/PreAggrWindowWithNaturalMonthIterator.java:67-83 | `null` exactly when the heap ends empty, and then `lastEndTime` is unchanged; otherwise the start is the first boundary in traversal order once the first refill is done, the end becomes `lastEndTime` and stays first in the heap; every other pending boundary is kept; comparator and stream unchanged |
| PreAggrProperties.NextIsSomeWithTwoBoundaries | server/src/main/java/org/apache/iotdb/db/utils/timerangeiterator/PreAggrWindowWithNaturalMonthIterator.java:71-81 | with two or more pending boundaries a range is always returned |
| PreAggrProperties.NextIsNoneOnLastBoundary | server/src/main/java/org/apache/iotdb/db/utils/timerangeiterator/PreAggrWindowWithNaturalMonthIterator.java:74-80 | with one boundary left and an exhausted stream, the call returns `null` and drops that boundary |
| PreAggrProperties.NextIgnoresArgument | server/src/main/java/org/apache/iotdb/db/utils/timerangeiterator/PreAggrWindowWithNaturalMonthIterator.java:67-83 | the result does not depend on `curStartTime` |
| PreAggrProperties.NoRefillBelowCursor | server/src/main/java/org/apache/iotdb/db/utils/timerangeiterator/PreAggrWindowWithNaturalMonthIterator.java:68-77 | while `lastEndTime` and the popped start are numerically below the cursor, neither refill fires: only the first boundary is popped and the cursor stays |
| PreAggrProperties.RefillWhenLastEndReachesCursor | server/src/main/java/org/apache/iotdb/db/utils/timerangeiterator/PreAggrWindowWithNaturalMonthIterator.java:68-70 | once `lastEndTime` reaches the cursor with the heap below `HEAP_MAX_SIZE` and windows left, the next window's two ends are pulled and a range is returned |
| PreAggrProperties.RefillPullsNext | server/src/main/java/org/apache/iotdb/db/utils/timerangeiterator/PreAggrWindowWithNaturalMonthIterator.java:94-99 | a fired refill below `HEAP_MAX_SIZE` takes the window right after the cursor's |
| PreAggrProperties.PopOrderedBelowCursor | server/src/main/java/org/apache/iotdb/db/utils/timerangeiterator/PreAggrWindowWithNaturalMonthIterator.java:74-82 | when the popped start is numerically below the cursor, the second refill does not fire and the returned end does not come before the start |
| PreAggrProperties.PopRefillsAtCursor | server/src/main/java/org/apache/iotdb/db/utils/timerangeiterator/PreAggrWindowWithNaturalMonthIterator.java:75-77 | when the popped start reaches the cursor and the heap has room, the next window's two ends are pulled before the end is read, so a range is returned |
| PreAggrProperties.RefillWindowsAt | server/src/main/java/org/apache/iotdb/db/utils/timerangeiterator/PreAggrWindowWithNaturalMonthIterator.java:68-70 | a guarded refill from window `k` takes exactly windows `k+1 … j` for some `j`, and the cursor ends at window `j` |
| PreAggrProperties.NextRangeAccounting | server/src/main/java/org/apache/iotdb/db/utils/timerangeiterator/PreAggrWindowWithNaturalMonthIterator.java:67-83 | a call moves the cursor forward from window `k` to some window `j`; a returned range removes exactly its start, and exactly the boundaries of windows `k+1 … j` are added |
| PreAggrProperties.RefillKeepsNothingBefore | server/src/main/java/org/apache/iotdb/db/utils/timerangeiterator/PreAggrWindowWithNaturalMonthIterator.java:68-70 | if no pending boundary comes before `x` and no unpulled window has an end before `x`, the same holds after a refill |
| PreAggrProperties.NextRangeContiguousAndOrdered | server/src/main/java/org/apache/iotdb/db/utils/timerangeiterator/PreAggrWindowWithNaturalMonthIterator.java:67-83 | when `lastEndTime` is the first pending boundary and no unpulled window has an end before it, the next range starts at `lastEndTime` and its end does not come before its start |
| PreAggrProperties.CapacityCanBreakOrdering | server/src/main/java/org/apache/iotdb/db/utils/timerangeiterator/PreAggrWindowWithNaturalMonthIterator.java:68-81 | when a refill is refused at `HEAP_MAX_SIZE`, a later window can be pulled after the start is popped, and the call returns `[200, 100)`, whose end precedes its start |
| PreAggr.IsAscending | server/src/main/java/org/apache/iotdb/db/utils/timerangeiterator/PreAggrWindowWithNaturalMonthIterator.java:106-108 | the flag equals the heap's comparator direction |
| TimeSelector.Add | server/src/main/java/org/apache/iotdb/db/utils/timerangeiterator/PreAggrWindowWithNaturalMonthIterator.java:87-88 | `add` stores one more occurrence of the timestamp; duplicates are kept, and the size grows by one |
| TimeSelector.First | server/src/main/java/org/apache/iotdb/db/utils/timerangeiterator/PreAggrWindowWithNaturalMonthIterator.java:62 | `first` is a stored timestamp no greater than (ascending) or no smaller than (descending) every stored one |
| TimeSelector.PollFirst | server/src/main/java/org/apache/iotdb/db/utils/timerangeiterator/PreAggrWindowWithNaturalMonthIterator.java:61 | `pollFirst` returns the first timestamp in traversal order and removes exactly one occurrence of it |
| TimeSelector.FirstExists | server/src/main/java/org/apache/iotdb/db/utils/timerangeiterator/PreAggrWindowWithNaturalMonthIterator.java:61-62 | every non-empty heap has a first timestamp, in either direction |
| TimeSelector.IsEmpty | server/src/main/java/org/apache/iotdb/db/utils/timerangeiterator/PreAggrWindowWithNaturalMonthIterator.java:71 | `isEmpty` holds exactly when no timestamp is stored |
| TimeSelector.Empty | server/src/main/java/org/apache/iotdb/db/utils/timerangeiterator/PreAggrWindowWithNaturalMonthIterator.java:46 | the heap starts empty, with the comparator given by the direction flag |
| TimeSelector.SizeCountsRepeats | server/src/main/java/org/apache/iotdb/db/utils/timerangeiterator/PreAggrWindowWithNaturalMonthIterator.java:96 | `size` is zero exactly when `isEmpty` holds, and it counts repeated timestamps: no timestamp occurs more often than `size` |
| AggrWindows.FirstWindow | server/src/main/java/org/apache/iotdb/db/utils/timerangeiterator/PreAggrWindowWithNaturalMonthIterator.java:86 | the wrapped iterator's first window is one of the stream's windows |
| AggrWindows.NextWindow | server/src/main/java/org/apache/iotdb/db/utils/timerangeiterator/PreAggrWindowWithNaturalMonthIterator.java:95 | the wrapped iterator's `getNextTimeRange(cur)` answers one of the stream's windows, or `None`; it depends on `cur` alone |
| AggrWindows.NextWindowFollows | server/src/main/java/org/apache/iotdb/db/utils/timerangeiterator/PreAggrWindowWithNaturalMonthIterator.java:95-101 | an answer is the window right after one that starts at `cur`; `None` only when no window but the last starts at `cur` |
| AggrWindows.IndexOfStartFinds | server/src/main/java/org/apache/iotdb/db/utils/timerangeiterator/PreAggrWindowWithNaturalMonthIterator.java:95 | looking up the window that starts at the cursor finds the first such window, and answers `None` only when no window starts there |
| AggrWindows.NextWindowAt | server/src/main/java/org/apache/iotdb/db/utils/timerangeiterator/PreAggrWindowWithNaturalMonthIterator.java:101 | with distinct starts, the wrapped iterator asked for the window after window `k`'s start answers window `k+1`, or `None` after the last |

## Left out

- `AggrWindowIterator` is not part of this model, and neither is its month and calendar arithmetic:
  - The window stream is a given non-empty sequence.
  - `getNextTimeRange(cur)` is modelled as "the window after the first one that starts at `cur`".
  - The lemmas that follow the stream by position assume distinct window starts (`DistinctStarts`).
  - `getNextTimeRange(cur)` is taken to be free of side effects, a function of `cur` alone. When the refill loop stops on a full heap, the window it has just fetched is dropped; the next refill asks again with the same cursor and gets the same window. If the real iterator kept a position of its own that each call advanced, that window would be lost instead. `NextRangeAccounting`, `PulledIsConsecutive` and `RefillWindowsAt` would then not describe the program.
  - The constructor's `startTime`, `endTime`, `interval`, `slidingStep` and month flags only configure that iterator, so they are replaced by the window sequence.
- `TimeSelector` is not part of this model. It is specified by the operations the iterator calls. The capacity passed to its constructor is not enforced: `Add` never refuses an element, and the iterator's own check allows up to 101.
- `TimeRange` is not part of this model. It is a plain pair, and nothing checks `min <= max`.
- `long` timestamps are unbounded integers. The iterator only stores and compares them and never does arithmetic on them, so 64-bit wrap-around plays no part.
- PreAggr.New: requires a non-empty window stream. Without one, the first window the constructor reads would not exist.
- PreAggr.GetFirstTimeRange: requires at least two pending boundaries. The constructor guarantees this for the first call. On a smaller heap, the source's `pollFirst`/`first` would fail.
- PreAggr.GetNextTimeRange: does not promise that the returned end comes after its start. In general this is false, as `PreAggrProperties.CapacityCanBreakOrdering` shows.
- PreAggrProperties.NextRangeContiguousAndOrdered: proves contiguity and ordering only when no unpulled window has an end before `lastEndTime`. Without that condition the property fails, as shown above.
- The rest of the repository, including the schema queries, pipe data, template activation and the statement-analysis exception, is unrelated to this iterator and is not modelled.
