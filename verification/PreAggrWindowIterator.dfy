/**
 `PreAggrWindowWithNaturalMonthIterator`: merges the boundaries of the raw,
 possibly overlapping windows into one stream of sub-ranges, keeping about
 `HEAP_MAX_SIZE` pending boundaries at most in a `TimeSelector`.

 The iterator's state is an immutable record; every Java method that mutates
 the fields is a function from the old record to the new one.
 */
module PreAggr {
  import opened Wrappers
  import opened TimeRanges
  import opened TimeSelector
  import opened AggrWindows

  /** The refill threshold of the boundary heap. */
  const HEAP_MAX_SIZE: nat := 100

  /**
   `ascending` is the direction flag; `heap` is `timeBoundaryHeap`;
   `windows` is what the wrapped `AggrWindowIterator` yields;
   `cursor` is `curStartTimeForIterator`, the start of the last raw window
   pulled into the heap; `lastEnd` is `lastEndTime`, the end of the range most
   recently handed out (0, the Java default, before the first one).
   */
  datatype Iterator = Iterator(
    ascending: bool,
    heap: Selector,
    windows: seq<TimeRange>,
    cursor: int,
    lastEnd: int)

  /** The heap is ordered by the iterator's own direction flag. */
  predicate Valid(it: Iterator)
  {
    it.heap.ascending == it.ascending
  }

  /** The cursor once the windows of `pulled` are in: the start of the last one. */
  function CursorAfter(pulled: seq<TimeRange>, cursor: int): int
  {
    if |pulled| == 0 then cursor else pulled[|pulled| - 1].min
  }

  /**
   The raw windows a refill takes when the heap holds `size` boundaries: the
   ones after `cursor`, one by one, as long as the size before each pair is
   below `HEAP_MAX_SIZE`.
   */
  function Pulled(windows: seq<TimeRange>, size: nat, cursor: int): (ws: seq<TimeRange>)
    ensures size >= HEAP_MAX_SIZE || NextWindow(windows, cursor).None? ==> ws == []
    decreases HEAP_MAX_SIZE - size
  {
    match NextWindow(windows, cursor)
    case None => []
    case Some(w) =>
      if size >= HEAP_MAX_SIZE then []
      else [w] + Pulled(windows, size + 2, w.min)
  }

  /**
   Where a refill stops: from below `HEAP_MAX_SIZE` it overshoots by at most
   one boundary, and it stops only when the stream has no window after the
   new cursor or the heap has reached `HEAP_MAX_SIZE`.
   */
  lemma {:induction false} PulledStops(windows: seq<TimeRange>, size: nat, cursor: int)
    ensures var ws := Pulled(windows, size, cursor);
      && (size < HEAP_MAX_SIZE ==> size + 2 * |ws| <= HEAP_MAX_SIZE + 1)
      && (NextWindow(windows, CursorAfter(ws, cursor)).None? || size + 2 * |ws| >= HEAP_MAX_SIZE)
    decreases HEAP_MAX_SIZE - size
  {
    if size < HEAP_MAX_SIZE && NextWindow(windows, cursor).Some? {
      var w := NextWindow(windows, cursor).value;
      PulledStops(windows, size + 2, w.min);
      PulledStep(windows, size, cursor);
    }
  }

  /** One turn of the refill loop: both ends of `w` go in, the cursor moves to its start. */
  function ExpandStep(heap: Selector, w: TimeRange): (r: (Selector, int))
    ensures r.0.ascending == heap.ascending
    ensures r.0.elems == heap.elems + multiset{w.min, w.max}
    ensures Size(r.0) == Size(heap) + 2
    ensures r.1 == w.min
  {
    (Add(Add(heap, w.min), w.max), w.min)
  }

  /**
   `tryToExpandHeap`: pulls raw windows after `cursor` while there is one and
   the heap holds fewer than `HEAP_MAX_SIZE` boundaries. The heap gains exactly
   the boundaries of the windows `Pulled` names and loses none, and the cursor
   ends at the start of the last of them.
   */
  function TryToExpandHeap(windows: seq<TimeRange>, heap: Selector, cursor: int): (r: (Selector, int))
    ensures var pulled := Pulled(windows, Size(heap), cursor);
      && r.0.ascending == heap.ascending
      && r.0.elems == heap.elems + Boundaries(pulled)
      && r.1 == CursorAfter(pulled, cursor)
    decreases HEAP_MAX_SIZE - Size(heap)
  {
    match NextWindow(windows, cursor)
    case None => (heap, cursor)
    case Some(w) =>
      if Size(heap) >= HEAP_MAX_SIZE then (heap, cursor)
      else
        var (heap', cursor') := ExpandStep(heap, w);
        var r := TryToExpandHeap(windows, heap', cursor');
        ExpandTurn(windows, heap, cursor, r);
        r
  }

  /**
   One turn of the refill loop keeps its contract: what the rest of the loop
   adds after `ExpandStep`, together with the window that step took, is what
   `Pulled` names from the state before it.
   */
  lemma {:induction false} ExpandTurn(windows: seq<TimeRange>, heap: Selector, cursor: int, r: (Selector, int))
    requires Size(heap) < HEAP_MAX_SIZE && NextWindow(windows, cursor).Some?
    requires var (heap', cursor') := ExpandStep(heap, NextWindow(windows, cursor).value);
      var rest := Pulled(windows, Size(heap'), cursor');
      && r.0.ascending == heap'.ascending
      && r.0.elems == heap'.elems + Boundaries(rest)
      && r.1 == CursorAfter(rest, cursor')
    ensures var pulled := Pulled(windows, Size(heap), cursor);
      && r.0.ascending == heap.ascending
      && r.0.elems == heap.elems + Boundaries(pulled)
      && r.1 == CursorAfter(pulled, cursor)
  {
  }

  /** Unrolls `Pulled` by one window, as one turn of the refill loop does. */
  lemma {:induction false} PulledStep(windows: seq<TimeRange>, size: nat, cursor: int)
    requires size < HEAP_MAX_SIZE && NextWindow(windows, cursor).Some?
    ensures var w := NextWindow(windows, cursor).value;
      var rest := Pulled(windows, size + 2, w.min);
      && Pulled(windows, size, cursor) == [w] + rest
      && Boundaries([w] + rest) == multiset{w.min, w.max} + Boundaries(rest)
      && CursorAfter([w] + rest, cursor) == CursorAfter(rest, w.min)
  {
  }

  /**
   The constructor with `initHeap`: seed the heap with both ends of the first
   raw window, put the cursor at its start, then refill.
   */
  function New(windows: seq<TimeRange>, ascending: bool): (it: Iterator)
    requires |windows| > 0
    ensures Valid(it) && it.windows == windows && it.lastEnd == 0
    ensures IsAscending(it) == ascending && it.heap.ascending == ascending
    ensures multiset{windows[0].min, windows[0].max} <= it.heap.elems
    ensures 2 <= Size(it.heap) <= HEAP_MAX_SIZE
    ensures NextWindow(windows, it.cursor).None? || Size(it.heap) == HEAP_MAX_SIZE
  {
    var first := FirstWindow(windows);
    var seeded := Add(Add(Empty(ascending), first.min), first.max);
    var (heap, cursor) := TryToExpandHeap(windows, seeded, first.min);
    ghost var pulled := Pulled(windows, 2, first.min);
    BoundariesCount(pulled);
    PulledStops(windows, 2, first.min);
    assert Size(seeded) == 2;
    assert Size(heap) == 2 + 2 * |pulled|;
    assert |pulled| <= 49 by {
      assert 2 * |pulled| <= 99;
    }
    Iterator(ascending, heap, windows, cursor, 0)
  }

  /**
   `getFirstTimeRange`: pops the first boundary as the start and peeks the
   next one as the end, which stays in the heap and becomes `lastEnd`.
   */
  function GetFirstTimeRange(it: Iterator): (r: (TimeRange, Iterator))
    requires Valid(it) && Size(it.heap) >= 2
    ensures Valid(r.1)
    ensures IsFirstOf(r.0.min, it.heap.elems, it.ascending)
    ensures r.1.heap.elems == it.heap.elems - multiset{r.0.min}
    ensures IsFirstOf(r.0.max, r.1.heap.elems, it.ascending)
    ensures Before(r.0.min, r.0.max, it.ascending)
    ensures r.1 == it.(heap := r.1.heap, lastEnd := r.0.max)
    ensures First(r.1.heap) == r.1.lastEnd
  {
    var (start, heap) := PollFirst(it.heap);
    var end := First(heap);
    (TimeRange(start, end), it.(heap := heap, lastEnd := end))
  }

  /**
   The windows a refill guarded by `trigger >= cursor` takes: none when the
   guard fails, otherwise those `Pulled` names.
   */
  function RefillWindows(it: Iterator, trigger: int): seq<TimeRange>
  {
    if trigger >= it.cursor then Pulled(it.windows, Size(it.heap), it.cursor) else []
  }

  /**
   One guarded call of `tryToExpandHeap` as `getNextTimeRange` makes it: only
   when `trigger >= cursor`, compared as plain numbers in both directions.
   */
  function Refill(it: Iterator, trigger: int): (r: Iterator)
    ensures r == it.(heap := r.heap, cursor := r.cursor)
    ensures var pulled := RefillWindows(it, trigger);
      && r.heap.ascending == it.heap.ascending
      && r.heap.elems == it.heap.elems + Boundaries(pulled)
      && Size(r.heap) == Size(it.heap) + 2 * |pulled|
      && r.cursor == CursorAfter(pulled, it.cursor)
      && (pulled == [] ==> r == it)
  {
    if trigger >= it.cursor then
      var (heap, cursor) := TryToExpandHeap(it.windows, it.heap, it.cursor);
      BoundariesCount(RefillWindows(it, trigger));
      assert RefillWindows(it, trigger) == [] ==> heap == it.heap;
      it.(heap := heap, cursor := cursor)
    else
      it
  }

  /**
   The second half of `getNextTimeRange`: pop the start, refill if the start
   has reached the cursor, then peek the end, which stays in the heap. Answers
   `None`, with the start dropped, when nothing is left to peek.
   */
  function PopRange(it: Iterator): (r: (Option<TimeRange>, Iterator))
    requires Valid(it) && Size(it.heap) > 0
    ensures Valid(r.1) && r.1.ascending == it.ascending && r.1.windows == it.windows
    ensures r.0.None? <==> Size(r.1.heap) == 0
    ensures r.0.None? ==> r.1.lastEnd == it.lastEnd
    ensures r.0.Some? ==> r.1.lastEnd == r.0.value.max && First(r.1.heap) == r.1.lastEnd
    ensures r.0.Some? ==> IsFirstOf(r.0.value.min, it.heap.elems, it.ascending)
    ensures r.0.Some? ==> it.heap.elems <= r.1.heap.elems + multiset{r.0.value.min}
  {
    var (start, heap2) := PollFirst(it.heap);
    var it3 := Refill(it.(heap := heap2), start);
    if IsEmpty(it3.heap) then
      (None, it3)
    else
      var end := First(it3.heap);
      assert it.heap.elems == heap2.elems + multiset{start};
      (Some(TimeRange(start, end)), it3.(lastEnd := end))
  }

  /**
   `getNextTimeRange`: refill if `lastEnd` has reached the cursor, then
   `PopRange`. Both refill tests compare plain numbers, whatever the
   direction. `curStartTime` is not used. Answers `None` when the heap is
   empty at either point.
   */
  function GetNextTimeRange(it: Iterator, curStartTime: int): (r: (Option<TimeRange>, Iterator))
    requires Valid(it)
    ensures Valid(r.1) && r.1.ascending == it.ascending && r.1.windows == it.windows
    ensures r.0.None? <==> Size(r.1.heap) == 0
    ensures r.0.None? ==> r.1.lastEnd == it.lastEnd
    ensures r.0.Some? ==> r.1.lastEnd == r.0.value.max && First(r.1.heap) == r.1.lastEnd
    ensures r.0.Some? ==> it.heap.elems <= r.1.heap.elems + multiset{r.0.value.min}
    ensures r.0.Some? ==> IsFirstOf(r.0.value.min, Refill(it, it.lastEnd).heap.elems, it.ascending)
  {
    var it1 := Refill(it, it.lastEnd);
    if IsEmpty(it1.heap) then (None, it1) else PopRange(it1)
  }

  /** `isAscending`: the constructor's flag, which also orders the heap. */
  function IsAscending(it: Iterator): (b: bool)
    requires Valid(it)
    ensures b == it.heap.ascending
  {
    it.ascending
  }

}
