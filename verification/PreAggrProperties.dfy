/**
 Properties of the pre-aggregation iterator that relate several calls, or
 that hold of the raw window stream only under a stated condition.
 */
module PreAggrProperties {
  import opened Wrappers
  import opened TimeRanges
  import opened TimeSelector
  import opened AggrWindows
  import opened PreAggr

  /**
   With distinct window starts, a refill from the start of window `k` pulls
   the windows right after it, in stream order, and leaves the cursor at the
   start of the last one pulled.
   */
  lemma {:induction false} PulledIsConsecutive(windows: seq<TimeRange>, size: nat, k: nat)
    requires DistinctStarts(windows) && k < |windows|
    ensures var pulled := Pulled(windows, size, windows[k].min);
      && k + |pulled| < |windows|
      && pulled == windows[k + 1..k + 1 + |pulled|]
      && CursorAfter(pulled, windows[k].min) == windows[k + |pulled|].min
    decreases HEAP_MAX_SIZE - size
  {
    NextWindowAt(windows, k);
    if size < HEAP_MAX_SIZE && k + 1 < |windows| {
      PulledIsConsecutive(windows, size + 2, k + 1);
      var rest := Pulled(windows, size + 2, windows[k + 1].min);
      assert Pulled(windows, size, windows[k].min) == [windows[k + 1]] + rest;
      assert windows[k + 1..k + 2 + |rest|] == [windows[k + 1]] + windows[k + 2..k + 2 + |rest|];
      assert CursorAfter([windows[k + 1]] + rest, windows[k].min) == CursorAfter(rest, windows[k + 1].min);
    }
  }

  /**
   Construction: the heap holds exactly the boundaries of the first `n` raw
   windows, the cursor is the start of the `n`-th, and the refill stopped
   because the stream ended or the heap reached `HEAP_MAX_SIZE`.
   */
  lemma {:induction false} InitHoldsLeadingWindows(windows: seq<TimeRange>, ascending: bool)
    requires |windows| > 0 && DistinctStarts(windows)
    ensures var it := New(windows, ascending);
      exists n :: 0 < n <= |windows|
        && Size(it.heap) == 2 * n
        && it.heap.elems == Boundaries(windows[..n])
        && it.cursor == windows[n - 1].min
        && (n == |windows| || Size(it.heap) == HEAP_MAX_SIZE)
  {
    var it := New(windows, ascending);
    var first := windows[0];
    var seeded := Add(Add(Empty(ascending), first.min), first.max);
    assert seeded.elems == multiset{first.min, first.max};
    var n := LeadingWindowsPulled(windows);
    assert it.heap.elems == Boundaries(windows[..n]);
    assert Size(it.heap) == 2 * n by {
      BoundariesCount(windows[..n]);
    }
    assert it.cursor == windows[n - 1].min;
    assert n == |windows| || Size(it.heap) == HEAP_MAX_SIZE;
  }

  /** The windows the constructor's refill pulls are the ones after the first. */
  lemma {:induction false} LeadingWindowsPulled(windows: seq<TimeRange>) returns (n: nat)
    requires |windows| > 0 && DistinctStarts(windows)
    ensures var pulled := Pulled(windows, 2, windows[0].min);
      && n == |pulled| + 1 && n <= |windows|
      && CursorAfter(pulled, windows[0].min) == windows[n - 1].min
      && Boundaries(windows[..n]) == multiset{windows[0].min, windows[0].max} + Boundaries(pulled)
      && (NextWindow(windows, windows[n - 1].min).None? <==> n == |windows|)
  {
    var pulled := Pulled(windows, 2, windows[0].min);
    n := |pulled| + 1;
    PulledIsConsecutive(windows, 2, 0);
    assert pulled == windows[1..n];
    assert Boundaries(windows[..n]) == multiset{windows[0].min, windows[0].max} + Boundaries(pulled) by {
      BoundariesOfPrefix(windows, n);
    }
    assert NextWindow(windows, windows[n - 1].min).None? <==> n == |windows| by {
      NextWindowAt(windows, n - 1);
    }
  }

  /** The boundaries of the first `n` windows: the first window's, then the rest's. */
  lemma {:induction false} BoundariesOfPrefix(windows: seq<TimeRange>, n: nat)
    requires 0 < n <= |windows|
    ensures Boundaries(windows[..n])
         == multiset{windows[0].min, windows[0].max} + Boundaries(windows[1..n])
  {
    assert windows[..n][1..] == windows[1..n];
  }

  /**
   The refill loop's exit: it adds nothing to a heap already at
   `HEAP_MAX_SIZE`; from below it ends with at most one boundary more than
   `HEAP_MAX_SIZE`; and it stops only when the stream has no next window or
   the heap has reached `HEAP_MAX_SIZE`.
   */
  lemma {:induction false} ExpandBoundAndExit(windows: seq<TimeRange>, heap: Selector, cursor: int)
    ensures var r := TryToExpandHeap(windows, heap, cursor);
      && (Size(heap) >= HEAP_MAX_SIZE ==> r == (heap, cursor))
      && (Size(heap) < HEAP_MAX_SIZE ==> Size(r.0) <= HEAP_MAX_SIZE + 1)
      && (NextWindow(windows, r.1).None? || Size(r.0) >= HEAP_MAX_SIZE)
  {
    var r := TryToExpandHeap(windows, heap, cursor);
    var pulled := Pulled(windows, Size(heap), cursor);
    assert Size(r.0) == Size(heap) + 2 * |pulled| by {
      BoundariesCount(pulled);
    }
    PulledStops(windows, Size(heap), cursor);
    if Size(heap) >= HEAP_MAX_SIZE {
      assert r.0 == heap;
    }
  }

  /** The bound is reached: a heap of 99 boundaries ends a refill with 101. */
  lemma {:induction false} ExpandCanEndAboveCap()
    ensures var windows := [TimeRange(0, 10), TimeRange(1, 11)];
      var heap := Selector(true, multiset(seq(99, i => 20 + i)));
      Size(TryToExpandHeap(windows, heap, 0).0) == HEAP_MAX_SIZE + 1
  {
    var windows := [TimeRange(0, 10), TimeRange(1, 11)];
    var heap := Selector(true, multiset(seq(99, i => 20 + i)));
    NextWindowAt(windows, 0);
    NextWindowAt(windows, 1);
    assert Pulled(windows, 99, 0) == [TimeRange(1, 11)];
    BoundariesCount([TimeRange(1, 11)]);
  }

  /** A heap with two or more boundaries always yields a range. */
  lemma {:induction false} NextIsSomeWithTwoBoundaries(it: Iterator, curStartTime: int)
    requires Valid(it) && Size(it.heap) >= 2
    ensures GetNextTimeRange(it, curStartTime).0.Some?
  {
  }

  /**
   A heap holding one boundary over an exhausted stream yields `None`, and
   that last boundary is gone afterwards.
   */
  lemma {:induction false} NextIsNoneOnLastBoundary(it: Iterator, curStartTime: int)
    requires Valid(it) && Size(it.heap) == 1 && NextWindow(it.windows, it.cursor).None?
    ensures var r := GetNextTimeRange(it, curStartTime);
      r.0.None? && Size(r.1.heap) == 0 && r.1.cursor == it.cursor
  {
  }

  /** The argument of `getNextTimeRange` plays no part. */
  lemma {:induction false} NextIgnoresArgument(it: Iterator, t1: int, t2: int)
    requires Valid(it)
    ensures GetNextTimeRange(it, t1) == GetNextTimeRange(it, t2)
  {
  }

  /**
   Neither refill fires while `lastEnd` and the popped start are numerically
   below the cursor: the call then only pops the first boundary.
   */
  lemma {:induction false} NoRefillBelowCursor(it: Iterator, curStartTime: int)
    requires Valid(it) && Size(it.heap) >= 2
    requires it.lastEnd < it.cursor && First(it.heap) < it.cursor
    ensures var r := GetNextTimeRange(it, curStartTime);
      && r.0.Some? && r.0.value.min == First(it.heap)
      && r.1.cursor == it.cursor
      && r.1.heap.elems == it.heap.elems - multiset{First(it.heap)}
  {
  }

  /**
   Once `lastEnd` reaches the cursor numerically, a heap below
   `HEAP_MAX_SIZE` over a stream with windows left pulls the next window
   before anything is popped.
   */
  lemma {:induction false} RefillWhenLastEndReachesCursor(it: Iterator, curStartTime: int, k: nat)
    requires Valid(it) && DistinctStarts(it.windows)
    requires k + 1 < |it.windows| && it.windows[k].min == it.cursor
    requires it.lastEnd >= it.cursor && Size(it.heap) < HEAP_MAX_SIZE
    ensures var r := GetNextTimeRange(it, curStartTime);
      && r.0.Some?
      && multiset{it.windows[k + 1].min, it.windows[k + 1].max}
           <= r.1.heap.elems + multiset{r.0.value.min}
  {
    var it1 := Refill(it, it.lastEnd);
    RefillPullsNext(it, it.lastEnd, k);
    assert multiset{it.windows[k + 1].min, it.windows[k + 1].max} <= it1.heap.elems;
    assert GetNextTimeRange(it, curStartTime) == PopRange(it1);
  }

  /** A fired refill below `HEAP_MAX_SIZE` takes the window right after the cursor's. */
  lemma {:induction false} RefillPullsNext(it: Iterator, trigger: int, k: nat)
    requires DistinctStarts(it.windows)
    requires k + 1 < |it.windows| && it.windows[k].min == it.cursor
    requires trigger >= it.cursor && Size(it.heap) < HEAP_MAX_SIZE
    ensures multiset{it.windows[k + 1].min, it.windows[k + 1].max}
         <= Boundaries(RefillWindows(it, trigger))
  {
    NextWindowAt(it.windows, k);
    var pulled := RefillWindows(it, trigger);
    assert pulled[0] == it.windows[k + 1];
  }

  /**
   When the popped start stays numerically below the cursor, the second refill
   does not fire, and the range's end comes after its start in comparator order.
   */
  lemma {:induction false} PopOrderedBelowCursor(it: Iterator)
    requires Valid(it) && Size(it.heap) > 0 && First(it.heap) < it.cursor
    ensures var r := PopRange(it);
      && r.1.cursor == it.cursor
      && (r.0.Some? ==> Before(r.0.value.min, r.0.value.max, it.ascending))
  {
  }

  /**
   When the popped start reaches the cursor numerically and the heap, less the
   popped start, is below `HEAP_MAX_SIZE`, the next window is pulled before the
   end is read, so a range is handed out.
   */
  lemma {:induction false} PopRefillsAtCursor(it: Iterator, k: nat)
    requires Valid(it) && DistinctStarts(it.windows) && Size(it.heap) > 0
    requires k + 1 < |it.windows| && it.windows[k].min == it.cursor
    requires First(it.heap) >= it.cursor && Size(it.heap) <= HEAP_MAX_SIZE
    ensures var r := PopRange(it);
      && r.0.Some?
      && multiset{it.windows[k + 1].min, it.windows[k + 1].max} <= r.1.heap.elems
  {
    PopRangeRefills(it);
    var (start, heap2) := PollFirst(it.heap);
    FirstIsUnique(start, First(it.heap), it.heap.elems, it.ascending);
    RefillPullsNext(it.(heap := heap2), start, k);
    assert multiset{it.windows[k + 1].min, it.windows[k + 1].max}
        <= Refill(it.(heap := heap2), start).heap.elems;
  }

  /**
   The bookkeeping of a step from `it` to `r`: the cursor moved forward from
   window `k` to window `j`, and a range handed out took exactly its start out
   of the heap while exactly the boundaries of windows `k + 1 .. j` went in.
   */
  predicate Accounted(it: Iterator, r: (Option<TimeRange>, Iterator), k: nat, j: nat)
  {
    && k <= j < |it.windows| && r.1.cursor == it.windows[j].min
    && (r.0.Some? ==>
          r.1.heap.elems + multiset{r.0.value.min}
            == it.heap.elems + Boundaries(it.windows[k + 1..j + 1]))
  }

  /**
   Bookkeeping of one `getNextTimeRange` call on a stream with distinct
   starts, from a cursor at window `k`.
   */
  lemma {:induction false} NextRangeAccounting(it: Iterator, curStartTime: int, k: nat) returns (j: nat)
    requires Valid(it) && DistinctStarts(it.windows)
    requires k < |it.windows| && it.windows[k].min == it.cursor
    ensures Accounted(it, GetNextTimeRange(it, curStartTime), k, j)
  {
    var it1 := Refill(it, it.lastEnd);
    var j1 := RefillAdvances(it, it.lastEnd, k);
    if IsEmpty(it1.heap) {
      assert GetNextTimeRange(it, curStartTime) == (None, it1);
      j := j1;
    } else {
      assert GetNextTimeRange(it, curStartTime) == PopRange(it1);
      j := PopRangeAccounting(it1, j1);
      AccountedChain(it, it1, PopRange(it1), k, j1, j);
    }
  }

  /**
   Bookkeeping composes: a refill that added the windows after `k` up to `j1`,
   followed by a step accounted from `j1` to `j`, is accounted from `k` to `j`.
   */
  lemma {:induction false} AccountedChain(it: Iterator, it1: Iterator, r: (Option<TimeRange>, Iterator), k: nat, j1: nat, j: nat)
    requires it1.windows == it.windows && k <= j1 && Accounted(it1, r, j1, j)
    requires it1.heap.elems == it.heap.elems + Boundaries(it.windows[k + 1..j1 + 1])
    ensures Accounted(it, r, k, j)
  {
    var before := Boundaries(it.windows[k + 1..j1 + 1]);
    var after := Boundaries(it.windows[j1 + 1..j + 1]);
    BoundariesOfAdjacentSlices(it.windows, k, j1, j);
    if r.0.Some? {
      calc {
        r.1.heap.elems + multiset{r.0.value.min};
        it1.heap.elems + after;
        it.heap.elems + before + after;
        it.heap.elems + Boundaries(it.windows[k + 1..j + 1]);
      }
    }
  }

  /** The same bookkeeping for the pop-and-peek half of the call. */
  lemma {:induction false} PopRangeAccounting(it: Iterator, k: nat) returns (j: nat)
    requires Valid(it) && DistinctStarts(it.windows) && Size(it.heap) > 0
    requires k < |it.windows| && it.windows[k].min == it.cursor
    ensures Accounted(it, PopRange(it), k, j)
  {
    var (start, heap2) := PollFirst(it.heap);
    var it2 := it.(heap := heap2);
    j := RefillAdvances(it2, start, k);
    PopRangeRefills(it);
  }

  /** `PopRange` leaves the heap and cursor of the refill after the pop. */
  lemma {:induction false} PopRangeRefills(it: Iterator)
    requires Valid(it) && Size(it.heap) > 0
    ensures var (start, heap2) := PollFirst(it.heap);
      var it3 := Refill(it.(heap := heap2), start);
      var r := PopRange(it);
      && r.1.cursor == it3.cursor
      && (r.0.Some? ==> r.0.value.min == start && r.1.heap == it3.heap)
  {
  }

  /** The boundaries of two adjacent runs of windows add up to those of the joined run. */
  lemma {:induction false} BoundariesOfAdjacentSlices(windows: seq<TimeRange>, k: nat, j1: nat, j: nat)
    requires k <= j1 <= j < |windows|
    ensures Boundaries(windows[k + 1..j1 + 1]) + Boundaries(windows[j1 + 1..j + 1])
      == Boundaries(windows[k + 1..j + 1])
  {
    assert windows[k + 1..j + 1] == windows[k + 1..j1 + 1] + windows[j1 + 1..j + 1];
    BoundariesAppend(windows[k + 1..j1 + 1], windows[j1 + 1..j + 1]);
  }

  /** One guarded refill from the start of window `k` ends at the start of a later window `j`. */
  lemma {:induction false} RefillWindowsAt(it: Iterator, trigger: int, k: nat) returns (j: nat)
    requires DistinctStarts(it.windows)
    requires k < |it.windows| && it.windows[k].min == it.cursor
    ensures k <= j < |it.windows|
    ensures RefillWindows(it, trigger) == it.windows[k + 1..j + 1]
    ensures CursorAfter(RefillWindows(it, trigger), it.cursor) == it.windows[j].min
  {
    if trigger >= it.cursor {
      var pulled := Pulled(it.windows, Size(it.heap), it.windows[k].min);
      assert RefillWindows(it, trigger) == pulled;
      j := k + |pulled|;
      assert j < |it.windows| && pulled == it.windows[k + 1..j + 1] by {
        PulledIsConsecutive(it.windows, Size(it.heap), k);
      }
      assert CursorAfter(pulled, it.windows[k].min) == it.windows[j].min by {
        PulledIsConsecutive(it.windows, Size(it.heap), k);
      }
    } else {
      assert RefillWindows(it, trigger) == [];
      j := k;
    }
  }

  lemma {:induction false} RefillAdvances(it: Iterator, trigger: int, k: nat) returns (j: nat)
    requires DistinctStarts(it.windows)
    requires k < |it.windows| && it.windows[k].min == it.cursor
    ensures var r := Refill(it, trigger);
      && k <= j < |it.windows| && r.cursor == it.windows[j].min
      && r.heap.elems == it.heap.elems + Boundaries(it.windows[k + 1..j + 1])
  {
    j := RefillWindowsAt(it, trigger, k);
  }

  /** Both ends of every window of `windows[from..]` come no earlier than `x`. */
  predicate NothingBefore(windows: seq<TimeRange>, from: nat, x: int, ascending: bool)
  {
    forall i :: from <= i < |windows| ==>
      Before(x, windows[i].min, ascending) && Before(x, windows[i].max, ascending)
  }

  lemma {:induction false} BoundariesNotBefore(windows: seq<TimeRange>, x: int, ascending: bool)
    requires NothingBefore(windows, 0, x, ascending)
    ensures forall y :: y in Boundaries(windows) ==> Before(x, y, ascending)
    decreases |windows|
  {
    if |windows| > 0 {
      BoundariesNotBefore(windows[1..], x, ascending);
    }
  }

  /**
   A guarded refill keeps "no pending boundary comes before `x`" when no
   window after the cursor has an end before `x`.
   */
  lemma {:induction false} RefillKeepsNothingBefore(it: Iterator, trigger: int, k: nat, x: int) returns (j: nat)
    requires Valid(it) && DistinctStarts(it.windows)
    requires k < |it.windows| && it.windows[k].min == it.cursor
    requires forall y :: y in it.heap.elems ==> Before(x, y, it.ascending)
    requires NothingBefore(it.windows, k + 1, x, it.ascending)
    ensures var r := Refill(it, trigger);
      && k <= j < |it.windows| && r.cursor == it.windows[j].min
      && forall y :: y in r.heap.elems ==> Before(x, y, it.ascending)
  {
    j := RefillWindowsAt(it, trigger, k);
    SliceBoundariesNotBefore(it.windows, k, j, x, it.ascending);
  }

  /** `BoundariesNotBefore` for the windows after `k` up to `j`. */
  lemma {:induction false} SliceBoundariesNotBefore(windows: seq<TimeRange>, k: nat, j: nat, x: int, ascending: bool)
    requires k <= j < |windows| && NothingBefore(windows, k + 1, x, ascending)
    ensures forall y :: y in Boundaries(windows[k + 1..j + 1]) ==> Before(x, y, ascending)
  {
    var added := windows[k + 1..j + 1];
    assert NothingBefore(added, 0, x, ascending);
    BoundariesNotBefore(added, x, ascending);
  }

  /**
   Contiguity and ordering of `getNextTimeRange`. When the previous end is
   still the first pending boundary (as `getFirstTimeRange` and
   `getNextTimeRange` leave it) and no window after the cursor has an end
   before it, the next range starts exactly at the previous end and its end
   does not come before its start in traversal order.
   */
  lemma {:induction false} NextRangeContiguousAndOrdered(it: Iterator, curStartTime: int, k: nat)
    requires Valid(it) && DistinctStarts(it.windows)
    requires k < |it.windows| && it.windows[k].min == it.cursor
    requires Size(it.heap) > 0 && First(it.heap) == it.lastEnd
    requires NothingBefore(it.windows, k + 1, it.lastEnd, it.ascending)
    ensures var r := GetNextTimeRange(it, curStartTime);
      r.0.Some? ==>
        && r.0.value.min == it.lastEnd
        && Before(r.0.value.min, r.0.value.max, it.ascending)
  {
    var asc := it.ascending;
    var it1 := Refill(it, it.lastEnd);
    var j1 := RefillKeepsNothingBefore(it, it.lastEnd, k, it.lastEnd);
    if !IsEmpty(it1.heap) {
      var (start, heap2) := PollFirst(it1.heap);
      assert it.lastEnd in it1.heap.elems;
      assert start == it.lastEnd;
      var it2 := it1.(heap := heap2);
      assert forall y :: y in heap2.elems ==> Before(start, y, asc);
      var j3 := RefillKeepsNothingBefore(it2, start, j1, start);
    }
  }

  /**
   The condition above cannot be dropped. Over the windows `[i, i + 200)`,
   `i = 0, 1, …, 100`, ascending, take the state with the boundaries
   `200 … 299` pending, the cursor at 99 and `lastEnd = 200`: the first refill
   is refused because the heap is at `HEAP_MAX_SIZE`, 200 is popped, the
   second refill pulls `[100, 300)`, and the range handed out is `[200, 100)`,
   whose end comes before its start.
   */
  lemma {:induction false} CapacityCanBreakOrdering()
    ensures var it := CapacityExample();
      && Valid(it) && First(it.heap) == it.lastEnd
      && GetNextTimeRange(it, 0).0 == Some(TimeRange(200, 100))
  {
    var it := CapacityExample();
    CapacityExampleHeap();
    assert Refill(it, it.lastEnd) == it;
    assert GetNextTimeRange(it, 0) == PopRange(it);
    CapacityExamplePop();
  }

  /** The state of the example above. */
  function CapacityExample(): Iterator
  {
    Iterator(true, Selector(true, multiset(seq(100, i => 200 + i))),
             seq(101, i => TimeRange(i, i + 200)), 99, 200)
  }

  /** Its heap is full and starts at 200. */
  lemma {:induction false} CapacityExampleHeap()
    ensures Size(CapacityExample().heap) == HEAP_MAX_SIZE
    ensures First(CapacityExample().heap) == 200
    ensures forall y :: y in CapacityExample().heap.elems ==> 200 <= y
  {
    var items := seq(100, i => 200 + i);
    var heap := CapacityExample().heap;
    assert heap.elems == multiset(items);
    forall y | y in heap.elems ensures 200 <= y {
      assert y in items;
    }
    assert items[0] == 200;
    FirstIsUnique(First(heap), 200, heap.elems, true);
  }

  /** Popping 200 lets the second refill pull `[100, 300)`, whose start is then peeked. */
  lemma {:induction false} CapacityExamplePop()
    ensures Valid(CapacityExample()) && Size(CapacityExample().heap) > 0
    ensures PopRange(CapacityExample()).0 == Some(TimeRange(200, 100))
  {
    var it := CapacityExample();
    CapacityExampleHeap();
    var (start, heap2) := PollFirst(it.heap);
    FirstIsUnique(start, 200, it.heap.elems, true);
    assert Size(heap2) == 99;
    NextWindowAt(it.windows, 99);
    assert Pulled(it.windows, 99, 99) == [TimeRange(100, 300)];
    assert Boundaries([TimeRange(100, 300)]) == multiset{100, 300};
    var it3 := Refill(it.(heap := heap2), start);
    assert it3.heap.elems == heap2.elems + multiset{100, 300};
    assert forall y :: y in it3.heap.elems ==> 100 <= y;
    FirstIsUnique(First(it3.heap), 100, it3.heap.elems, true);
  }

}
