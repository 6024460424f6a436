/**
 The raw `GROUP BY TIME` window stream (`AggrWindowIterator`) seen from the
 pre-aggregation iterator. Its window and calendar-month arithmetic is not
 part of this model: the stream is a fixed, non-empty sequence of windows, and
 `getNextTimeRange(cur)` answers the window that follows the one starting at
 `cur`, or `None`.
 */
module AggrWindows {
  import opened Wrappers
  import opened TimeRanges

  /** Position of the first window in `windows[from..]` that starts at `t`. */
  function IndexOfStart(windows: seq<TimeRange>, t: int, from: nat := 0): Option<nat>
    decreases |windows| - from
  {
    if from >= |windows| then None
    else if windows[from].min == t then Some(from)
    else IndexOfStart(windows, t, from + 1)
  }

  /**
   The search finds the first window from `from` on that starts at `t`, and
   answers `None` only when there is none.
   */
  lemma {:induction false} IndexOfStartFinds(windows: seq<TimeRange>, t: int, from: nat)
    ensures var r := IndexOfStart(windows, t, from);
      && (r.Some? ==> from <= r.value < |windows| && windows[r.value].min == t)
      && (r.Some? ==> forall i :: from <= i < r.value ==> StartOf(windows, i) != t)
      && (r.None? ==> forall i :: from <= i < |windows| ==> StartOf(windows, i) != t)
    decreases |windows| - from
  {
    if from < |windows| && windows[from].min != t {
      IndexOfStartFinds(windows, t, from + 1);
    }
  }

  /** `getFirstTimeRange`: the window the traversal starts with. */
  function FirstWindow(windows: seq<TimeRange>): (w: TimeRange)
    requires |windows| > 0
    ensures w in windows
  {
    windows[0]
  }

  /**
   `getNextTimeRange(cur)`: the window after the one starting at `cur`. It
   depends on `cur` alone, so asking twice with the same start gives the same
   answer. `NextWindowFollows` and `NextWindowAt` say which window it is.
   */
  function NextWindow(windows: seq<TimeRange>, cur: int): (r: Option<TimeRange>)
    ensures r.Some? ==> r.value in windows
  {
    match IndexOfStart(windows, cur)
    case None => None
    case Some(i) => if i + 1 < |windows| then Some(windows[i + 1]) else None
  }

  /**
   Every window of a stream produced from its predecessor's start has a start
   of its own; repeating a start would make the real iterator cycle.
   */
  predicate DistinctStarts(windows: seq<TimeRange>)
  {
    forall i, j :: 0 <= i < j < |windows| ==> StartOf(windows, i) != StartOf(windows, j)
  }

  /** The start of window `i`. */
  function StartOf(windows: seq<TimeRange>, i: nat): int
    requires i < |windows|
  {
    windows[i].min
  }

  /** The multiset of both ends of every window. */
  function Boundaries(windows: seq<TimeRange>): multiset<int>
  {
    if |windows| == 0 then multiset{}
    else multiset{windows[0].min, windows[0].max} + Boundaries(windows[1..])
  }

  /** Every window contributes exactly two boundaries. */
  lemma {:induction false} BoundariesCount(windows: seq<TimeRange>)
    ensures |Boundaries(windows)| == 2 * |windows|
    decreases |windows|
  {
    if |windows| > 0 {
      BoundariesCount(windows[1..]);
    }
  }

  /** With distinct starts the search by start time recovers the position. */
  lemma {:induction false} IndexOfPulledStart(windows: seq<TimeRange>, k: nat)
    requires DistinctStarts(windows) && k < |windows|
    ensures IndexOfStart(windows, windows[k].min) == Some(k)
  {
    var r := IndexOfStart(windows, windows[k].min);
    IndexOfStartFinds(windows, windows[k].min, 0);
    assert StartOf(windows, k) == windows[k].min;
    assert r.Some?;
    assert r.value <= k;
    assert StartOf(windows, r.value) == windows[k].min;
  }

  /** With distinct starts, the base iterator walks the sequence in order. */
  lemma {:induction false} NextWindowAt(windows: seq<TimeRange>, k: nat)
    requires DistinctStarts(windows) && k < |windows|
    ensures NextWindow(windows, windows[k].min)
         == if k + 1 < |windows| then Some(windows[k + 1]) else None
  {
    IndexOfPulledStart(windows, k);
  }

  /**
   Whatever the starts: an answer is the window right after one that starts
   at `cur`, and there is no answer only when no window but the last starts
   at `cur`.
   */
  lemma {:induction false} NextWindowFollows(windows: seq<TimeRange>, cur: int)
    ensures var r := NextWindow(windows, cur);
      && (r.Some? ==> exists i :: 0 < i < |windows| && StartOf(windows, i - 1) == cur && windows[i] == r.value)
      && (r.None? ==> forall i :: 0 <= i < |windows| - 1 ==> StartOf(windows, i) != cur)
  {
    IndexOfStartFinds(windows, cur, 0);
    var found := IndexOfStart(windows, cur);
    if found.Some? && found.value + 1 < |windows| {
      var i := found.value + 1;
      assert StartOf(windows, i - 1) == cur && windows[i] == NextWindow(windows, cur).value;
    }
  }

  /** Splitting a window sequence splits its boundaries. */
  lemma {:induction false} BoundariesAppend(a: seq<TimeRange>, b: seq<TimeRange>)
    ensures Boundaries(a + b) == Boundaries(a) + Boundaries(b)
    decreases |a|
  {
    if |a| == 0 {
      assert a + b == b;
    } else {
      assert (a + b)[1..] == a[1..] + b;
      BoundariesAppend(a[1..], b);
    }
  }

}
