/**
 The ordered multiset of pending window boundaries (`TimeSelector`). Its own
 source is not part of this model; it is specified at the interface the
 iterator uses (`add`, `first`, `pollFirst`, `size`, `isEmpty`): a multiset of
 timestamps and the comparator chosen at construction. Equal timestamps are
 kept, not merged.
 */
module TimeSelector {

  /** The comparator chosen at construction: `a` comes no later than `b`. */
  predicate Before(a: int, b: int, ascending: bool)
  {
    if ascending then a <= b else a >= b
  }

  datatype Selector = Selector(ascending: bool, elems: multiset<int>)

  /** `x` is stored in `m` and no stored timestamp comes strictly before it. */
  predicate IsFirstOf(x: int, m: multiset<int>, ascending: bool)
  {
    x in m && forall y :: y in m ==> Before(x, y, ascending)
  }

  /** Two timestamps that are both first in traversal order are equal. */
  lemma {:induction false} FirstIsUnique(x: int, y: int, m: multiset<int>, ascending: bool)
    requires IsFirstOf(x, m, ascending) && IsFirstOf(y, m, ascending)
    ensures x == y
  {
  }

  /** Every non-empty multiset of timestamps has a first one, in either order. */
  lemma {:induction false} FirstExists(m: multiset<int>, ascending: bool)
    requires |m| > 0
    ensures exists x :: IsFirstOf(x, m, ascending)
    decreases |m|
  {
    if forall y :: y !in m {
      assert false;
    }
    var y :| y in m;
    var rest := m - multiset{y};
    assert m == rest + multiset{y};
    if |rest| == 0 {
      assert m == multiset{y};
      assert IsFirstOf(y, m, ascending);
    } else {
      FirstExists(rest, ascending);
      var z :| IsFirstOf(z, rest, ascending);
      if Before(y, z, ascending) {
        FirstWhenAdded(y, z, rest, ascending);
      } else {
        FirstStaysFirst(z, y, rest, ascending);
      }
    }
  }

  /** Adding `y` ahead of the first element of `rest` makes `y` first. */
  lemma {:induction false} FirstWhenAdded(y: int, z: int, rest: multiset<int>, ascending: bool)
    requires IsFirstOf(z, rest, ascending) && Before(y, z, ascending)
    ensures IsFirstOf(y, rest + multiset{y}, ascending)
  {
    forall u | u in rest + multiset{y}
      ensures Before(y, u, ascending)
    {
      if u != y {
        assert Before(z, u, ascending);
      }
    }
  }

  /** Adding `y` no earlier than the first element `z` of `rest` keeps `z` first. */
  lemma {:induction false} FirstStaysFirst(z: int, y: int, rest: multiset<int>, ascending: bool)
    requires IsFirstOf(z, rest, ascending) && !Before(y, z, ascending)
    ensures IsFirstOf(z, rest + multiset{y}, ascending)
  {
  }

  /** An empty selector with the given comparator. */
  function Empty(ascending: bool): (s: Selector)
    ensures s.ascending == ascending && Size(s) == 0
  {
    Selector(ascending, multiset{})
  }

  /** `add`: one more occurrence of `x`; the capacity is not enforced here. */
  function Add(s: Selector, x: int): (r: Selector)
    ensures r.ascending == s.ascending
    ensures r.elems == s.elems + multiset{x}
    ensures Size(r) == Size(s) + 1
  {
    s.(elems := s.elems + multiset{x})
  }

  /** `first`: the next timestamp in traversal order, left in place. */
  function First(s: Selector): (x: int)
    requires Size(s) > 0
    ensures x in s.elems
    ensures s.ascending ==> forall y :: y in s.elems ==> x <= y
    ensures !s.ascending ==> forall y :: y in s.elems ==> x >= y
  {
    FirstExists(s.elems, s.ascending);
    var x :| IsFirstOf(x, s.elems, s.ascending);
    x
  }

  /** `pollFirst`: removes and returns the next timestamp in traversal order. */
  function PollFirst(s: Selector): (r: (int, Selector))
    requires Size(s) > 0
    ensures IsFirstOf(r.0, s.elems, s.ascending)
    ensures r.1.ascending == s.ascending
    ensures s.elems == r.1.elems + multiset{r.0}
    ensures Size(r.1) == Size(s) - 1
  {
    var x := First(s);
    var rest := s.elems - multiset{x};
    assert s.elems == rest + multiset{x};
    (x, s.(elems := rest))
  }

  /** `size`: the number of stored timestamps, repeats included. */
  function Size(s: Selector): (n: nat)
  {
    |s.elems|
  }

  /**
   `size` counts every stored occurrence: it is zero exactly when the selector
   is empty, and no timestamp occurs more often than `size` says.
   */
  lemma {:induction false} SizeCountsRepeats(s: Selector)
    ensures Size(s) == 0 <==> IsEmpty(s)
    ensures forall x :: s.elems[x] <= Size(s)
  {
  }

  /** `isEmpty`. */
  function IsEmpty(s: Selector): (b: bool)
    ensures b <==> s.elems == multiset{}
  {
    |s.elems| == 0
  }

}
