/** What it means to filter a sequence, said without recursion. */
module Sequences {

  ghost predicate Ascending(at: seq<nat>) {
    forall k, l :: 0 <= k < l < |at| ==> at[k] < at[l]
  }

  /** `ys` are the elements of `xs` at the positions `at`, which are all to keep. */
  ghost predicate Selects<T>(xs: seq<T>, keep: T -> bool, ys: seq<T>, at: seq<nat>) {
    |at| == |ys| && forall k :: 0 <= k < |at| ==> at[k] < |xs| && keep(xs[at[k]]) && ys[k] == xs[at[k]]
  }

  /** No position to keep is left out. */
  ghost predicate Covers<T>(xs: seq<T>, keep: T -> bool, at: seq<nat>) {
    forall i: nat :: i < |xs| && keep(xs[i]) ==> i in at
  }

  ghost predicate FiltersAt<T>(xs: seq<T>, keep: T -> bool, ys: seq<T>, at: seq<nat>) {
    Ascending(at) && Selects(xs, keep, ys, at) && Covers(xs, keep, at)
  }

  /** `ys` are exactly the elements of `xs` to keep, as often and in the order they occur. */
  ghost predicate Filters<T>(xs: seq<T>, keep: T -> bool, ys: seq<T>) {
    exists at :: FiltersAt(xs, keep, ys, at)
  }

  lemma FiltersNothing<T>(keep: T -> bool)
    ensures Filters([], keep, [])
  {
    assert FiltersAt([], keep, [], []);
  }

  lemma FiltersSnoc<T>(xs: seq<T>, x: T, keep: T -> bool, ys: seq<T>)
    requires Filters(xs, keep, ys)
    ensures Filters(xs + [x], keep, if keep(x) then ys + [x] else ys)
  {
    var at: seq<nat> :| FiltersAt(xs, keep, ys, at);
    if keep(x) {
      SnocKept(xs, x, keep, ys, at);
    } else {
      SnocDropped(xs, x, keep, ys, at);
    }
  }

  lemma SnocKept<T>(xs: seq<T>, x: T, keep: T -> bool, ys: seq<T>, at: seq<nat>)
    requires FiltersAt(xs, keep, ys, at) && keep(x)
    ensures FiltersAt(xs + [x], keep, ys + [x], at + [|xs|])
  {
    var all, more: seq<nat> := xs + [x], at + [|xs|];
    assert Selects(all, keep, ys + [x], more);
    forall i: nat | i < |all| && keep(all[i]) ensures i in more {
      if i < |xs| { assert all[i] == xs[i]; }
    }
    assert Ascending(more);
  }

  lemma SnocDropped<T>(xs: seq<T>, x: T, keep: T -> bool, ys: seq<T>, at: seq<nat>)
    requires FiltersAt(xs, keep, ys, at) && !keep(x)
    ensures FiltersAt(xs + [x], keep, ys, at)
  {
    var all := xs + [x];
    assert Selects(all, keep, ys, at);
    forall i: nat | i < |all| && keep(all[i]) ensures i in at {
      assert i < |xs| && all[i] == xs[i];
    }
  }

  /** The recursion that code which filters comes down to. */
  function Filter<T>(xs: seq<T>, keep: T -> bool): seq<T> {
    if xs == [] then []
    else
      var last := xs[|xs| - 1];
      Filter(xs[..|xs| - 1], keep) + (if keep(last) then [last] else [])
  }

  lemma {:induction false} FilterFilters<T>(xs: seq<T>, keep: T -> bool)
    ensures Filters(xs, keep, Filter(xs, keep))
  {
    if xs == [] {
      FiltersNothing(keep);
    } else {
      FilterFilters(xs[..|xs| - 1], keep);
      FilterStep(xs[..|xs| - 1], xs[|xs| - 1], keep);
      assert xs[..|xs| - 1] + [xs[|xs| - 1]] == xs;
    }
  }

  lemma FilterStep<T>(init: seq<T>, last: T, keep: T -> bool)
    requires Filters(init, keep, Filter(init, keep))
    ensures Filters(init + [last], keep, Filter(init + [last], keep))
  {
    FilterSnoc(init, last, keep);
    FiltersSnoc(init, last, keep, Filter(init, keep));
  }

  lemma FilterSnoc<T>(init: seq<T>, last: T, keep: T -> bool)
    ensures Filter(init + [last], keep) == if keep(last) then Filter(init, keep) + [last] else Filter(init, keep)
  {
    var all, some := init + [last], Filter(init, keep);
    assert all[..|all| - 1] == init && all[|all| - 1] == last && some + [] == some;
  }

  lemma FiltersHas<T>(xs: seq<T>, keep: T -> bool, ys: seq<T>, x: T)
    requires Filters(xs, keep, ys)
    ensures x in ys <==> x in xs && keep(x)
  {
    var at: seq<nat> :| FiltersAt(xs, keep, ys, at);
    if x in ys {
      var k :| 0 <= k < |ys| && ys[k] == x;
      assert xs[at[k]] == x;
    }
    if x in xs && keep(x) {
      var i :| 0 <= i < |xs| && xs[i] == x;
      var k :| 0 <= k < |at| && at[k] == i;
      assert ys[k] == x;
    }
  }

  lemma {:induction false} FilterConcat<T>(xs: seq<T>, ys: seq<T>, keep: T -> bool)
    ensures Filter(xs + ys, keep) == Filter(xs, keep) + Filter(ys, keep)
  {
    if ys == [] {
      assert xs + ys == xs;
    } else {
      var init, last := ys[..|ys| - 1], ys[|ys| - 1];
      FilterConcat(xs, init, keep);
      assert xs + ys == (xs + init) + [last] && ys == init + [last];
      FilterSnoc(xs + init, last, keep);
      FilterSnoc(init, last, keep);
      Associates(Filter(xs, keep), Filter(init, keep), [last]);
    }
  }

  lemma Associates<T>(a: seq<T>, b: seq<T>, c: seq<T>)
    ensures (a + b) + c == a + (b + c)
  {}

  lemma {:induction false} FilterAll<T>(xs: seq<T>, keep: T -> bool)
    requires forall i :: 0 <= i < |xs| ==> keep(xs[i])
    ensures Filter(xs, keep) == xs
  {
    if xs != [] {
      FilterAll(xs[..|xs| - 1], keep);
      assert xs == xs[..|xs| - 1] + [xs[|xs| - 1]];
    }
  }

  lemma {:induction false} FilterNone<T>(xs: seq<T>, keep: T -> bool)
    requires forall i :: 0 <= i < |xs| ==> !keep(xs[i])
    ensures Filter(xs, keep) == []
  {
    if xs != [] {
      FilterNone(xs[..|xs| - 1], keep);
    }
  }
}
