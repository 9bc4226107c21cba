/**
 * The two answers of 2025/day-05/src/main.rs: how many available
 * ingredients are fresh, and how many ingredient ids the fresh ranges
 * cover together (the sort-then-sweep count).
 */
module Freshness {
  import opened IngredientInventory

  // ---------------------------------------------------------------------------
  // Part one
  // ---------------------------------------------------------------------------

  /** `.any(|range| range.contains(id))`: some range holds the id. */
  function AnyContains(ranges: seq<IdRange>, id: nat): (b: bool)
    ensures b <==> exists k | 0 <= k < |ranges| :: Contains(ranges[k], id)
  {
    if ranges == [] then false
    else Contains(ranges[0], id) || AnyContains(ranges[1..], id)
  }

  /** The ids, counted with multiplicity, that some range holds. */
  function FreshCount(ranges: seq<IdRange>, ids: seq<nat>): (n: nat)
    ensures n <= |ids|
  {
    if ids == [] then 0
    else FreshCount(ranges, ids[..|ids| - 1]) + (if AnyContains(ranges, ids[|ids| - 1]) then 1 else 0)
  }

  /**
   * num_of_fresh_and_available_ingredients: at most one per available id;
   * all of them exactly when every id is fresh, none exactly when no id is.
   */
  function NumOfFreshAndAvailableIngredients(inventory: Inventory): (n: nat)
    ensures var ranges, ids := inventory.freshIngredientIdRanges, inventory.availableIngredientIds;
      && n <= |ids|
      && (n == |ids| <==> forall k | 0 <= k < |ids| :: AnyContains(ranges, ids[k]))
      && (n == 0 <==> forall k | 0 <= k < |ids| :: !AnyContains(ranges, ids[k]))
  {
    var ranges, ids := inventory.freshIngredientIdRanges, inventory.availableIngredientIds;
    FreshCountAll(ranges, ids);
    FreshCountNone(ranges, ids);
    FreshCount(ranges, ids)
  }

  /** The count of two lists of ids together is the sum of their counts. */
  lemma {:induction false} FreshCountAppend(ranges: seq<IdRange>, a: seq<nat>, b: seq<nat>)
    ensures FreshCount(ranges, a + b) == FreshCount(ranges, a) + FreshCount(ranges, b)
  {
    if b != [] {
      assert (a + b)[..|a + b| - 1] == a + b[..|b| - 1];
      FreshCountAppend(ranges, a, b[..|b| - 1]);
    } else {
      assert a + b == a;
    }
  }

  /** Every id is counted exactly when every id lies in some range. */
  lemma {:induction false} FreshCountAll(ranges: seq<IdRange>, ids: seq<nat>)
    ensures FreshCount(ranges, ids) == |ids| <==> forall k | 0 <= k < |ids| :: AnyContains(ranges, ids[k])
  {
    if ids != [] {
      var init := ids[..|ids| - 1];
      FreshCountAll(ranges, init);
      assert forall k | 0 <= k < |init| :: init[k] == ids[k];
    }
  }

  /** No id is counted exactly when no id lies in any range. */
  lemma {:induction false} FreshCountNone(ranges: seq<IdRange>, ids: seq<nat>)
    ensures FreshCount(ranges, ids) == 0 <==> forall k | 0 <= k < |ids| :: !AnyContains(ranges, ids[k])
  {
    if ids != [] {
      var init := ids[..|ids| - 1];
      FreshCountNone(ranges, init);
      assert forall k | 0 <= k < |init| :: init[k] == ids[k];
    }
  }

  /** The count depends on the ranges only through which ranges there are, not their order or repetition. */
  lemma {:induction false} FreshCountSameRanges(r1: seq<IdRange>, r2: seq<IdRange>, ids: seq<nat>)
    requires forall r :: r in r1 <==> r in r2
    ensures FreshCount(r1, ids) == FreshCount(r2, ids)
  {
    if ids != [] {
      FreshCountSameRanges(r1, r2, ids[..|ids| - 1]);
      var id := ids[|ids| - 1];
      if AnyContains(r1, id) {
        var k :| 0 <= k < |r1| && Contains(r1[k], id);
        assert r1[k] in r2;
      }
      if AnyContains(r2, id) {
        var k :| 0 <= k < |r2| && Contains(r2[k], id);
        assert r2[k] in r1;
      }
    }
  }

  // ---------------------------------------------------------------------------
  // Part two: sorting
  // ---------------------------------------------------------------------------

  predicate SortedByStart(ranges: seq<IdRange>) {
    forall a, b | 0 <= a < b < |ranges| :: ranges[a].start <= ranges[b].start
  }

  /** x placed before the first range that does not start earlier. */
  function InsertByStart(x: IdRange, sorted: seq<IdRange>): (r: seq<IdRange>)
    requires SortedByStart(sorted)
    ensures SortedByStart(r) && multiset(r) == multiset(sorted) + multiset{x}
  {
    if sorted == [] || x.start <= sorted[0].start then [x] + sorted
    else
      var rest := InsertByStart(x, sorted[1..]);
      HeadBelowInsert(sorted, x, rest);
      ConsSorted(sorted[0], rest);
      [sorted[0]] + rest
  }

  /** Inserting a range that starts after the head keeps every range at or after the head's start. */
  lemma HeadBelowInsert(sorted: seq<IdRange>, x: IdRange, rest: seq<IdRange>)
    requires SortedByStart(sorted) && sorted != [] && sorted[0].start < x.start
    requires multiset(rest) == multiset(sorted[1..]) + multiset{x}
    ensures forall k | 0 <= k < |rest| :: sorted[0].start <= rest[k].start
    ensures multiset([sorted[0]] + rest) == multiset(sorted) + multiset{x}
  {
    assert sorted == [sorted[0]] + sorted[1..];
    forall k | 0 <= k < |rest| ensures sorted[0].start <= rest[k].start {
      assert rest[k] in multiset(rest);
      if rest[k] != x {
        assert rest[k] in multiset(sorted[1..]);
        assert rest[k] in sorted[1..];
      }
    }
  }

  /** A head no later than every range of a sorted list keeps it sorted. */
  lemma ConsSorted(head: IdRange, rest: seq<IdRange>)
    requires SortedByStart(rest) && forall k | 0 <= k < |rest| :: head.start <= rest[k].start
    ensures SortedByStart([head] + rest)
  {
    var r := [head] + rest;
    forall a, b | 0 <= a < b < |r| ensures r[a].start <= r[b].start {
      if a > 0 {
        assert r[a] == rest[a - 1] && r[b] == rest[b - 1];
      } else {
        assert r[b] == rest[b - 1];
      }
    }
  }

  /**
   * `sort_by_key(|r| *r.start())`: the ranges ordered by start, a
   * permutation of the input. Ranges of equal start keep their order, as in
   * the library's stable sort.
   */
  function SortByStart(ranges: seq<IdRange>): (r: seq<IdRange>)
    ensures SortedByStart(r) && multiset(r) == multiset(ranges)
  {
    if ranges == [] then []
    else
      assert ranges == [ranges[0]] + ranges[1..];
      InsertByStart(ranges[0], SortByStart(ranges[1..]))
  }

  // ---------------------------------------------------------------------------
  // Part two: the covered ids
  // ---------------------------------------------------------------------------

  /** The largest end of the ranges, 0 when there are none. */
  function MaxEnd(ranges: seq<IdRange>): (m: nat)
    ensures forall k | 0 <= k < |ranges| :: ranges[k].end <= m
  {
    if ranges == [] then 0
    else
      var rest := MaxEnd(ranges[1..]);
      if ranges[0].end > rest then ranges[0].end else rest
  }

  /** The ids from 1 to limit that some range holds. */
  ghost function CoveredIds(ranges: seq<IdRange>, limit: nat): set<nat> {
    set id: nat | 1 <= id <= limit && AnyContains(ranges, id)
  }

  /** The ids the fresh ranges hold, id 0 left out as the sweep leaves it out. */
  ghost function PossibleFresh(ranges: seq<IdRange>): set<nat> {
    CoveredIds(ranges, MaxEnd(ranges))
  }

  /** No id above limit, other than 0, is held by a range. */
  ghost predicate CoveredBelow(ranges: seq<IdRange>, limit: nat) {
    forall id: nat | 1 <= id && AnyContains(ranges, id) :: id <= limit
  }

  /** The ids a through b. */
  ghost function Interval(a: nat, b: nat): (s: set<nat>)
    ensures forall id: nat :: id in s <==> a <= id <= b
    ensures a <= b + 1 ==> |s| == b + 1 - a
    decreases b + 1 - a
  {
    if a > b then {}
    else
      var rest := Interval(a + 1, b);
      assert a !in rest;
      {a} + rest
  }

  lemma AnyContainsAppend(done: seq<IdRange>, r: IdRange, id: nat)
    ensures AnyContains(done + [r], id) <==> AnyContains(done, id) || Contains(r, id)
  {
    var all := done + [r];
    if AnyContains(all, id) {
      var k :| 0 <= k < |all| && Contains(all[k], id);
      if k < |done| {
        assert all[k] == done[k];
      }
    }
    if AnyContains(done, id) {
      var k :| 0 <= k < |done| && Contains(done[k], id);
      assert all[k] == done[k];
    }
    assert all[|done|] == r;
  }

  /** Disjoint finite sets add their sizes. */
  lemma DisjointUnion(a: set<nat>, b: set<nat>)
    requires a * b == {}
    ensures |a + b| == |a| + |b|
  {
  }

  /** A range starting above latest adds all of its ids, none of them counted before. */
  lemma SweepAbove(done: seq<IdRange>, r: IdRange, latest: nat)
    requires latest < r.start <= r.end && CoveredBelow(done, latest)
    ensures CoveredBelow(done + [r], r.end)
    ensures |CoveredIds(done + [r], r.end)| == |CoveredIds(done, latest)| + (r.end - r.start + 1)
  {
    var before, added := CoveredIds(done, latest), Interval(r.start, r.end);
    forall id: nat ensures id in CoveredIds(done + [r], r.end) <==> id in before + added {
      AnyContainsAppend(done, r, id);
    }
    forall id: nat | 1 <= id && AnyContains(done + [r], id) ensures id <= r.end {
      AnyContainsAppend(done, r, id);
    }
    assert CoveredIds(done + [r], r.end) == before + added;
    assert before * added == {};
    DisjointUnion(before, added);
  }

  /** A range reaching above latest, from a start at most latest, adds the ids above latest. */
  lemma SweepAcross(done: seq<IdRange>, r: IdRange, latest: nat)
    requires r.start <= latest < r.end && CoveredBelow(done, latest)
    requires forall id: nat | 1 <= id && r.start <= id <= latest :: AnyContains(done, id)
    ensures CoveredBelow(done + [r], r.end)
    ensures |CoveredIds(done + [r], r.end)| == |CoveredIds(done, latest)| + (r.end - latest)
  {
    var before, added := CoveredIds(done, latest), Interval(latest + 1, r.end);
    forall id: nat ensures id in CoveredIds(done + [r], r.end) <==> id in before + added {
      AnyContainsAppend(done, r, id);
    }
    forall id: nat | 1 <= id && AnyContains(done + [r], id) ensures id <= r.end {
      AnyContainsAppend(done, r, id);
    }
    assert CoveredIds(done + [r], r.end) == before + added;
    assert before * added == {};
    DisjointUnion(before, added);
  }

  /** A range ending by latest, from a start whose ids up to latest are covered, adds nothing. */
  lemma SweepWithin(done: seq<IdRange>, r: IdRange, latest: nat)
    requires r.end <= latest && CoveredBelow(done, latest)
    requires forall id: nat | 1 <= id && r.start <= id <= latest :: AnyContains(done, id)
    ensures CoveredBelow(done + [r], latest)
    ensures CoveredIds(done + [r], latest) == CoveredIds(done, latest)
  {
    forall id: nat ensures id in CoveredIds(done + [r], latest) <==> id in CoveredIds(done, latest) {
      AnyContainsAppend(done, r, id);
    }
    forall id: nat | 1 <= id && AnyContains(done + [r], id) ensures id <= latest {
      AnyContainsAppend(done, r, id);
    }
  }

  /** Sequences with the same elements hold the same ids. */
  lemma SameElementsSameIds(a: seq<IdRange>, b: seq<IdRange>, id: nat)
    requires multiset(a) == multiset(b)
    ensures AnyContains(a, id) <==> AnyContains(b, id)
  {
    if AnyContains(a, id) {
      var k :| 0 <= k < |a| && Contains(a[k], id);
      assert a[k] in multiset(b);
      var j :| 0 <= j < |b| && b[j] == a[k];
    }
    if AnyContains(b, id) {
      var k :| 0 <= k < |b| && Contains(b[k], id);
      assert b[k] in multiset(a);
      var j :| 0 <= j < |a| && a[j] == b[k];
    }
  }

  /**
   * The answer does not depend on the order of the ranges: any permutation
   * of them covers the same ids.
   */
  lemma PossibleFreshPermutation(a: seq<IdRange>, b: seq<IdRange>)
    requires multiset(a) == multiset(b)
    ensures PossibleFresh(a) == PossibleFresh(b)
  {
    forall id: nat ensures AnyContains(a, id) <==> AnyContains(b, id) {
      SameElementsSameIds(a, b, id);
    }
    forall id: nat | AnyContains(a, id) ensures id <= MaxEnd(a) && id <= MaxEnd(b) {
      var k :| 0 <= k < |a| && Contains(a[k], id);
      var j :| 0 <= j < |b| && Contains(b[j], id);
    }
  }

  /** Ids from a later range's start to the end of an earlier range are covered by the earlier ones. */
  lemma AnchorCovers(sorted: seq<IdRange>, i: nat, anchor: nat)
    requires SortedByStart(sorted) && anchor < i < |sorted|
    ensures forall id: nat | 1 <= id && sorted[i].start <= id <= sorted[anchor].end :: AnyContains(sorted[..i], id)
  {
    forall id: nat | 1 <= id && sorted[i].start <= id <= sorted[anchor].end
      ensures AnyContains(sorted[..i], id)
    {
      assert sorted[..i][anchor] == sorted[anchor];
    }
  }

  /** Once the sweep is done, its set is the set of possible fresh ids of the unsorted ranges. */
  lemma SweepEnd(sorted: seq<IdRange>, ranges: seq<IdRange>, latest: nat)
    requires multiset(sorted) == multiset(ranges) && CoveredBelow(sorted, latest)
    ensures CoveredIds(sorted, latest) == PossibleFresh(ranges)
  {
    PossibleFreshPermutation(sorted, ranges);
    forall id: nat | 1 <= id && AnyContains(sorted, id) ensures id <= MaxEnd(sorted) {
      var k :| 0 <= k < |sorted| && Contains(sorted[k], id);
    }
    assert CoveredIds(sorted, latest) == PossibleFresh(sorted);
  }

  /**
   * What the sweep knows after the first i sorted ranges: no id they hold
   * lies above latest, latest is the largest end among them (the end of the
   * anchor range, or 0 when no range was seen), and num counts the ids from
   * 1 to latest they hold.
   */
  ghost predicate SweepState(sorted: seq<IdRange>, i: nat, latest: nat, anchor: nat, num: nat) {
    && i <= |sorted|
    && CoveredBelow(sorted[..i], latest)
    && (latest > 0 ==> anchor < i && sorted[anchor].end == latest)
    && (forall k | 0 <= k < i :: sorted[k].end <= latest)
    && num == |CoveredIds(sorted[..i], latest)|
  }

  lemma SweepStart(sorted: seq<IdRange>)
    ensures SweepState(sorted, 0, 0, 0, 0)
  {
    assert CoveredIds(sorted[..0], 0) == {};
  }

  /** One step of the sweep, in each of its three cases, keeps its state. */
  lemma SweepStep(sorted: seq<IdRange>, i: nat, latest: nat, anchor: nat, num: nat)
    requires SortedByStart(sorted) && forall k | 0 <= k < |sorted| :: sorted[k].start <= sorted[k].end
    requires SweepState(sorted, i, latest, anchor, num) && i < |sorted|
    ensures var r := sorted[i];
      && (latest < r.start ==> SweepState(sorted, i + 1, r.end, i, num + (r.end - r.start + 1)))
      && (r.start <= latest < r.end ==> SweepState(sorted, i + 1, r.end, i, num + (r.end - latest)))
      && (r.end <= latest ==> SweepState(sorted, i + 1, latest, anchor, num))
  {
    var r := sorted[i];
    if latest > 0 {
      AnchorCovers(sorted, i, anchor);
    }
    assert sorted[..i + 1] == sorted[..i] + [r];
    if latest < r.start {
      SweepAbove(sorted[..i], r, latest);
    } else if latest < r.end {
      SweepAcross(sorted[..i], r, latest);
    } else {
      SweepWithin(sorted[..i], r, latest);
    }
  }

  /**
   * num_of_possible_fresh_ingredients: the ranges sorted by start, then one
   * sweep keeping the highest id seen so far and adding only the ids above
   * it. The result is the number of distinct ids from 1 up that the ranges
   * hold; `end - start + 1` would underflow on a range with start > end, so
   * every range must have start <= end.
   */
  method NumOfPossibleFreshIngredients(inventory: Inventory) returns (num: nat)
    requires forall k | 0 <= k < |inventory.freshIngredientIdRanges| ::
      inventory.freshIngredientIdRanges[k].start <= inventory.freshIngredientIdRanges[k].end
    ensures num == |PossibleFresh(inventory.freshIngredientIdRanges)|
  {
    var rangesSortedByStart := SortByStart(inventory.freshIngredientIdRanges);
    ghost var sorted := rangesSortedByStart;
    forall k | 0 <= k < |sorted| ensures sorted[k].start <= sorted[k].end {
      assert sorted[k] in multiset(inventory.freshIngredientIdRanges);
    }
    num := 0;
    var latestHighestId: nat := 0;
    ghost var anchor: nat := 0;
    SweepStart(sorted);
    for i := 0 to |rangesSortedByStart|
      invariant SweepState(sorted, i, latestHighestId, anchor, num)
    {
      var start := rangesSortedByStart[i].start;
      var end := rangesSortedByStart[i].end;
      SweepStep(sorted, i, latestHighestId, anchor, num);
      if start > latestHighestId {
        num := num + (end - start + 1);
        latestHighestId := end;
        anchor := i;
      } else if end > latestHighestId {
        num := num + (end - latestHighestId);
        latestHighestId := end;
        anchor := i;
      }
    }
    assert sorted[..|sorted|] == sorted;
    SweepEnd(sorted, inventory.freshIngredientIdRanges, latestHighestId);
  }

  // ---------------------------------------------------------------------------
  // The worked example
  // ---------------------------------------------------------------------------

  /** The ranges 3-5, 10-14, 16-20 and 12-18 of the worked example. */
  function ExampleRanges(): seq<IdRange> {
    [IdRange(3, 5), IdRange(10, 14), IdRange(16, 20), IdRange(12, 18)]
  }

  /** An id of the worked example is fresh exactly when it is in 3-5 or in 10-20. */
  lemma ExampleFresh(id: nat)
    ensures AnyContains(ExampleRanges(), id) <==> 3 <= id <= 5 || 10 <= id <= 20
  {
    var ranges := ExampleRanges();
    assert Contains(ranges[0], id) <==> 3 <= id <= 5;
    assert Contains(ranges[1], id) || Contains(ranges[2], id) || Contains(ranges[3], id) <==> 10 <= id <= 20;
  }

  /** Part one of the worked example: three of the ids 1, 5, 8, 11, 17 and 32 are fresh. */
  lemma ExampleFreshCount()
    ensures NumOfFreshAndAvailableIngredients(Inventory(ExampleRanges(), [1, 5, 8, 11, 17, 32])) == 3
  {
    var ranges := ExampleRanges();
    var ids: seq<nat> := [1, 5, 8, 11, 17, 32];
    forall k | 0 <= k < |ids| ensures AnyContains(ranges, ids[k]) <==> k == 1 || k == 3 || k == 4 {
      ExampleFresh(ids[k]);
    }
    var counts := [0, 1, 1, 2, 3, 3];
    for j := 0 to |ids|
      invariant FreshCount(ranges, ids[..j]) == if j == 0 then 0 else counts[j - 1]
    {
      assert ids[..j + 1][..j] == ids[..j];
    }
    assert ids[..|ids|] == ids;
  }

  /** Ranges that hold exactly the ids of 3-5 and of 10-20, and end at 20, cover those ids. */
  lemma CoveredLowHigh(ranges: seq<IdRange>)
    requires MaxEnd(ranges) == 20
    requires forall id: nat :: AnyContains(ranges, id) <==> 3 <= id <= 5 || 10 <= id <= 20
    ensures PossibleFresh(ranges) == Interval(3, 5) + Interval(10, 20)
  {
  }

  /** The last id the worked example's ranges reach is 20. */
  lemma ExampleMaxEnd()
    ensures MaxEnd(ExampleRanges()) == 20
  {
    var ranges := ExampleRanges();
    assert ranges[1..][1..][1..] == [IdRange(12, 18)];
  }

  /** Part two of the worked example: the ranges hold 14 ids, those of 3-5 and of 10-20. */
  lemma ExamplePossibleFresh()
    ensures |PossibleFresh(ExampleRanges())| == 14
  {
    forall id: nat ensures AnyContains(ExampleRanges(), id) <==> 3 <= id <= 5 || 10 <= id <= 20 {
      ExampleFresh(id);
    }
    ExampleMaxEnd();
    CoveredLowHigh(ExampleRanges());
    DisjointUnion(Interval(3, 5), Interval(10, 20));
  }
}
