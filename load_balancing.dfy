/** The fallback search for a day with room: outward from the target day,
    the later day before the earlier one at each distance, never back to
    today or before, for at most a year of distances. */
module LoadBalancing {
  import opened Options
  import opened Progress

  /** How many distances from the target day the search tries. */
  const SEARCH_LIMIT: int := 365

  /** How many records the day-count table holds for day `d` (0 when it has
      no entry for that day). */
  function CountIn(counts: map<int, int>, d: int): int {
    if d in counts then counts[d] else 0
  }

  /** The day `offset` days after the target has room. */
  predicate ForwardFree(s: Store, target: int, offset: int) {
    CountOn(s, target + offset) < DAILY_LIMIT
  }

  /** The day `offset` days before the target is tried (offset is not 0),
      lies strictly after today, and has room. */
  predicate BackwardFree(s: Store, target: int, today: int, offset: int) {
    offset != 0 && target - offset > today && CountOn(s, target - offset) < DAILY_LIMIT
  }

  predicate Fits(s: Store, target: int, today: int, offset: int) {
    ForwardFree(s, target, offset) || BackwardFree(s, target, today, offset)
  }

  /** `Fits`, read from a day-count table instead of the snapshot. */
  predicate FitsIn(counts: map<int, int>, target: int, today: int, offset: int) {
    || CountIn(counts, target + offset) < DAILY_LIMIT
    || (offset != 0 && target - offset > today && CountIn(counts, target - offset) < DAILY_LIMIT)
  }

  /** The smallest distance from `from` on at which either direction has
      room, or SEARCH_LIMIT when no distance below it has. */
  function FirstFit(s: Store, target: int, today: int, from: int): (k: int)
    requires 0 <= from <= SEARCH_LIMIT
    ensures from <= k <= SEARCH_LIMIT
    ensures forall j :: from <= j < k ==> !Fits(s, target, today, j)
    ensures k < SEARCH_LIMIT ==> Fits(s, target, today, k)
    decreases SEARCH_LIMIT - from
  {
    if from == SEARCH_LIMIT then SEARCH_LIMIT
    else if Fits(s, target, today, from) then from
    else FirstFit(s, target, today, from + 1)
  }

  /** The day the search settles on: the target shifted by the first
      fitting distance, forward when the later day has room, otherwise
      backward; the target itself when the search runs out. */
  function Balance(s: Store, target: int, today: int): int {
    var k := FirstFit(s, target, today, 0);
    if k == SEARCH_LIMIT then target
    else if ForwardFree(s, target, k) then target + k
    else target - k
  }

  /** The search returns the nearest day with room: at the smallest distance
      where one of the two days has room, the later day when it has room
      and otherwise the earlier one, which lies after today; when no
      distance below SEARCH_LIMIT fits, the target unchanged. */
  lemma BalanceNearestFree(s: Store, target: int, today: int)
    ensures var d := Balance(s, target, today);
      var k := FirstFit(s, target, today, 0);
      && (forall j :: 0 <= j < k ==> !ForwardFree(s, target, j) && !BackwardFree(s, target, today, j))
      && (k < SEARCH_LIMIT && ForwardFree(s, target, k) ==> d == target + k)
      && (k < SEARCH_LIMIT && !ForwardFree(s, target, k) ==> d == target - k && BackwardFree(s, target, today, k))
      && (k == SEARCH_LIMIT ==> d == target)
  {
    var k := FirstFit(s, target, today, 0);
    forall j | 0 <= j < k
      ensures !ForwardFree(s, target, j) && !BackwardFree(s, target, today, j)
    {
      assert !Fits(s, target, today, j);
    }
  }

  /** The day found has room, unless the search ran out of distances. */
  lemma {:induction false} BalanceHasRoom(s: Store, target: int, today: int)
    requires exists j :: 0 <= j < SEARCH_LIMIT && Fits(s, target, today, j)
    ensures CountOn(s, Balance(s, target, today)) < DAILY_LIMIT
  {
    var j :| 0 <= j < SEARCH_LIMIT && Fits(s, target, today, j);
    var k := FirstFit(s, target, today, 0);
    assert k <= j;
  }

  /** The first fitting distance is the one before which nothing fits. */
  lemma {:induction false} FirstFitIs(s: Store, target: int, today: int, from: int, k: int)
    requires 0 <= from <= k <= SEARCH_LIMIT
    requires forall j :: from <= j < k ==> !Fits(s, target, today, j)
    requires k < SEARCH_LIMIT ==> Fits(s, target, today, k)
    ensures FirstFit(s, target, today, from) == k
    decreases k - from
  {
    if from < k {
      FirstFitIs(s, target, today, from + 1, k);
    }
  }

  /** Load balancing never schedules on or before today when the target
      day is after today. */
  lemma BalanceAfterToday(s: Store, target: int, today: int)
    requires target > today
    ensures Balance(s, target, today) > today
  {
  }

  /** The table `dailyCounts`: for each day, how many records have it as
      their next review. */
  method DailyCounts(s: Store) returns (dailyCounts: map<int, int>)
    ensures forall d :: CountIn(dailyCounts, d) == CountOn(s, d)
  {
    dailyCounts := map[];
    var i := 0;
    while i < |s|
      invariant 0 <= i <= |s|
      invariant forall d :: CountIn(dailyCounts, d) == CountOn(s[..i], d)
    {
      assert s[..i + 1][..i] == s[..i];
      var next := s[i].rec.nextReview;
      if next.Some? {
        dailyCounts := dailyCounts[next.value := CountIn(dailyCounts, next.value) + 1];
      }
      i := i + 1;
    }
    assert s[..i] == s;
  }

  /** Counts the records per day, then searches the table outward from the
      target day, the later day first at each distance, and stops at the
      first day with room. */
  method PerformLoadBalancing(target: int, s: Store, today: int) returns (best: int)
    ensures best == Balance(s, target, today)
  {
    var dailyCounts := DailyCounts(s);
    best := target;
    var offset := 0;
    var found := false;
    while !found && offset < SEARCH_LIMIT
      invariant 0 <= offset <= SEARCH_LIMIT
      invariant !found && best == target
      invariant forall j :: 0 <= j < offset ==> !FitsIn(dailyCounts, target, today, j)
    {
      if CountIn(dailyCounts, target + offset) < DAILY_LIMIT {
        best := target + offset;
        found := true;
        break;
      }
      if offset != 0 {
        var back := target - offset;
        if back > today && CountIn(dailyCounts, back) < DAILY_LIMIT {
          best := back;
          found := true;
          break;
        }
      }
      offset := offset + 1;
    }
    // The table agrees with the snapshot on every distance tried.
    forall j | 0 <= j <= offset && j < SEARCH_LIMIT
      ensures FitsIn(dailyCounts, target, today, j) == Fits(s, target, today, j)
    {
      assert CountIn(dailyCounts, target + j) == CountOn(s, target + j);
      assert CountIn(dailyCounts, target - j) == CountOn(s, target - j);
    }
    FirstFitIs(s, target, today, 0, offset);
  }
}
