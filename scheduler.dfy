/** Rating a problem: the new interval, the target day, conflict resolution
    against the snapshot, and the update map holding the rated record and
    every displaced record. */
module Scheduler {
  import opened Options
  import opened Progress
  import opened LoadBalancing
  import opened Resolver

  /** The problem being rated: its id and its difficulty name. */
  datatype Problem = Problem(id: string, difficulty: string)

  /** The difficulty table: Easy 1, Medium 2, Hard 3, and 2 for any other name. */
  function DifficultyWeight(difficulty: string): (w: int)
    ensures 1 <= w <= 3
    ensures w == 2 <==> difficulty != "Easy" && difficulty != "Hard"
  {
    if difficulty == "Easy" then 1
    else if difficulty == "Medium" then 2
    else if difficulty == "Hard" then 3
    else 2
  }

  /** The weight a rating adds: the difficulty weight times (6 - rating). */
  function Weight(difficulty: string, rating: int): (w: int)
    requires 1 <= rating <= 5
    ensures 1 <= w <= 15
  {
    DifficultyWeight(difficulty) * (6 - rating)
  }

  /** The interval the rule starts from: the stored one, or 1 when there is none. */
  function PreviousInterval(interval: int): int {
    if interval == 0 then 1 else interval
  }

  /** The next interval: the previous one times 2.5 rounded up for ratings
      of 4 or more, times 1.5 rounded up for a rating of 3, and 1 otherwise. */
  function NextInterval(interval: int, rating: int): (n: int)
    ensures var prev := PreviousInterval(interval);
      && (rating >= 4 ==> 5 * prev <= 2 * n < 5 * prev + 2)
      && (rating == 3 ==> 3 * prev <= 2 * n < 3 * prev + 2)
      && (rating <= 2 ==> n == 1)
      && (interval >= 0 ==> n >= 1)
      && (interval >= 0 && rating >= 3 ==> n >= prev)
  {
    var prev := PreviousInterval(interval);
    if rating >= 4 then (5 * prev + 1) / 2
    else if rating == 3 then (3 * prev + 1) / 2
    else 1
  }

  /** The record being rated, or a fresh record when there is none. */
  function Current(current: Option<Record>): Record {
    if current.Some? then current.value else Fresh
  }

  /** The rated record: the current one with the review written in. */
  function Rated(cur: Record, problem: Problem, rating: int, finalDate: int, today: int): Record
    requires 1 <= rating <= 5
  {
    var n := NextInterval(cur.interval, rating);
    cur.(solved := true,
         lastReviewed := Some(today),
         nextReview := Some(finalDate),
         interval := n,
         performance := rating,
         vruntime := cur.vruntime + (n as real) / (Weight(problem.difficulty, rating) as real),
         reviews := cur.reviews + 1)
  }

  /** The update map for a rated record and a resolution: the rated record
      under its list and id, then the displaced records merged over it. */
  function Assemble(list: string, id: string, rated: Record, res: Resolution): (u: Updates)
    ensures Untouched(res, list, id) ==> Find(u, list, id) == Some(rated)
    ensures forall l, i {:trigger Find(u, l, i)} :: l != list || i != id ==>
      Find(u, l, i) == if res.bumped.Some? then Find(res.bumped.value, l, i) else None
  {
    var own := map[list := map[id := rated]];
    if res.bumped.Some? then Merge(own, res.bumped.value) else own
  }

  /** The update map for one rating. */
  function Schedule(problem: Problem, current: Option<Record>, rating: int, s: Store, listName: string, today: int): Updates
    requires 1 <= rating <= 5
  {
    var cur := Current(current);
    var res := Resolve(s, today + NextInterval(cur.interval, rating), rating, today);
    Assemble(listName, problem.id, Rated(cur, problem, rating, res.finalDate, today), res)
  }

  /** Computes the weight and the interval, resolves the target day, and
      fills the update map: the rated record first, then each list of
      displaced records merged in. */
  method ScheduleReview(problem: Problem, current: Option<Record>, rating: int, s: Store, listName: string, today: int)
    returns (updates: Updates)
    requires 1 <= rating <= 5
    ensures updates == Schedule(problem, current, rating, s, listName, today)
  {
    var cur := if current.Some? then current.value else Fresh;
    var weight := DifficultyWeight(problem.difficulty) * (6 - rating);

    var newInterval;
    var previousInterval := if cur.interval == 0 then 1 else cur.interval;
    if rating >= 4 {
      newInterval := (5 * previousInterval + 1) / 2;
    } else if rating == 3 {
      newInterval := (3 * previousInterval + 1) / 2;
    } else {
      newInterval := 1;
    }

    assert newInterval == NextInterval(cur.interval, rating);
    var target := today + newInterval;
    var res := ResolveScheduling(target, rating, s, today);

    var addedVRuntime := (newInterval as real) / (weight as real);
    var newProgress := cur.(solved := true,
                            lastReviewed := Some(today),
                            nextReview := Some(res.finalDate),
                            interval := newInterval,
                            performance := rating,
                            vruntime := cur.vruntime + addedVRuntime,
                            reviews := cur.reviews + 1);
    assert weight == Weight(problem.difficulty, rating);
    assert newProgress == Rated(cur, problem, rating, res.finalDate, today);
    updates := map[listName := map[problem.id := newProgress]];
    if res.bumped.Some? {
      updates := MergeInto(updates, res.bumped.value);
    }
    assert cur == Current(current);
    assert res == Resolve(s, today + NextInterval(Current(current).interval, rating), rating, today);
  }

  /** What the rated record promises: solved, reviewed today, next review
      after today, the new interval and rating stored, the virtual runtime
      grown by interval / weight (a positive amount), one more review, and
      every other field as it was. */
  ghost predicate RatedAsPromised(r: Record, cur: Record, problem: Problem, rating: int, today: int)
    requires 1 <= rating <= 5
  {
    && r.solved
    && r.lastReviewed == Some(today)
    && r.nextReview.Some? && r.nextReview.value > today
    && r.interval == NextInterval(cur.interval, rating)
    && r.performance == rating
    && r.vruntime == cur.vruntime + (r.interval as real) / (Weight(problem.difficulty, rating) as real)
    && r.vruntime > cur.vruntime
    && r.reviews == cur.reviews + 1
    && r == cur.(solved := r.solved, lastReviewed := r.lastReviewed, nextReview := r.nextReview,
                 interval := r.interval, performance := r.performance, vruntime := r.vruntime,
                 reviews := r.reviews)
  }

  /** The rated record keeps its promises whenever it ends up in the result. */
  lemma RatedKeepsPromises(cur: Record, problem: Problem, rating: int, finalDate: int, today: int)
    requires 1 <= rating <= 5 && cur.interval >= 0 && finalDate > today
    ensures RatedAsPromised(Rated(cur, problem, rating, finalDate, today), cur, problem, rating, today)
  {
    var n := NextInterval(cur.interval, rating);
    var w := Weight(problem.difficulty, rating);
    assert (n as real) / (w as real) > 0.0;
  }

  /** The snapshot holds no record under `list`/`id` that a rating aimed at
      `target` could displace: none with performance 4 or more due on the
      target day or later. */
  ghost predicate NotDisplaceable(s: Store, list: string, id: string, target: int) {
    forall e :: e in s && e.list == list && e.id == id ==>
      EffectivePerformance(e.rec) < 4 || e.rec.nextReview.None? || e.rec.nextReview.value < target
  }

  /** As written, the result holds the rated record as promised, provided
      the rated problem's own snapshot record is not displaceable; every
      other record in the result is a displaced snapshot record with only
      its next review and performance changed. */
  lemma ScheduleOutcome(problem: Problem, current: Option<Record>, rating: int, s: Store, listName: string, today: int)
    requires 1 <= rating <= 5 && Current(current).interval >= 0
    requires NotDisplaceable(s, listName, problem.id, today + NextInterval(Current(current).interval, rating))
    ensures var u := Schedule(problem, current, rating, s, listName, today);
      && Find(u, listName, problem.id).Some?
      && RatedAsPromised(Find(u, listName, problem.id).value, Current(current), problem, rating, today)
      && forall l, id :: Find(u, l, id).Some? && (l != listName || id != problem.id) ==>
           DisplacedFrom(s, today + 1, today, l, id, Find(u, l, id).value)
  {
    var cur := Current(current);
    var target := today + NextInterval(cur.interval, rating);
    var res := Resolve(s, target, rating, today);
    ResolveAfterToday(s, target, rating, today);
    RatedKeepsPromises(cur, problem, rating, res.finalDate, today);
    RatedNotDisplaced(s, target, rating, today, listName, problem.id);
    ScheduleKeepsRated(problem, current, rating, s, listName, today, target);
    ScheduleOthersDisplaced(problem, current, rating, s, listName, today, target);
  }

  /** The rated record, written with the day its target resolves to,
      survives the merge when it is not among the displaced records. */
  lemma ScheduleKeepsRated(problem: Problem, current: Option<Record>, rating: int, s: Store, listName: string, today: int, target: int)
    requires 1 <= rating <= 5
    requires target == today + NextInterval(Current(current).interval, rating)
    requires Untouched(Resolve(s, target, rating, today), listName, problem.id)
    ensures Find(Schedule(problem, current, rating, s, listName, today), listName, problem.id)
      == Some(Rated(Current(current), problem, rating, Resolve(s, target, rating, today).finalDate, today))
  {
    var res := Resolve(s, target, rating, today);
    var r := Rated(Current(current), problem, rating, res.finalDate, today);
    assert Schedule(problem, current, rating, s, listName, today) == Assemble(listName, problem.id, r, res);
  }

  /** Every record of the result other than the rated one is a displacement
      from tomorrow or later. */
  lemma ScheduleOthersDisplaced(problem: Problem, current: Option<Record>, rating: int, s: Store, listName: string, today: int, target: int)
    requires 1 <= rating <= 5 && Current(current).interval >= 0
    requires target == today + NextInterval(Current(current).interval, rating)
    ensures var u := Schedule(problem, current, rating, s, listName, today);
      forall l, id :: Find(u, l, id).Some? && (l != listName || id != problem.id) ==>
        DisplacedFrom(s, today + 1, today, l, id, Find(u, l, id).value)
  {
    var res := Resolve(s, target, rating, today);
    var r := Rated(Current(current), problem, rating, res.finalDate, today);
    assert Schedule(problem, current, rating, s, listName, today) == Assemble(listName, problem.id, r, res);
    BumpedFromAfterToday(s, target, rating, today);
  }

  /** A record that is not displaceable is not among the displaced records. */
  lemma RatedNotDisplaced(s: Store, target: int, rating: int, today: int, list: string, id: string)
    requires NotDisplaceable(s, list, id, target)
    ensures Untouched(Resolve(s, target, rating, today), list, id)
  {
    var res := Resolve(s, target, rating, today);
    if res.bumped.Some? && Find(res.bumped.value, list, id).Some? {
      BumpedAreDisplaced(s, target, rating, today);
      assert false;
    }
  }

  /** The displaced records of an item aimed after today are displacements
      from tomorrow or later. */
  lemma BumpedFromAfterToday(s: Store, target: int, rating: int, today: int)
    requires target > today
    ensures var res := Resolve(s, target, rating, today);
      res.bumped.Some? ==> AllDisplaced(s, today + 1, today, res.bumped.value)
  {
    var res := Resolve(s, target, rating, today);
    if res.bumped.Some? {
      var b := res.bumped.value;
      BumpedAreDisplaced(s, target, rating, today);
      forall l, id | Find(b, l, id).Some?
        ensures DisplacedFrom(s, today + 1, today, l, id, Find(b, l, id).value)
      {
        DisplacedFromEarlier(s, target, today + 1, today, l, id, Find(b, l, id).value);
      }
    }
  }

  /** A displacement from day `target` or later is one from any earlier day. */
  lemma {:induction false} DisplacedFromEarlier(s: Store, target: int, earlier: int, today: int, list: string, id: string, r: Record)
    requires earlier <= target && target > today
    requires DisplacedFrom(s, target, today, list, id, r)
    ensures DisplacedFrom(s, earlier, today, list, id, r)
  {
    var e :| e in s && e.list == list && e.id == id
      && e.rec.nextReview.Some? && e.rec.nextReview.value >= target
      && EffectivePerformance(e.rec) >= 4
      && r == e.rec.(nextReview := r.nextReview, performance := Demoted(EffectivePerformance(e.rec)))
      && r.nextReview.Some?
      && (target > today ==> r.nextReview.value > today);
    assert r.nextReview.value > today;
  }

  /** A first rating of 5 for a Medium problem with nothing scheduled:
      interval 3, next review in three days, virtual runtime 1.5, one review. */
  lemma FirstRatingExample(today: int)
    ensures var u := Schedule(Problem("p", "Medium"), None, 5, [], "list", today);
      Find(u, "list", "p") == Some(Record(true, Some(today), Some(today + 3), 3, 5, 1.5, 1, None))
  {
    ResolveFreeDay([], today + 3, 5, today);
  }

  /** A record on day 1 with performance 4, and four more on day 1 with
      performance 3: a full day whose only displaceable record is "p". */
  const SelfRecord: Record := Record(true, Some(-2), Some(1), 1, 4, 0.5, 1, None)
  const OtherRecord: Record := Record(true, Some(-1), Some(1), 1, 3, 0.5, 1, None)
  const SelfStore: Store := [Entry("l", "p", SelfRecord), Entry("l", "a", OtherRecord), Entry("l", "b", OtherRecord),
                             Entry("l", "c", OtherRecord), Entry("l", "d", OtherRecord)]

  /** Day 1 of that store is full and "p" is its victim. */
  lemma SelfStoreDayOne()
    ensures ItemsOn(SelfStore, 1) == SelfStore && Victim(SelfStore) == Some(0)
  {
    SelfStoreDayOneItems();
    SelfStoreVictim();
  }

  lemma SelfStoreDayOneItems()
    ensures ItemsOn(SelfStore, 1) == SelfStore
  {
    ItemsOnAllDue(SelfStore, 1);
  }

  lemma SelfStoreVictim()
    ensures Victim(SelfStore) == Some(0)
  {
    var s := SelfStore;
    assert s[..5] == s;
    assert s[..1][..0] == [] && s[..2][..1] == s[..1] && s[..3][..2] == s[..2] && s[..4][..3] == s[..3] && s[..5][..4] == s[..4];
    assert Victim(s[..1]) == Some(0);
    assert Victim(s[..2]) == Some(0);
    assert Victim(s[..3]) == Some(0);
    assert Victim(s[..4]) == Some(0);
  }

  /** Day 2 of that store is empty. */
  lemma SelfStoreDayTwo()
    ensures CountOn(SelfStore, 2) == 0
  {
    var s := SelfStore;
    assert s[..5] == s;
    assert s[..1][..0] == [] && s[..2][..1] == s[..1] && s[..3][..2] == s[..2] && s[..4][..3] == s[..3] && s[..5][..4] == s[..4];
    assert CountOn(s[..1], 2) == 0;
    assert CountOn(s[..2], 2) == 0;
    assert CountOn(s[..3], 2) == 0;
    assert CountOn(s[..4], 2) == 0;
  }

  /** On that store, an item rated 2 aimed at day 1 displaces "p" to day 2. */
  lemma SelfStoreResolves()
    ensures Resolve(SelfStore, 1, 2, 0) == Resolution(1, Some(Displace(SelfStore[0], 2, 3)))
  {
    SelfStoreDayOne();
    SelfStoreDayTwo();
    ResolveFreeDay(SelfStore, 2, 3, 0);
  }

  /** As written, rating "p" 2 on day 0 aims at day 1, where its own
      snapshot record is the only displaceable one: the displaced copy of
      the old record is merged over the rated one, so the rating is lost
      (one review, not two; performance 3, not 2; last reviewed unchanged). */
  lemma RatingLostWhenSelfDisplaced()
    ensures var u := Schedule(Problem("p", "Medium"), Some(SelfRecord), 2, SelfStore, "l", 0);
      && Find(u, "l", "p") == Some(SelfRecord.(nextReview := Some(2), performance := 3))
      && !RatedAsPromised(Find(u, "l", "p").value, SelfRecord, Problem("p", "Medium"), 2, 0)
  {
    SelfStoreResolves();
    var bumped := Displace(SelfStore[0], 2, 3);
    var rated := Rated(SelfRecord, Problem("p", "Medium"), 2, 1, 0);
    var u := Schedule(Problem("p", "Medium"), Some(SelfRecord), 2, SelfStore, "l", 0);
    assert u == Merge(map["l" := map["p" := rated]], bumped);
    assert Find(u, "l", "p") == Find(bumped, "l", "p");
  }

  /** The rating with the rated problem's own snapshot record left out of
      the snapshot, as it is being rescheduled: it cannot be displaced and
      does not count against its target day. */
  function ScheduleCorrected(problem: Problem, current: Option<Record>, rating: int, s: Store, listName: string, today: int): (u: Updates)
    requires 1 <= rating <= 5
    ensures Current(current).interval >= 0 ==>
      && Find(u, listName, problem.id).Some?
      && RatedAsPromised(Find(u, listName, problem.id).value, Current(current), problem, rating, today)
      && forall l, id :: Find(u, l, id).Some? && (l != listName || id != problem.id) ==>
           DisplacedFrom(s, today + 1, today, l, id, Find(u, l, id).value)
  {
    var rest := Without(s, listName, problem.id);
    if Current(current).interval >= 0 then
      ScheduleOutcome(problem, current, rating, rest, listName, today);
      DisplacedFromWithout(s, listName, problem.id, today + 1, today, Schedule(problem, current, rating, rest, listName, today));
      Schedule(problem, current, rating, rest, listName, today)
    else
      Schedule(problem, current, rating, rest, listName, today)
  }

  /** Displacements computed on a smaller snapshot are displacements in the full one. */
  lemma DisplacedFromWithout(s: Store, list: string, id: string, target: int, today: int, u: Updates)
    requires forall l, i :: Find(u, l, i).Some? && (l != list || i != id) ==>
      DisplacedFrom(Without(s, list, id), target, today, l, i, Find(u, l, i).value)
    ensures forall l, i :: Find(u, l, i).Some? && (l != list || i != id) ==>
      DisplacedFrom(s, target, today, l, i, Find(u, l, i).value)
  {
    forall l, i | Find(u, l, i).Some? && (l != list || i != id)
      ensures DisplacedFrom(s, target, today, l, i, Find(u, l, i).value)
    {
      var r := Find(u, l, i).value;
      assert DisplacedFrom(Without(s, list, id), target, today, l, i, r);
      var e :| e in Without(s, list, id) && e.list == l && e.id == i
        && e.rec.nextReview.Some? && e.rec.nextReview.value >= target
        && EffectivePerformance(e.rec) >= 4
        && r == e.rec.(nextReview := r.nextReview, performance := Demoted(EffectivePerformance(e.rec)))
        && r.nextReview.Some?
        && (target > today ==> r.nextReview.value > today);
      assert e in s;
    }
  }
}
