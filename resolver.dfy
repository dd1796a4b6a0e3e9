/** Conflict resolution for one target day: place the item there while the
    day has room; on a full day let a struggling item (rating 3 or less)
    displace the best-performing record, which moves on to the next day;
    otherwise fall back to load balancing. Every decision reads the same
    unchanged snapshot. */
module Resolver {
  import opened Options
  import opened Progress
  import opened LoadBalancing

  /** The performance a record competes with: a missing (or 0) value counts as 3. */
  function EffectivePerformance(r: Record): (p: int)
    ensures r.performance == 0 ==> p == 3
    ensures r.performance != 0 ==> p == r.performance
  {
    if r.performance == 0 then 3 else r.performance
  }

  /** A displaced record with performance 4 drops to 3; any other value is kept. */
  function Demoted(performance: int): (p: int)
    ensures performance == 4 ==> p == 3
    ensures performance != 4 ==> p == performance
  {
    if performance == 4 then 3 else performance
  }

  /** The record a full day gives up: among the items with effective
      performance 4 or more, one of the highest, the first such in store
      order (a stable sort by descending performance, then its head). */
  function Victim(items: seq<Entry>): (v: Option<nat>)
    ensures v.None? <==> forall j :: 0 <= j < |items| ==> EffectivePerformance(items[j].rec) < 4
    ensures v.Some? ==>
      && v.value < |items|
      && EffectivePerformance(items[v.value].rec) >= 4
      && (forall j :: 0 <= j < |items| ==>
            EffectivePerformance(items[j].rec) <= EffectivePerformance(items[v.value].rec))
      && (forall j :: 0 <= j < v.value ==>
            EffectivePerformance(items[j].rec) < EffectivePerformance(items[v.value].rec))
  {
    if |items| == 0 then None
    else
      var earlier := Victim(items[..|items| - 1]);
      var p := EffectivePerformance(items[|items| - 1].rec);
      if p >= 4 && (earlier.None? || p > EffectivePerformance(items[earlier.value].rec))
      then Some(|items| - 1)
      else earlier
  }

  /** Over the whole snapshot: a full day has no victim exactly when no
      record due that day has effective performance 4 or more; otherwise
      the victim is a record due that day whose effective performance is
      at least 4 and at least that of every record due that day. */
  lemma VictimBestOnDay(s: Store, target: int)
    ensures Victim(ItemsOn(s, target)).None? <==>
      forall e :: e in s && e.rec.nextReview == Some(target) ==> EffectivePerformance(e.rec) < 4
    ensures Victim(ItemsOn(s, target)).Some? ==>
      var victim := ItemsOn(s, target)[Victim(ItemsOn(s, target)).value];
      && victim in s && victim.rec.nextReview == Some(target)
      && EffectivePerformance(victim.rec) >= 4
      && forall e :: e in s && e.rec.nextReview == Some(target) ==>
           EffectivePerformance(e.rec) <= EffectivePerformance(victim.rec)
  {
    var items := ItemsOn(s, target);
    ItemsOnExactly(s, target);
    forall e | e in s && e.rec.nextReview == Some(target)
      ensures exists j :: 0 <= j < |items| && items[j] == e
    {
      assert e in items;
    }
  }

  /** Where the incoming item lands, and the records displaced to make room
      (none when nothing was displaced). */
  datatype Resolution = Resolution(finalDate: int, bumped: Option<Updates>)

  /** The update for one displaced record: its snapshot record with a new
      next-review day and performance, every other field unchanged. */
  function Displace(victim: Entry, finalDate: int, performance: int): Updates {
    map[victim.list := map[victim.id := victim.rec.(nextReview := Some(finalDate), performance := performance)]]
  }

  /** The decision for an item with the given rating aimed at `target`. */
  function Resolve(s: Store, target: int, rating: int, today: int): Resolution
    decreases MaxDay(s) - target
  {
    var items := ItemsOn(s, target);
    if |items| < DAILY_LIMIT then Resolution(target, None)
    else
      var v := if rating <= 3 then Victim(items) else None;
      if v.Some? then
        var victim := items[v.value];
        var performance := Demoted(EffectivePerformance(victim.rec));
        ItemsOnCount(s, target);
        OccupiedDayBounded(s, target);
        var next := Resolve(s, target + 1, performance, today);
        var single := Displace(victim, next.finalDate, performance);
        Resolution(target, Some(if next.bumped.Some? then Merge(single, next.bumped.value) else single))
      else Resolution(Balance(s, target, today), None)
  }

  /** Collects the target day's records, then places the item, displaces a
      victim (resolving the victim's own placement on the next day and
      merging what that displaces), or load-balances. */
  method ResolveScheduling(target: int, rating: int, s: Store, today: int) returns (res: Resolution)
    ensures res == Resolve(s, target, rating, today)
    decreases MaxDay(s) - target
  {
    var itemsOnDate: seq<Entry> := [];
    var i := 0;
    while i < |s|
      invariant 0 <= i <= |s|
      invariant itemsOnDate == ItemsOn(s[..i], target)
    {
      assert s[..i + 1][..i] == s[..i];
      if s[i].rec.nextReview == Some(target) {
        itemsOnDate := itemsOnDate + [s[i]];
      }
      i := i + 1;
    }
    assert s[..i] == s;

    if |itemsOnDate| < DAILY_LIMIT {
      return Resolution(target, None);
    }
    if rating <= 3 {
      var v := Victim(itemsOnDate);
      if v.Some? {
        var victim := itemsOnDate[v.value];
        var performance := EffectivePerformance(victim.rec);
        if performance == 4 {
          performance := 3;
        }
        ItemsOnCount(s, target);
        OccupiedDayBounded(s, target);
        var next := ResolveScheduling(target + 1, performance, s, today);
        var bumpedUpdates := Displace(victim, next.finalDate, performance);
        if next.bumped.Some? {
          bumpedUpdates := MergeInto(bumpedUpdates, next.bumped.value);
        }
        return Resolution(target, Some(bumpedUpdates));
      }
    }
    var bestDate := PerformLoadBalancing(target, s, today);
    return Resolution(bestDate, None);
  }

  /** A day with room takes the item as it is, displacing nothing. */
  lemma ResolveFreeDay(s: Store, target: int, rating: int, today: int)
    requires CountOn(s, target) < DAILY_LIMIT
    ensures Resolve(s, target, rating, today) == Resolution(target, None)
  {
    ItemsOnCount(s, target);
  }

  /** A full day that a struggling item cannot claim by displacement, or
      that an item rated 4 or more aims at, sends the item to the day load
      balancing finds, displacing nothing. */
  lemma ResolveFullDay(s: Store, target: int, rating: int, today: int)
    requires CountOn(s, target) >= DAILY_LIMIT
    requires rating > 3 || forall e :: e in s && e.rec.nextReview == Some(target) ==> EffectivePerformance(e.rec) < 4
    ensures Resolve(s, target, rating, today) == Resolution(Balance(s, target, today), None)
  {
    ItemsOnCount(s, target);
    var items := ItemsOn(s, target);
    assert forall j :: 0 <= j < |items| ==> items[j] in s && items[j].rec.nextReview == Some(target);
  }

  /** On a full day, a struggling item with a displaceable record there
      keeps the target day and displaces exactly that record: its update
      is its snapshot record moved to wherever it resolves on the next day,
      with performance 4 lowered to 3. */
  lemma ResolveDisplaces(s: Store, target: int, rating: int, today: int)
    requires Keyed(s)
    requires CountOn(s, target) >= DAILY_LIMIT && rating <= 3
    requires Victim(ItemsOn(s, target)).Some?
    ensures var victim := ItemsOn(s, target)[Victim(ItemsOn(s, target)).value];
      var performance := Demoted(EffectivePerformance(victim.rec));
      var res := Resolve(s, target, rating, today);
      && res.finalDate == target
      && res.bumped.Some?
      && Find(res.bumped.value, victim.list, victim.id) ==
           Some(victim.rec.(nextReview := Some(Resolve(s, target + 1, performance, today).finalDate),
                            performance := performance))
  {
    ItemsOnCount(s, target);
    var items := ItemsOn(s, target);
    var victim := items[Victim(items).value];
    assert victim in s && victim.rec.nextReview == Some(target);
    var performance := Demoted(EffectivePerformance(victim.rec));
    OccupiedDayBounded(s, target);
    NotDisplacedLater(s, target + 1, performance, today, victim);
  }

  /** The resolution displaces no record stored under `list`/`id`. */
  predicate Untouched(res: Resolution, list: string, id: string) {
    res.bumped.None? || Find(res.bumped.value, list, id).None?
  }

  /** A record due before `target` is not among the records displaced by
      an item aimed at `target`. */
  lemma NotDisplacedLater(s: Store, target: int, rating: int, today: int, x: Entry)
    requires Keyed(s) && x in s
    requires x.rec.nextReview.Some? && x.rec.nextReview.value < target
    ensures Untouched(Resolve(s, target, rating, today), x.list, x.id)
  {
    var res := Resolve(s, target, rating, today);
    if res.bumped.Some? && Find(res.bumped.value, x.list, x.id).Some? {
      BumpedAreDisplaced(s, target, rating, today);
      assert AllDisplaced(s, target, today, res.bumped.value);
      assert DisplacedFrom(s, target, today, x.list, x.id, Find(res.bumped.value, x.list, x.id).value);
      var e :| e in s && e.list == x.list && e.id == x.id
        && e.rec.nextReview.Some? && e.rec.nextReview.value >= target;
      KeyedSame(s, e, x);
      assert false;
    }
  }

  /** The item never lands on or before today when its target is after today. */
  lemma ResolveAfterToday(s: Store, target: int, rating: int, today: int)
    requires target > today
    ensures Resolve(s, target, rating, today).finalDate > today
  {
    BalanceAfterToday(s, target, today);
  }

  /** `r` is the update for a record displaced from day `target` or later:
      the snapshot holds a record under `list`/`id` due that day with
      performance 4 or more, and `r` is that record with only its next
      review (moved after today when the target is) and its performance
      (demoted) changed. */
  ghost predicate DisplacedFrom(s: Store, target: int, today: int, list: string, id: string, r: Record) {
    exists e :: e in s && e.list == list && e.id == id
      && e.rec.nextReview.Some? && e.rec.nextReview.value >= target
      && EffectivePerformance(e.rec) >= 4
      && r == e.rec.(nextReview := r.nextReview, performance := Demoted(EffectivePerformance(e.rec)))
      && r.nextReview.Some?
      && (target > today ==> r.nextReview.value > today)
  }

  /** Every record in `u` is a displacement from day `target` or later. */
  ghost predicate AllDisplaced(s: Store, target: int, today: int, u: Updates) {
    forall l, id :: Find(u, l, id).Some? ==> DisplacedFrom(s, target, today, l, id, Find(u, l, id).value)
  }

  /** Every record in the displaced updates, however far the displacement
      cascades, is a snapshot record from the target day or later with only
      its next review and performance changed. */
  lemma {:induction false} BumpedAreDisplaced(s: Store, target: int, rating: int, today: int)
    ensures var res := Resolve(s, target, rating, today);
      res.bumped.Some? ==> AllDisplaced(s, target, today, res.bumped.value)
    decreases MaxDay(s) - target
  {
    var items := ItemsOn(s, target);
    if |items| >= DAILY_LIMIT && rating <= 3 && Victim(items).Some? {
      var victim := items[Victim(items).value];
      var performance := Demoted(EffectivePerformance(victim.rec));
      ItemsOnCount(s, target);
      OccupiedDayBounded(s, target);
      var next := Resolve(s, target + 1, performance, today);
      if target + 1 > today {
        ResolveAfterToday(s, target + 1, performance, today);
      }
      var single := Displace(victim, next.finalDate, performance);
      VictimDisplaced(s, target, today, items, performance, next.finalDate);
      if next.bumped.Some? {
        BumpedAreDisplaced(s, target + 1, performance, today);
        AllDisplacedWeaken(s, target, today, next.bumped.value);
        AllDisplacedMerge(s, target, today, single, next.bumped.value);
      }
    }
  }

  /** The update for the victim itself is a displacement from the target day. */
  lemma VictimDisplaced(s: Store, target: int, today: int, items: seq<Entry>, performance: int, finalDate: int)
    requires items == ItemsOn(s, target) && Victim(items).Some?
    requires performance == Demoted(EffectivePerformance(items[Victim(items).value].rec))
    requires target + 1 > today ==> finalDate > today
    ensures AllDisplaced(s, target, today, Displace(items[Victim(items).value], finalDate, performance))
  {
    var victim := items[Victim(items).value];
    assert victim in s && victim.rec.nextReview == Some(target);
    var u := Displace(victim, finalDate, performance);
    forall l, id | Find(u, l, id).Some?
      ensures DisplacedFrom(s, target, today, l, id, Find(u, l, id).value)
    {
      assert l == victim.list && id == victim.id;
    }
  }

  /** Displacements from `target + 1` or later are displacements from `target` or later. */
  lemma AllDisplacedWeaken(s: Store, target: int, today: int, u: Updates)
    requires AllDisplaced(s, target + 1, today, u)
    ensures AllDisplaced(s, target, today, u)
  {
    forall l, id | Find(u, l, id).Some?
      ensures DisplacedFrom(s, target, today, l, id, Find(u, l, id).value)
    {
      var r := Find(u, l, id).value;
      assert DisplacedFrom(s, target + 1, today, l, id, r);
      var e :| e in s && e.list == l && e.id == id
        && e.rec.nextReview.Some? && e.rec.nextReview.value >= target + 1
        && EffectivePerformance(e.rec) >= 4
        && r == e.rec.(nextReview := r.nextReview, performance := Demoted(EffectivePerformance(e.rec)))
        && r.nextReview.Some?
        && (target + 1 > today ==> r.nextReview.value > today);
    }
  }

  /** Merging two maps of displacements gives a map of displacements. */
  lemma AllDisplacedMerge(s: Store, target: int, today: int, u: Updates, v: Updates)
    requires AllDisplaced(s, target, today, u) && AllDisplaced(s, target, today, v)
    ensures AllDisplaced(s, target, today, Merge(u, v))
  {
    var w := Merge(u, v);
    forall l, id | Find(w, l, id).Some?
      ensures DisplacedFrom(s, target, today, l, id, Find(w, l, id).value)
    {
      if Find(v, l, id).Some? {
        assert DisplacedFrom(s, target, today, l, id, Find(v, l, id).value);
      } else {
        assert DisplacedFrom(s, target, today, l, id, Find(u, l, id).value);
      }
    }
  }

  /** A displaced record never lands back on the day it was displaced
      from: that day is full, so the next day's search does not step back
      onto it. (It may land before the next day: the search also looks
      backward, to any day after today with room.) */
  lemma VictimLeavesDay(s: Store, target: int, performance: int, today: int)
    requires CountOn(s, target) >= DAILY_LIMIT
    ensures Resolve(s, target + 1, performance, today).finalDate != target
  {
    var next := target + 1;
    ItemsOnCount(s, next);
    var k := FirstFit(s, next, today, 0);
    if k < SEARCH_LIMIT && !ForwardFree(s, next, k) {
      assert BackwardFree(s, next, today, k);
    }
  }
}
