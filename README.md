# Fair Review Scheduler — a verified model

This project models the scheduling core of a spaced-repetition tracker for
coding problems (`src/utils/scheduler.js`) and its performance colour
palette (`src/utils/theme.js`).

When a solved problem is rated 1 to 5, the scheduler:

- computes a new review interval from the rating;
- aims the next review at `today + interval`;
- resolves that target day against a snapshot of every list's progress:
  - a day with fewer than `DAILY_LIMIT` (5) reviews takes the item;
  - on a full day, an item rated 3 or less displaces the best-performing record (performance 4 or more). That record moves to wherever it resolves on the next day, and a performance of 4 is lowered to 3;
  - otherwise the item falls back to a load-balancing search that looks outward from the target day;
- returns an update map `{list -> {id -> record}}` holding the rated record and every displaced record.

Two read-only views complete the core:

- the review status of one problem (unsolved, due or future);
- a forecast of the next days, with each scheduled record in the bucket of its day and overdue records placed today.

## Modules

- `options.dfy` — `Option`.
- `progress.dfy` — `Progress`:
  - the review record and the snapshot, a sequence of `(list, id, record)` entries in iteration order;
  - update maps and their list-by-list merge;
  - the records due on a day and their count.
- `load_balancing.dfy` — `LoadBalancing`:
  - the outward search, as a specification (`FirstFit`, `Balance`);
  - the loop that computes it over a day-count table (`PerformLoadBalancing`).
- `resolver.dfy` — `Resolver`:
  - victim choice and the recursive resolution, as a function (`Resolve`) and as the method that computes it (`ResolveScheduling`);
  - what a displacement may change.
- `scheduler.dfy` — `Scheduler`:
  - the difficulty table, the weight and the interval rule;
  - the rated record and the update map (`Schedule`, `ScheduleReview`);
  - the finding below and its correction.
- `decimal.dfy` — `Decimal`: day labels written in decimal, with their round trip.
- `forecast.dfy` — `Forecast`: the forecast as a function (`DailyForecast`) and as the two-loop method (`GetDailyForecast`).
- `status.dfy` — `Status`: the review status and how it agrees with the forecast.
- `theme.dfy` — `Theme`: the palette, the lookup with its grey default, and its inverse.

### Abstractions

- Days are integers, and `today` is a parameter wherever the source reads the clock.
- Numeric record fields hold 0 where the stored object has no value, because every read of them (`|| 1`, `|| 3`, `|| 0`) treats 0 and a missing value alike.
- `Math.ceil(p * 2.5)` is written `(5p + 1) / 2`, and `Math.ceil(p * 1.5)` is written `(3p + 1) / 2`.
- On integer days, the recursion of `resolveScheduling` terminates because a full day cannot lie beyond the latest review day in the snapshot. The source steps calendar dates, where this can fail (see "Left out").

## Model

| member | source | states |
|---|---|---|
| Progress.Merge | src/utils/scheduler.js:155-160 | the merged map has the lists of both maps; for every list and id the later map's record wins, otherwise the earlier one's is kept |
| Progress.MergeInto | src/utils/scheduler.js:76-81 | merging one list at a time into a copy, creating a list's map when missing, yields exactly `Merge` |
| Progress.ItemsOn | src/utils/scheduler.js:88-96 | the collected items are snapshot records whose next review is the given day, no more of them than the snapshot holds |
| Progress.ItemsOnExactly | src/utils/scheduler.js:88-96 | a record is among the day's items exactly when it is in the snapshot and its next review is that day |
| Progress.ItemsOnOrder | src/utils/scheduler.js:88-96 | the items keep snapshot order: the items of a snapshot made of two parts are the first part's items followed by the second's |
| Progress.ItemsOnCount | src/utils/scheduler.js:181-188 | the list of a day's items is exactly as long as the day's count in the table |
| Progress.OccupiedDayBounded | src/utils/scheduler.js:132-136 | a day holding records is no later than the snapshot's latest review day, so the chain of next-day resolutions ends |
| LoadBalancing.FirstFit | src/utils/scheduler.js:194-218 | the distance the search stops at is the smallest one below 365 at which the later or the earlier day has room, or 365 when none does |
| LoadBalancing.BalanceNearestFree | src/utils/scheduler.js:190-219 | no smaller distance fits; at the first fitting distance the later day is taken when it has room, else the earlier day, which lies after today; with no fitting distance the target is returned unchanged |
| LoadBalancing.BalanceHasRoom | src/utils/scheduler.js:199-213 | when some distance below 365 fits, the day returned holds fewer than 5 reviews |
| LoadBalancing.BalanceAfterToday | src/utils/scheduler.js:205-215 | a target after today yields a day after today |
| LoadBalancing.DailyCounts | src/utils/scheduler.js:181-188 | the table holds, for every day, the number of snapshot records with that next review |
| LoadBalancing.PerformLoadBalancing | src/utils/scheduler.js:180-220 | the counting pass and the outward loop with its early exits return the day `Balance` specifies |
| Resolver.EffectivePerformance | src/utils/scheduler.js:93 | a record competes with its performance, or with 3 when the performance is missing or 0 |
| Resolver.VictimBestOnDay | src/utils/scheduler.js:88-111 | over the whole snapshot, a day has no victim exactly when no record due that day has effective performance 4 or more; otherwise the victim is a record due that day, with effective performance at least 4 and at least that of every record due that day |
| Resolver.Demoted | src/utils/scheduler.js:122-125 | a displaced performance of 4 becomes 3; every other value is kept |
| Resolver.Victim | src/utils/scheduler.js:108-111 | there is no victim exactly when every item on the day has effective performance below 4; otherwise the victim has the highest effective performance on the day (at least 4), and every item before it has a lower one, as a stable descending sort's head does |
| Resolver.ResolveScheduling | src/utils/scheduler.js:86-173 | the collecting loop, the victim's recursive resolution on the next day, the merge of cascading updates and the fallback compute exactly `Resolve` |
| Resolver.ResolveFreeDay | src/utils/scheduler.js:98-100 | a day with fewer than 5 reviews takes the item unchanged and displaces nothing |
| Resolver.ResolveFullDay | src/utils/scheduler.js:169-172 | a full day that the item cannot claim (rating above 3, or no record there with performance 4 or more) sends it to the load-balanced day and displaces nothing |
| Resolver.ResolveDisplaces | src/utils/scheduler.js:113-165 | a struggling item on a full day with a victim keeps the target day; the victim's update is its snapshot record moved to where it resolves on the next day, with its demoted performance |
| Resolver.NotDisplacedLater | src/utils/scheduler.js:132-136 | the cascade started on a day never displaces a record due before that day |
| Resolver.ResolveAfterToday | src/utils/scheduler.js:194-218 | an item aimed after today lands after today |
| Resolver.BumpedAreDisplaced | src/utils/scheduler.js:139-160 | every record in the displaced updates, at any depth of the cascade, is a snapshot record due on the target day or later, with performance 4 or more, and only its next review and performance changed |
| Resolver.VictimDisplaced | src/utils/scheduler.js:139-152 | the victim's own update is such a displacement |
| Resolver.AllDisplacedMerge | src/utils/scheduler.js:155-160 | merging two maps of displacements gives a map of displacements |
| Resolver.VictimLeavesDay | src/utils/scheduler.js:115-136 | a displaced record never lands back on the full day it left |
| Scheduler.DifficultyWeight | src/utils/scheduler.js:29 | the difficulty weight is between 1 and 3, and it is 2 exactly for names other than Easy and Hard |
| Scheduler.Weight | src/utils/scheduler.js:30 | for ratings 1 to 5 the weight is between 1 and 15, so the runtime increment is defined |
| Scheduler.NextInterval | src/utils/scheduler.js:33-43 | the interval is the previous one (1 when unset) times 2.5 rounded up for ratings of 4 or more, times 1.5 rounded up for 3, and 1 for lower ratings; it is at least 1, and at least the previous interval for ratings of 3 or more |
| Scheduler.Assemble | src/utils/scheduler.js:71-81 | the update map holds the rated record under its list and id unless a displaced record replaces it there; every other list and id holds exactly what the displaced updates hold |
| Scheduler.ScheduleReview | src/utils/scheduler.js:25-84 | the weight and interval computation, the resolution and the in-place filling of the update map yield exactly `Schedule` |
| Scheduler.RatedKeepsPromises | src/utils/scheduler.js:58-68 | the rated record is solved, reviewed today and due after today; it stores the new interval and the rating; its runtime grows by interval / weight, a positive amount; it has one more review; every other field is copied |
| Scheduler.ScheduleOutcome | src/utils/scheduler.js:52-83 | the result holds the rated record, as promised, under its list and id; every other record in it is a displaced snapshot record, due after today, with only its next review and performance changed |
| Scheduler.ScheduleKeepsRated | src/utils/scheduler.js:71-81 | when the rated problem's own snapshot record is not displaceable, the result holds the rated record, written with the day its resolution found, under its list and id |
| Scheduler.ScheduleOthersDisplaced | src/utils/scheduler.js:76-81 | every record merged in besides the rated one is a displaced snapshot record, due after today, with only its next review and performance changed |
| Scheduler.RatedNotDisplaced | src/utils/scheduler.js:108-111 | a record with no displaceable snapshot entry is not among the displaced records |
| Scheduler.BumpedFromAfterToday | src/utils/scheduler.js:115-117 | every displaced record comes from a day after today and lands after today |
| Scheduler.FirstRatingExample | src/utils/scheduler.js:25-68 | a first rating of 5 for a Medium problem gives interval 3, a review in three days, runtime 1.5 and one review |
| Scheduler.RatingLostWhenSelfDisplaced | src/utils/scheduler.js:76-81 | as written, when the rated problem's own record is the victim, its displaced copy replaces the rated record in the result |
| Scheduler.ScheduleCorrected | src/utils/scheduler.js:55 | resolving against the snapshot without the rated problem's own record keeps every promise of the rated record; every other record is a displacement from the full snapshot |
| Decimal.DecimalString | src/utils/scheduler.js:286 | a label is a non-empty string of decimal digits, with a leading zero only for 0 |
| Decimal.DecimalRoundTrip | src/utils/scheduler.js:286 | reading a label back gives the day index it was written from |
| Decimal.LabelsDistinct | src/utils/scheduler.js:286 | different day indexes get different labels |
| Forecast.Slot | src/utils/scheduler.js:262-268 | a scheduled record is shown on its next review day, or today when that day has passed |
| Forecast.TaskOf | src/utils/scheduler.js:270-275 | a task carries its record's id, list, performance (0 when missing) and difficulty |
| Forecast.TasksOnMembers | src/utils/scheduler.js:255-278 | a task is shown on a day exactly when some solved record with a next review has that day as its slot and contributes that task |
| Forecast.ReviewsByDate | src/utils/scheduler.js:244-278 | the table built in one pass holds, for every day, exactly the tasks shown on that day in store order |
| Forecast.GetDailyForecast | src/utils/scheduler.js:239-297 | the two loops build exactly `DailyForecast` |
| Forecast.ForecastShape | src/utils/scheduler.js:281-294 | the forecast has one bucket per day of the window (none for a non-positive count); bucket `i` has index `i`, date `today + i`, label `i` in decimal and the tasks shown that day |
| Forecast.ShownOnItsDay | src/utils/scheduler.js:259-278 | in a snapshot with unique keys, a record's task is shown on a day exactly when the record is scheduled and the day is its slot |
| Forecast.ForecastPlacement | src/utils/scheduler.js:259-294 | a record's task is in bucket `i` exactly when it is scheduled with slot `today + i`, so it is in at most one bucket, in none beyond the window, and overdue records are in bucket 0 |
| Forecast.TasksFollowStoreOrder | src/utils/scheduler.js:255-257 | the tasks of a snapshot made of two parts are the first part's tasks followed by the second's |
| Status.GetReviewStatus | src/utils/scheduler.js:223-231 | unsolved exactly when the record is missing or not solved; future exactly when it is solved and its next review is after today; due otherwise |
| Status.StatusMatchesForecast | src/utils/scheduler.js:228-230 | a scheduled problem is due exactly when the forecast shows it today, and future exactly when it shows it later |
| Status.UnscheduledIsDue | src/utils/scheduler.js:228 | a solved problem without a next review is due, and it is not in the forecast |
| Status.RatedIsFuture | src/utils/scheduler.js:228-230 | a record rated as promised is in the future, never due the same day |
| Theme.PerformanceColor | src/utils/theme.js:25-27 | scores 1 to 5 get a palette colour other than the grey default; every other score gets the default |
| Theme.ColorsDistinct | src/utils/theme.js:11-17 | the five palette colours are pairwise distinct and none is the default |
| Theme.ColorRoundTrip | src/utils/theme.js:11-17 | the colour of a score reads back as that score, and a colour that reads back as a score is that score's colour |
| Theme.DefaultIsNoScore | src/utils/theme.js:26 | the default grey is no score's colour |

## Findings

| source | as written | input that shows it | evidently intended | confidence | as-written member | corrected member |
|---|---|---|---|---|---|---|
| src/utils/scheduler.js:55 | the rated problem's own stored record competes on the target day, and its displaced copy is merged after the rated record and replaces it | today 0; problem "p" in list "l", stored with interval 1, performance 4 and next review day 1; four more records due day 1 with performance 3; "p" is rated 2. Day 1 is full, "p" is its own victim, and the result holds the old record moved to day 2 with performance 3 | the rated record is being rescheduled, so it neither counts against nor is displaced from its target day | not executed | Scheduler.RatingLostWhenSelfDisplaced | Scheduler.ScheduleCorrected |

## Left out

- Calendar dates: the JavaScript `Date` arithmetic, ISO strings and the mix of local-time `setDate` with UTC `toISOString` are replaced by integer day numbers.
- The clock: `new Date()` is read several times in the source; the model takes one `today` for the whole call.
- Iteration order: the snapshot is a sequence in the order the nested `Object.keys` walk visits it. The model does not derive that order from the keys, where integer-like keys come first in JavaScript.
- The `days = 11` default of the forecast: `days` is an explicit parameter.
- `vruntime` is a real number, not a double. Rounding is not modelled, and no decision reads it.
- Values that are not numbers (`NaN`, fractions, numeric strings) for intervals, performances and scores are not modelled.
- The rating is required to lie in 1..5, as the source documents; a rating of 6 would divide by zero.
- The victim's update starts from the record found while collecting the day's items. The source looks it up again under its list and id, which gives the same record when keys are unique.
- Applying the update map to the stored progress (`handleReview`, a caller's deep merge) is not part of this model, and neither are storage, import/export and the user interface.
- Scheduler.ScheduleOutcome: requires that the rated problem's own snapshot record is not displaceable on its target day and that its stored interval is not negative; without the first, the finding above shows the promise fails.
- Scheduler.RatedKeepsPromises: requires a stored interval that is not negative; a negative one would give a non-positive interval.
- Resolver.VictimLeavesDay: does not claim that a displaced record lands on the next day or later. The next day's load balancing also searches backward, to any day after today with room, so a displaced record can move earlier than the day it left. It never lands back on that day.
- The daily limit is not claimed for the store once the updates are applied, because applying them is outside this model. Within one call, a cascade passes only through days that are full in the snapshot, and each of them gives up one record and takes one. Load balancing picks only days with fewer than 5 records. So the limit can be exceeded only when no distance below 365 has room, or on a day that was already over the limit.
- Termination on calendar dates: the source parses the target date as UTC midnight and steps it with local-time `setDate` (src/utils/scheduler.js:115-117). West of UTC, on the day daylight saving time starts, the "next day" string equals the target. A performance-4 victim, lowered to 3, then claims the same day again and again, and the recursion does not end. Integer days always step forward, so the model does not capture this case.
