/** The review forecast: every solved record with a next review, placed in
    the bucket of its day (overdue records in today's), for a window of
    consecutive days starting today. */
module Forecast {
  import opened Options
  import opened Progress
  import opened Decimal

  /** What a bucket shows of one record. */
  datatype Task = Task(id: string, list: string, performance: int, difficulty: Option<string>)

  /** One day of the forecast. */
  datatype DayBucket = DayBucket(dayIndex: int, date: int, dayLabel: string, tasks: seq<Task>)

  /** The record takes part in the forecast: solved, with a next review. */
  predicate Scheduled(r: Record) {
    r.solved && r.nextReview.Some?
  }

  /** The day a scheduled record is shown on: its next review, or today
      when that has passed. */
  function Slot(r: Record, today: int): (d: int)
    requires r.nextReview.Some?
    ensures d >= today && d >= r.nextReview.value
    ensures d == today || d == r.nextReview.value
  {
    if r.nextReview.value < today then today else r.nextReview.value
  }

  /** The task a record contributes: its id, list, performance (0, no
      score, when missing) and difficulty. */
  function TaskOf(e: Entry): (t: Task)
    ensures t.id == e.id && t.list == e.list
    ensures t.performance == e.rec.performance && t.difficulty == e.rec.difficulty
  {
    Task(e.id, e.list, e.rec.performance, e.rec.difficulty)
  }

  /** The tasks shown on day `d`, in store order. */
  function TasksOn(s: Store, d: int, today: int): seq<Task> {
    if |s| == 0 then []
    else
      var last := s[|s| - 1];
      TasksOn(s[..|s| - 1], d, today)
        + (if Scheduled(last.rec) && Slot(last.rec, today) == d then [TaskOf(last)] else [])
  }

  /** A task is shown on day `d` exactly when some scheduled record of the
      store has `d` as its day and contributes that task. */
  lemma {:induction false} TasksOnMembers(s: Store, d: int, today: int)
    ensures forall t :: t in TasksOn(s, d, today) <==>
      exists e :: e in s && Scheduled(e.rec) && Slot(e.rec, today) == d && TaskOf(e) == t
  {
    if |s| > 0 {
      var last := s[|s| - 1];
      assert forall e :: e in s <==> e in s[..|s| - 1] || e == last;
      TasksOnMembers(s[..|s| - 1], d, today);
    }
  }

  /** The bucket for the day `i` days after today. */
  function Bucket(s: Store, i: nat, today: int): DayBucket {
    DayBucket(i, today + i, DecimalString(i), TasksOn(s, today + i, today))
  }

  /** The forecast for `days` days starting today. */
  function DailyForecast(s: Store, days: int, today: int): seq<DayBucket>
    decreases days
  {
    if days <= 0 then [] else DailyForecast(s, days - 1, today) + [Bucket(s, days - 1, today)]
  }

  /** The tasks the table holds for day `d` (none when it has no entry). */
  function TasksIn(byDate: map<int, seq<Task>>, d: int): seq<Task> {
    if d in byDate then byDate[d] else []
  }

  /** One pass over the store, appending each scheduled record's task to
      the table entry of its day. */
  method ReviewsByDate(s: Store, today: int) returns (reviewsByDate: map<int, seq<Task>>)
    ensures forall d :: TasksIn(reviewsByDate, d) == TasksOn(s, d, today)
  {
    reviewsByDate := map[];
    var k := 0;
    while k < |s|
      invariant 0 <= k <= |s|
      invariant forall d :: TasksIn(reviewsByDate, d) == TasksOn(s[..k], d, today)
    {
      ghost var before := reviewsByDate;
      var prob := s[k].rec;
      if prob.solved && prob.nextReview.Some? {
        var targetDate := prob.nextReview.value;
        if targetDate < today {
          targetDate := today;
        }
        reviewsByDate := reviewsByDate[targetDate := TasksIn(reviewsByDate, targetDate) + [TaskOf(s[k])]];
      }
      TableStep(before, reviewsByDate, s, k, today);
      k := k + 1;
    }
    assert s[..k] == s;
  }

  /** Appending one record's task to the table entry of its day keeps the
      table in step with the tasks of the store's prefix. */
  lemma TableStep(before: map<int, seq<Task>>, after: map<int, seq<Task>>, s: Store, k: int, today: int)
    requires 0 <= k < |s|
    requires forall d :: TasksIn(before, d) == TasksOn(s[..k], d, today)
    requires after == if Scheduled(s[k].rec)
      then before[Slot(s[k].rec, today) := TasksIn(before, Slot(s[k].rec, today)) + [TaskOf(s[k])]]
      else before
    ensures forall d :: TasksIn(after, d) == TasksOn(s[..k + 1], d, today)
  {
    forall d
      ensures TasksIn(after, d) == TasksOn(s[..k + 1], d, today)
    {
      assert s[..k + 1][..k] == s[..k];
      assert TasksIn(before, d) == TasksOn(s[..k], d, today);
    }
  }

  /** Gathers the tasks into a table by day, then builds one bucket per day
      of the window from the table. */
  method GetDailyForecast(s: Store, days: int, today: int) returns (forecast: seq<DayBucket>)
    ensures forecast == DailyForecast(s, days, today)
  {
    var reviewsByDate := ReviewsByDate(s, today);
    forecast := [];
    var i := 0;
    while i < days
      invariant 0 <= i <= (if days > 0 then days else 0)
      invariant forecast == DailyForecast(s, i, today)
    {
      var date := today + i;
      var dayLabel := if i == 0 then "0" else DecimalString(i);
      forecast := forecast + [DayBucket(i, date, dayLabel, TasksIn(reviewsByDate, date))];
      i := i + 1;
    }
  }

  /** The forecast has one bucket per day of the window, in order: bucket
      `i` is day `today + i`, labelled `i` in decimal, holding the tasks
      shown that day. */
  lemma {:induction false} ForecastShape(s: Store, days: int, today: int)
    ensures var f := DailyForecast(s, days, today);
      && |f| == (if days > 0 then days else 0)
      && forall i :: 0 <= i < |f| ==>
           && f[i].dayIndex == i
           && f[i].date == today + i
           && f[i].dayLabel == DecimalString(i)
           && f[i].tasks == TasksOn(s, today + i, today)
    decreases days
  {
    if days > 0 {
      ForecastShape(s, days - 1, today);
    }
  }

  /** In a keyed store, a record's task is shown on day `d` exactly when
      the record is scheduled and `d` is its day. */
  lemma ShownOnItsDay(s: Store, e: Entry, d: int, today: int)
    requires Keyed(s) && e in s
    ensures TaskOf(e) in TasksOn(s, d, today) <==> Scheduled(e.rec) && Slot(e.rec, today) == d
  {
    TasksOnMembers(s, d, today);
    if TaskOf(e) in TasksOn(s, d, today) {
      var x :| x in s && Scheduled(x.rec) && Slot(x.rec, today) == d && TaskOf(x) == TaskOf(e);
      KeyedSame(s, x, e);
    }
  }

  /** Every scheduled record of a keyed store appears in exactly one bucket
      when its day falls in the window (overdue records in bucket 0), and
      in none otherwise; unscheduled records appear in none. */
  lemma ForecastPlacement(s: Store, e: Entry, days: int, today: int)
    requires Keyed(s) && e in s
    ensures var f := DailyForecast(s, days, today);
      forall i :: 0 <= i < |f| ==>
        (TaskOf(e) in f[i].tasks <==> Scheduled(e.rec) && Slot(e.rec, today) == today + i)
    ensures var f := DailyForecast(s, days, today);
      Scheduled(e.rec) && e.rec.nextReview.value <= today && |f| > 0 ==> TaskOf(e) in f[0].tasks
  {
    ForecastShape(s, days, today);
    var f := DailyForecast(s, days, today);
    forall i | 0 <= i < |f|
      ensures TaskOf(e) in f[i].tasks <==> Scheduled(e.rec) && Slot(e.rec, today) == today + i
    {
      ShownOnItsDay(s, e, today + i, today);
    }
  }

  /** Tasks keep store order: the tasks of a store made of two parts are
      the first part's tasks followed by the second's. */
  lemma {:induction false} TasksFollowStoreOrder(s1: Store, s2: Store, d: int, today: int)
    ensures TasksOn(s1 + s2, d, today) == TasksOn(s1, d, today) + TasksOn(s2, d, today)
    decreases |s2|
  {
    if |s2| > 0 {
      assert (s1 + s2)[..|s1 + s2| - 1] == s1 + s2[..|s2| - 1];
      TasksFollowStoreOrder(s1, s2[..|s2| - 1], d, today);
    } else {
      assert s1 + s2 == s1;
    }
  }
}
