/** The review status of one problem in one list's progress: unsolved,
    due (today, overdue, or never scheduled), or scheduled for the future. */
module Status {
  import opened Options
  import opened Progress
  import opened Forecast
  import opened Scheduler

  datatype ReviewStatus = Unsolved | Due | Future

  /** The status of `problemId` in a list's progress table. */
  function GetReviewStatus(problemId: string, progress: map<string, Record>, today: int): (st: ReviewStatus)
    ensures st == Unsolved <==> problemId !in progress || !progress[problemId].solved
    ensures st == Future <==>
      problemId in progress && progress[problemId].solved
      && progress[problemId].nextReview.Some? && progress[problemId].nextReview.value > today
  {
    if problemId !in progress || !progress[problemId].solved then Unsolved
    else
      var prob := progress[problemId];
      if prob.nextReview.None? || prob.nextReview.value <= today then Due
      else Future
  }

  /** The status agrees with the forecast: a solved, scheduled problem is
      due exactly when the forecast shows it today, and in the future
      exactly when it shows it on a later day. */
  lemma StatusMatchesForecast(problemId: string, progress: map<string, Record>, today: int)
    requires problemId in progress && Scheduled(progress[problemId])
    ensures GetReviewStatus(problemId, progress, today) == Due <==> Slot(progress[problemId], today) == today
    ensures GetReviewStatus(problemId, progress, today) == Future <==> Slot(progress[problemId], today) > today
  {
  }

  /** A solved problem that was never given a review day counts as due, and
      is not shown anywhere in the forecast. */
  lemma UnscheduledIsDue(problemId: string, progress: map<string, Record>, today: int)
    requires problemId in progress && progress[problemId].solved && progress[problemId].nextReview.None?
    ensures GetReviewStatus(problemId, progress, today) == Due
    ensures !Scheduled(progress[problemId])
  {
  }

  /** A problem just rated is reviewed in the future, never due the same day. */
  lemma RatedIsFuture(problemId: string, progress: map<string, Record>, cur: Record, problem: Problem, rating: int, today: int)
    requires 1 <= rating <= 5
    requires problemId in progress && RatedAsPromised(progress[problemId], cur, problem, rating, today)
    ensures GetReviewStatus(problemId, progress, today) == Future
  {
  }
}
