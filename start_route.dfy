/**
 * Starting a challenge: the duration guard, and the clock the start sets.
 * Start does not look at `isStarted`, so starting again restarts the clock.
 */
module StartRoute {
  import opened Options
  import opened Js
  import opened Challenge
  import opened Lookup

  /** The body of a successful start reply. */
  datatype StartBody = StartBody(message: string, startTime: int, endTime: int)

  /** The start decision for the record the cookie lookup gave, at clock `now` (milliseconds). */
  function Start(found: CookieLookup, now: int): (o: Outcome<StartBody>)
    ensures o.reply.Ok? <==> o.written.Some?
    ensures found.NotFound? ==> o == Outcome(Err(404, "Challenge not found"), None)
    ensures found.StoreDown? ==> o == Outcome(Err(500, "Internal server error"), None)
    ensures found.Found? && !TruthyNumber(found.record.duration) ==>
      o == Outcome(Err(400, "Challenge duration not set"), None)
    ensures o.reply.Ok? <==> found.Found? && TruthyNumber(found.record.duration)
    ensures o.written.Some? ==>
      var rec, next := found.record, o.written.value;
      && next.isStarted
      && next.startTime == Some(now)
      && next.endTime == Some(now + rec.duration.value * 1000)
      && next == rec.(isStarted := true, startTime := next.startTime, endTime := next.endTime)
    ensures o.reply.Ok? ==>
      o.reply.body.message == "Challenge started"
      && Some(o.reply.body.startTime) == o.written.value.startTime
      && Some(o.reply.body.endTime) == o.written.value.endTime
    ensures found.Found? && Consistent(found.record) && o.written.Some? ==> Consistent(o.written.value)
  {
    match found
    case NotFound => Outcome(Err(404, "Challenge not found"), None)
    case StoreDown => Outcome(Err(500, "Internal server error"), None)
    case Found(rec) =>
      if !TruthyNumber(rec.duration) then Outcome(Err(400, "Challenge duration not set"), None)
      else
        var startTime := now;
        var endTime := startTime + rec.duration.value * 1000;
        var next := rec.(isStarted := true, startTime := Some(startTime), endTime := Some(endTime));
        Outcome(Ok(StartBody("Challenge started", startTime, endTime)), Some(next))
  }

  /** The window a start opens is exactly the duration, so a positive duration gives a non-empty window. */
  lemma StartWindow(rec: ChallengeStatus, now: int)
    requires TruthyNumber(rec.duration)
    ensures var next := Start(Found(rec), now).written.value;
      next.endTime.value - next.startTime.value == rec.duration.value * 1000
      && (rec.duration.value > 0 ==> next.endTime.value > next.startTime.value)
  {
  }

  /**
   * A second start forgets the first one: restarting at `later` answers and
   * writes the same as if the record had only ever been started at
   * `later`, and the stored submission survives the restart.
   */
  lemma RestartForgetsFirstStart(rec: ChallengeStatus, first: int, later: int)
    requires TruthyNumber(rec.duration)
    ensures var again := Start(Found(Start(Found(rec), first).written.value), later);
      again == Start(Found(rec), later)
      && again.written.value.submission == rec.submission
      && again.written.value.submissionTime == rec.submissionTime
  {
  }
}
