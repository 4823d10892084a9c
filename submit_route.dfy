/**
 * Submitting an answer: the four rejections, the single stored submission
 * it overwrites, and the overtime rule that makes a late submission final.
 */
module SubmitRoute {
  import opened Options
  import opened Js
  import opened Challenge
  import opened Lookup

  /** The body of a successful submit reply. */
  datatype SubmitBody = SubmitBody(message: string, submissionTime: int, isOvertime: bool, submission: string)

  /**
   * A submission at `now` is overtime when `now` is strictly after the end
   * time; a missing end time compares as 0.
   */
  predicate IsOvertime(rec: ChallengeStatus, now: int) {
    now > NullAsZero(rec.endTime)
  }

  /** The server turns a submit away for being overtime: it is, and a submission is already stored. */
  predicate RejectsOvertime(rec: ChallengeStatus, now: int) {
    IsOvertime(rec, now) && TruthyString(rec.submission)
  }

  /**
   * The submit decision for the record the cookie lookup gave, the
   * `submission` field of the request body and the clock `now`.
   */
  function Submit(found: CookieLookup, content: Option<string>, now: int): (o: Outcome<SubmitBody>)
    ensures o.reply.Ok? <==> o.written.Some?
    ensures found.NotFound? ==> o == Outcome(Err(404, "Challenge not found"), None)
    ensures found.StoreDown? ==> o == Outcome(Err(500, "Internal server error"), None)
    ensures found.Found? && !found.record.isStarted ==>
      o == Outcome(Err(400, "Challenge has not been started"), None)
    ensures found.Found? && found.record.isStarted && !TruthyString(content) ==>
      o == Outcome(Err(400, "No submission provided"), None)
    ensures found.Found? && found.record.isStarted && TruthyString(content) && RejectsOvertime(found.record, now) ==>
      o == Outcome(Err(400, "Overtime submission not allowed"), None)
    ensures o.reply.Ok? <==>
      found.Found? && found.record.isStarted && TruthyString(content) && !RejectsOvertime(found.record, now)
    ensures o.written.Some? ==>
      o.written.value == found.record.(submission := content, submissionTime := Some(now))
    ensures o.reply.Ok? ==>
      var late := IsOvertime(found.record, now);
      o.reply.body == SubmitBody(
        if late then "Overtime submission accepted" else "Challenge submitted successfully",
        now, late, content.value)
    ensures found.Found? && Consistent(found.record) && o.written.Some? ==> Consistent(o.written.value)
  {
    match found
    case NotFound => Outcome(Err(404, "Challenge not found"), None)
    case StoreDown => Outcome(Err(500, "Internal server error"), None)
    case Found(rec) =>
      if !rec.isStarted then Outcome(Err(400, "Challenge has not been started"), None)
      else if !TruthyString(content) then Outcome(Err(400, "No submission provided"), None)
      else
        var late := IsOvertime(rec, now);
        if late && TruthyString(rec.submission) then Outcome(Err(400, "Overtime submission not allowed"), None)
        else
          var next := rec.(submission := content, submissionTime := Some(now));
          var message := if late then "Overtime submission accepted" else "Challenge submitted successfully";
          Outcome(Ok(SubmitBody(message, now, late, content.value)), Some(next))
  }

  /** One submit attempt: the content sent and the server clock when it arrives. */
  datatype Attempt = Attempt(content: Option<string>, now: int)

  /** The record after a run of submit attempts with no start in between. */
  function Replay(rec: ChallengeStatus, attempts: seq<Attempt>): ChallengeStatus
    decreases |attempts|
  {
    if attempts == [] then rec
    else
      var o := Submit(Found(rec), attempts[0].content, attempts[0].now);
      Replay(if o.written.Some? then o.written.value else rec, attempts[1..])
  }

  /** A stored submission whose time is past the end time. */
  predicate HoldsLateSubmission(rec: ChallengeStatus) {
    TruthyString(rec.submission) && rec.submissionTime.Some? && rec.submissionTime.value > NullAsZero(rec.endTime)
  }

  /**
   * A late submission is final: once one is stored, every later attempt
   * (at a clock no earlier than its time) is turned away and the record
   * does not change.
   */
  lemma {:induction false} LateSubmissionIsFinal(rec: ChallengeStatus, attempts: seq<Attempt>)
    requires HoldsLateSubmission(rec)
    requires forall i :: 0 <= i < |attempts| ==> attempts[i].now >= rec.submissionTime.value
    ensures Replay(rec, attempts) == rec
  {
    if attempts != [] {
      assert Submit(Found(rec), attempts[0].content, attempts[0].now).written.None?;
      LateSubmissionIsFinal(rec, attempts[1..]);
    }
  }

  /** An accepted overtime submit leaves a late submission behind, so it is the last one accepted. */
  lemma AcceptedOvertimeIsLast(rec: ChallengeStatus, content: Option<string>, now: int, later: seq<Attempt>)
    requires Submit(Found(rec), content, now).reply.Ok?
    requires IsOvertime(rec, now)
    requires forall i :: 0 <= i < |later| ==> later[i].now >= now
    ensures var next := Submit(Found(rec), content, now).written.value;
      HoldsLateSubmission(next) && Replay(next, later) == next
  {
    LateSubmissionIsFinal(Submit(Found(rec), content, now).written.value, later);
  }

  /**
   * Up to the end time a started challenge takes every non-empty
   * submission and keeps only the newest: an on-time resubmission replaces
   * the stored one.
   */
  lemma OnTimeOverwrites(rec: ChallengeStatus, content: string, now: int)
    requires rec.isStarted && content != ""
    requires now <= NullAsZero(rec.endTime)
    ensures Submit(Found(rec), Some(content), now).written == Some(rec.(submission := Some(content), submissionTime := Some(now)))
  {
  }

  /** The first overtime submit on a record with no submission is accepted. */
  lemma FirstOvertimeAccepted(rec: ChallengeStatus, content: string, now: int)
    requires rec.isStarted && content != "" && !TruthyString(rec.submission)
    requires now > NullAsZero(rec.endTime)
    ensures Submit(Found(rec), Some(content), now).reply == Ok(SubmitBody("Overtime submission accepted", now, true, content))
  {
  }
}
