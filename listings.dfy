/**
 * The list routes: each reads every `challenge:*` key, recovers the e-mail
 * from the key with `key.split(":")[1]`, looks the record up again by that
 * e-mail and projects it. `keys` is what the store's KEYS command returned,
 * in its order.
 */
module Listings {
  import opened Options
  import opened Js
  import opened Lists
  import opened Challenge
  import opened Lookup

  predicate AllChallengeKeys(keys: seq<string>) {
    forall i :: 0 <= i < |keys| ==> IsChallengeKey(keys[i])
  }

  /**
   * A candidate row. `challengeDescription` is only sent by the admin
   * variant; the open variant leaves it out (`None`).
   */
  datatype CandidateRow = CandidateRow(
    email: string,
    submission: Option<string>,
    submissionTime: Option<int>,
    isStarted: bool,
    startTime: Option<int>,
    endTime: Option<int>,
    challengeDescription: Option<string>)

  /** The record a list row is built from: the one stored under the e-mail recovered from the key. */
  function RecordOfKey(store: map<string, ChallengeStatus>, key: string): Option<ChallengeStatus>
    requires IsChallengeKey(key)
  {
    GetChallengeStatus(store, EmailOfKey(key))
  }

  /**
   * For keys the store itself holds, the row's record is the one under that
   * very key exactly when the e-mail has no colon.
   */
  lemma RecordOfOwnKey(store: map<string, ChallengeStatus>, email: string)
    requires ChallengeKey(email) in store
    ensures IsChallengeKey(ChallengeKey(email))
    ensures ':' !in email ==> RecordOfKey(store, ChallengeKey(email)) == Some(store[ChallengeKey(email)])
    ensures ':' in email ==> EmailOfKey(ChallengeKey(email)) != email
  {
    EmailOfKeyRoundTrip(email);
  }

  /** A row with every `||` default: what a key whose record is missing gives. */
  function DefaultRow(email: string): CandidateRow {
    CandidateRow(email, None, None, false, None, None, None)
  }

  /** The open candidate list's row: the submit handler's legacy fields, falsy values collapsed to null. */
  function CandidateRowOf(store: map<string, ChallengeStatus>, key: string): (row: CandidateRow)
    requires IsChallengeKey(key)
    ensures row.email == EmailOfKey(key)
    ensures RecordOfKey(store, key).None? ==> row == DefaultRow(row.email)
    ensures RecordOfKey(store, key).Some? ==>
      var rec := RecordOfKey(store, key).value;
      && (row.submission.Some? <==> TruthyString(rec.submission))
      && (row.submission.Some? ==> row.submission == rec.submission)
      && (row.submissionTime.Some? <==> TruthyNumber(rec.submissionTime))
      && (row.submissionTime.Some? ==> row.submissionTime == rec.submissionTime)
      && row.isStarted == rec.isStarted
      && row.startTime == NumberOrNull(rec.startTime)
      && row.endTime == NumberOrNull(rec.endTime)
      && row.challengeDescription.None?
  {
    var email := EmailOfKey(key);
    match GetChallengeStatus(store, email)
    case None => DefaultRow(email)
    case Some(status) =>
      CandidateRow(email, StringOrNull(status.submission), NumberOrNull(status.submissionTime),
                   status.isStarted, NumberOrNull(status.startTime), NumberOrNull(status.endTime), None)
  }

  /** The open candidate list: one row per key, in key order, no authentication. */
  function CandidateList(store: map<string, ChallengeStatus>, reachable: bool, keys: seq<string>): (r: Reply<seq<CandidateRow>>)
    requires AllChallengeKeys(keys)
    ensures r.Ok? <==> reachable
    ensures !reachable ==> r == Err(500, "Internal server error")
    ensures r.Ok? ==> |r.body| == |keys| && forall i :: 0 <= i < |keys| ==> r.body[i] == CandidateRowOf(store, keys[i])
  {
    if !reachable then Err(500, "Internal server error")
    else Ok(seq(|keys|, i requires 0 <= i < |keys| => CandidateRowOf(store, keys[i])))
  }

  /**
   * A submission the submit handler stored shows in the open list: in a
   * well-keyed store, the row for a colon-free e-mail carries the stored
   * submission and its time.
   */
  lemma CandidateListShowsSubmission(store: map<string, ChallengeStatus>, email: string)
    requires StoreConsistent(store) && ':' !in email
    requires ChallengeKey(email) in store && store[ChallengeKey(email)].submission.Some?
    requires store[ChallengeKey(email)].submissionTime.value != 0
    ensures IsChallengeKey(ChallengeKey(email))
    ensures var row := CandidateRowOf(store, ChallengeKey(email));
      row.email == email
      && row.submission == store[ChallengeKey(email)].submission
      && row.submissionTime == store[ChallengeKey(email)].submissionTime
  {
    RecordOfOwnKey(store, email);
  }

  /**
   * The admin list's row as written: the submission comes from
   * `latestSubmission`, which no handler ever sets.
   */
  function AdminRowOf(store: map<string, ChallengeStatus>, key: string): (row: CandidateRow)
    requires IsChallengeKey(key)
    ensures row.email == EmailOfKey(key)
    ensures RecordOfKey(store, key).None? ==> row == DefaultRow(row.email)
    ensures RecordOfKey(store, key).Some? ==>
      var rec := RecordOfKey(store, key).value;
      && (row.submission.Some? <==> rec.latestSubmission.Some? && rec.latestSubmission.value.content != "")
      && (row.submissionTime.Some? <==> rec.latestSubmission.Some? && rec.latestSubmission.value.timestamp != 0)
      && row.isStarted == rec.isStarted
      && row.startTime == NumberOrNull(rec.startTime)
      && row.endTime == NumberOrNull(rec.endTime)
      && row.challengeDescription == StringOrNull(rec.challengeDescription)
  {
    var email := EmailOfKey(key);
    match GetChallengeStatus(store, email)
    case None => DefaultRow(email)
    case Some(status) =>
      var latest := status.latestSubmission;
      CandidateRow(
        email,
        if latest.Some? then StringOrNull(Some(latest.value.content)) else None,
        if latest.Some? then NumberOrNull(Some(latest.value.timestamp)) else None,
        status.isStarted, NumberOrNull(status.startTime), NumberOrNull(status.endTime),
        StringOrNull(status.challengeDescription))
  }

  /**
   * As written, the admin list never shows a submission: in a store whose
   * records were all written by the handlers, every admin row has no
   * submission and no submission time, even for a candidate who submitted.
   */
  lemma AdminRowNeverShowsSubmission(store: map<string, ChallengeStatus>, key: string)
    requires StoreConsistent(store) && IsChallengeKey(key)
    ensures AdminRowOf(store, key).submission.None? && AdminRowOf(store, key).submissionTime.None?
  {
  }

  /** The admin row reading the fields the submit handler does write. */
  function FixedAdminRowOf(store: map<string, ChallengeStatus>, key: string): (row: CandidateRow)
    requires IsChallengeKey(key)
    ensures row == CandidateRowOf(store, key).(challengeDescription := row.challengeDescription)
    ensures RecordOfKey(store, key).Some? ==>
      row.challengeDescription == StringOrNull(RecordOfKey(store, key).value.challengeDescription)
  {
    var row := CandidateRowOf(store, key);
    match RecordOfKey(store, key)
    case None => row
    case Some(status) => row.(challengeDescription := StringOrNull(status.challengeDescription))
  }

  /** With the fix, a stored submission reaches the admin list. */
  lemma FixedAdminRowShowsSubmission(store: map<string, ChallengeStatus>, email: string)
    requires StoreConsistent(store) && ':' !in email
    requires ChallengeKey(email) in store && store[ChallengeKey(email)].submission.Some?
    ensures IsChallengeKey(ChallengeKey(email))
    ensures FixedAdminRowOf(store, ChallengeKey(email)).submission == store[ChallengeKey(email)].submission
  {
    RecordOfOwnKey(store, email);
  }

  /**
   * The admin candidate list as written, one `latestSubmission` row per
   * key. The admin hash is read inside the handler's try block, so a store
   * that does not answer gives 500 before the gate.
   */
  function AdminCandidateList(adminHash: Option<string>, cookies: Cookies, matches: (string, string) -> bool,
                              store: map<string, ChallengeStatus>, reachable: bool, keys: seq<string>)
    : (r: Reply<seq<CandidateRow>>)
    requires AllChallengeKeys(keys)
    ensures !reachable ==> r == Err(500, "Error fetching candidates")
    ensures reachable && !AdminAuthorized(adminHash, cookies.adminAuthKey, matches) ==> r == Err(401, "Unauthorized")
    ensures r.Ok? <==> reachable && AdminAuthorized(adminHash, cookies.adminAuthKey, matches)
    ensures r.Ok? ==> |r.body| == |keys| && forall i :: 0 <= i < |keys| ==> r.body[i] == AdminRowOf(store, keys[i])
  {
    if !reachable then Err(500, "Error fetching candidates")
    else if !AdminAuthorized(adminHash, cookies.adminAuthKey, matches) then Err(401, "Unauthorized")
    else Ok(seq(|keys|, i requires 0 <= i < |keys| => AdminRowOf(store, keys[i])))
  }

  /**
   * As written, the whole admin list shows no submission at all when the
   * handlers wrote the store.
   */
  lemma AdminListShowsNoSubmission(adminHash: Option<string>, cookies: Cookies, matches: (string, string) -> bool,
                                   store: map<string, ChallengeStatus>, keys: seq<string>)
    requires AllChallengeKeys(keys) && StoreConsistent(store)
    ensures var r := AdminCandidateList(adminHash, cookies, matches, store, true, keys);
      r.Ok? ==> forall i :: 0 <= i < |r.body| ==> r.body[i].submission.None? && r.body[i].submissionTime.None?
  {
    var r := AdminCandidateList(adminHash, cookies, matches, store, true, keys);
    if r.Ok? {
      forall i | 0 <= i < |r.body| ensures r.body[i].submission.None? && r.body[i].submissionTime.None? {
        AdminRowNeverShowsSubmission(store, keys[i]);
      }
    }
  }

  /** The corrected admin list: the same gate and errors, with the corrected rows. */
  function FixedAdminCandidateList(adminHash: Option<string>, cookies: Cookies, matches: (string, string) -> bool,
                                   store: map<string, ChallengeStatus>, reachable: bool, keys: seq<string>)
    : (r: Reply<seq<CandidateRow>>)
    requires AllChallengeKeys(keys)
    ensures var asWritten := AdminCandidateList(adminHash, cookies, matches, store, reachable, keys);
      && (r.Ok? <==> asWritten.Ok?)
      && (r.Err? ==> r == asWritten)
    ensures r.Ok? ==> |r.body| == |keys| && forall i :: 0 <= i < |keys| ==> r.body[i] == FixedAdminRowOf(store, keys[i])
  {
    match AdminCandidateList(adminHash, cookies, matches, store, reachable, keys)
    case Err(status, message) => Err(status, message)
    case Ok(_) => Ok(seq(|keys|, i requires 0 <= i < |keys| => FixedAdminRowOf(store, keys[i])))
  }

  /**
   * The corrected list differs from the list as written only in the
   * submission fields of each row.
   */
  lemma FixedAdminListDiffersOnlyInSubmission(adminHash: Option<string>, cookies: Cookies, matches: (string, string) -> bool,
                                              store: map<string, ChallengeStatus>, reachable: bool, keys: seq<string>)
    requires AllChallengeKeys(keys)
    ensures var fixed := FixedAdminCandidateList(adminHash, cookies, matches, store, reachable, keys);
      var asWritten := AdminCandidateList(adminHash, cookies, matches, store, reachable, keys);
      fixed.Ok? ==> forall i :: 0 <= i < |keys| ==>
        fixed.body[i] == asWritten.body[i].(submission := fixed.body[i].submission, submissionTime := fixed.body[i].submissionTime)
  {
  }

  /** A row of the responses list. */
  datatype ResponseRow = ResponseRow(email: string, submission: string, submissionTime: Option<int>)

  /** A key's response: only a record that exists and holds a non-empty legacy submission gives one. */
  function ResponseOf(store: map<string, ChallengeStatus>, key: string): (r: Option<ResponseRow>)
    requires IsChallengeKey(key)
    ensures r.Some? <==> RecordOfKey(store, key).Some? && TruthyString(RecordOfKey(store, key).value.submission)
    ensures r.Some? ==>
      var rec := RecordOfKey(store, key).value;
      r.value == ResponseRow(EmailOfKey(key), rec.submission.value, rec.submissionTime)
  {
    match RecordOfKey(store, key)
    case Some(status) =>
      if TruthyString(status.submission) then Some(ResponseRow(EmailOfKey(key), status.submission.value, status.submissionTime))
      else None
    case None => None
  }

  function ResponsesOf(store: map<string, ChallengeStatus>, keys: seq<string>): seq<Option<ResponseRow>>
    requires AllChallengeKeys(keys)
  {
    seq(|keys|, i requires 0 <= i < |keys| => ResponseOf(store, keys[i]))
  }

  /** The responses list: the keys' responses, missing and empty ones dropped, in key order. */
  function ResponseList(store: map<string, ChallengeStatus>, reachable: bool, keys: seq<string>): (r: Reply<seq<ResponseRow>>)
    requires AllChallengeKeys(keys)
    ensures r.Ok? <==> reachable
    ensures !reachable ==> r == Err(500, "Internal server error")
    ensures r.Ok? ==> |r.body| <= |keys|
    ensures r.Ok? ==> forall row :: row in r.body <==> exists i :: 0 <= i < |keys| && ResponseOf(store, keys[i]) == Some(row)
  {
    if !reachable then Err(500, "Internal server error")
    else
      var all := ResponsesOf(store, keys);
      assert forall i :: 0 <= i < |keys| ==> all[i] == ResponseOf(store, keys[i]);
      Ok(Somes(all))
  }

  /** Splitting the keys splits the responses: rows keep the order of their keys. */
  lemma ResponsesKeepKeyOrder(store: map<string, ChallengeStatus>, a: seq<string>, b: seq<string>)
    requires AllChallengeKeys(a) && AllChallengeKeys(b)
    ensures AllChallengeKeys(a + b)
    ensures ResponseList(store, true, a + b).body == ResponseList(store, true, a).body + ResponseList(store, true, b).body
  {
    assert ResponsesOf(store, a + b) == ResponsesOf(store, a) + ResponsesOf(store, b);
    SomesAppend(ResponsesOf(store, a), ResponsesOf(store, b));
  }

  /** One entry of the challenge list. */
  datatype ChallengeSummary = ChallengeSummary(
    id: string, name: string, description: string, duration: int, createdAt: int, candidateCount: nat)

  /** A key's summary, or `None` for a key whose record is missing; `now` is the clock. */
  function SummaryOf(store: map<string, ChallengeStatus>, key: string, now: int): (r: Option<ChallengeSummary>)
    requires IsChallengeKey(key)
    ensures r.Some? <==> RecordOfKey(store, key).Some?
    ensures r.Some? ==>
      var rec, s := RecordOfKey(store, key).value, r.value;
      && s.id == EmailOfKey(key) && s.name == s.id
      && s.description == rec.challengeDescription.GetOr("")
      && s.duration == (if TruthyNumber(rec.duration) then rec.duration.value else 0)
      && s.createdAt == (if TruthyNumber(rec.startTime) then rec.startTime.value else now)
      && s.candidateCount == 1
  {
    match RecordOfKey(store, key)
    case None => None
    case Some(status) =>
      var email := EmailOfKey(key);
      Some(ChallengeSummary(
        email, email,
        StringOrNull(status.challengeDescription).GetOr(""),
        NumberOrNull(status.duration).GetOr(0),
        NumberOrNull(status.startTime).GetOr(now),
        1))
  }

  function SummariesOf(store: map<string, ChallengeStatus>, keys: seq<string>, now: int): seq<Option<ChallengeSummary>>
    requires AllChallengeKeys(keys)
  {
    seq(|keys|, i requires 0 <= i < |keys| => SummaryOf(store, keys[i], now))
  }

  /** The challenge list: one summary per key whose record exists, in key order. */
  function ChallengeList(store: map<string, ChallengeStatus>, reachable: bool, keys: seq<string>, now: int)
    : (r: Reply<seq<ChallengeSummary>>)
    requires AllChallengeKeys(keys)
    ensures r.Ok? <==> reachable
    ensures !reachable ==> r == Err(500, "Failed to fetch challenges")
    ensures r.Ok? ==> |r.body| <= |keys|
    ensures r.Ok? ==> forall s :: s in r.body <==> exists i :: 0 <= i < |keys| && SummaryOf(store, keys[i], now) == Some(s)
    ensures r.Ok? ==> (r.body == [] <==> forall i :: 0 <= i < |keys| ==> RecordOfKey(store, keys[i]).None?)
  {
    if !reachable then Err(500, "Failed to fetch challenges")
    else
      var all := SummariesOf(store, keys, now);
      assert forall i :: 0 <= i < |keys| ==> all[i] == SummaryOf(store, keys[i], now);
      Ok(Somes(all))
  }

  /** Splitting the keys splits the challenge list: summaries keep the order of their keys. */
  lemma SummariesKeepKeyOrder(store: map<string, ChallengeStatus>, a: seq<string>, b: seq<string>, now: int)
    requires AllChallengeKeys(a) && AllChallengeKeys(b)
    ensures AllChallengeKeys(a + b)
    ensures ChallengeList(store, true, a + b, now).body
         == ChallengeList(store, true, a, now).body + ChallengeList(store, true, b, now).body
  {
    assert SummariesOf(store, a + b, now) == SummariesOf(store, a, now) + SummariesOf(store, b, now);
    SomesAppend(SummariesOf(store, a, now), SummariesOf(store, b, now));
  }
}
