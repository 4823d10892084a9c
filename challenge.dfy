/**
 * The per-candidate challenge record, the key it is stored under, and the
 * request/reply shapes the route handlers share.
 */
module Challenge {
  import opened Options
  import opened Text
  import opened Js

  /** One element of the typed submission list. */
  datatype Submission = Submission(content: string, timestamp: int)

  /**
   * The JSON object stored per candidate. The first nine fields are the
   * declared record type; `submission` and `submissionTime` are the two
   * fields the submit handler adds to the object without declaring them
   * (`None` means the property is absent). `None` in `startTime`,
   * `endTime`, `duration`, `challengeDescription` and `latestSubmission`
   * is JSON `null`. Times are milliseconds since the epoch, `duration` is in
   * seconds.
   */
  datatype ChallengeStatus = ChallengeStatus(
    isStarted: bool,
    startTime: Option<int>,
    endTime: Option<int>,
    duration: Option<int>,
    challengeDescription: Option<string>,
    submissions: seq<Submission>,
    latestSubmission: Option<Submission>,
    emailAddress: string,
    hashedAuthToken: string,
    submission: Option<string>,
    submissionTime: Option<int>)

  /** The three cookies the handlers read; `None` is a cookie that is not set. */
  datatype Cookies = Cookies(authKey: Option<string>, email: Option<string>, adminAuthKey: Option<string>)

  /** A JSON reply: a 200 with a body, or an error status with its message. */
  datatype Reply<T> = Ok(body: T) | Err(status: nat, message: string)

  /** What a handler answers and the record it writes back, if any. */
  datatype Outcome<T> = Outcome(reply: Reply<T>, written: Option<ChallengeStatus>)

  const KeyPrefix: string := "challenge:"

  /** The store key of a candidate's record. */
  function ChallengeKey(email: string): string {
    KeyPrefix + email
  }

  predicate IsChallengeKey(key: string) {
    |key| >= |KeyPrefix| && key[..|KeyPrefix|] == KeyPrefix
  }

  /** Different e-mail addresses are stored under different keys. */
  lemma ChallengeKeyInjective(a: string, b: string)
    requires ChallengeKey(a) == ChallengeKey(b)
    ensures a == b
  {
    assert a == ChallengeKey(a)[|KeyPrefix|..];
  }

  /** The store after a handler's outcome: the written record, if any, under its own e-mail's key. */
  function Apply(store: map<string, ChallengeStatus>, written: Option<ChallengeStatus>): map<string, ChallengeStatus> {
    if written.Some? then store[ChallengeKey(written.value.emailAddress) := written.value] else store
  }

  /** `key.split(":")[1]`, the list routes' way of recovering the e-mail from a key. */
  function EmailOfKey(key: string): (email: string)
    requires IsChallengeKey(key)
    ensures ':' !in email
  {
    var fields := Split(key, ':');
    assert |fields| >= 2 by {
      assert key == "challenge" + [':'] + key[|KeyPrefix|..];
      SplitAtFirst("challenge", ':', key[|KeyPrefix|..]);
    }
    fields[1]
  }

  /** The split recovers the e-mail from its key exactly when the e-mail has no colon. */
  lemma EmailOfKeyRoundTrip(email: string)
    ensures IsChallengeKey(ChallengeKey(email))
    ensures EmailOfKey(ChallengeKey(email)) == email <==> ':' !in email
  {
    assert ChallengeKey(email) == "challenge" + [':'] + email;
    SplitAtFirst("challenge", ':', email);
    if ':' !in email {
      SplitWithoutSeparator(email, ':');
    }
  }

  /**
   * The shape of every record the handlers write: the clock fields are set
   * together and exactly when the challenge is started, a started
   * challenge's window is its duration, a stored submission is non-empty,
   * carries a time and exists only once started, and the typed submission
   * list and latest submission still hold what create put there.
   */
  predicate Consistent(r: ChallengeStatus) {
    && (r.isStarted <==> r.startTime.Some?)
    && (r.isStarted <==> r.endTime.Some?)
    && (r.isStarted ==> TruthyNumber(r.duration) && r.endTime.value == r.startTime.value + r.duration.value * 1000)
    && (r.submission.Some? <==> r.submissionTime.Some?)
    && (r.submission.Some? ==> r.submission.value != "" && r.isStarted)
    && r.submissions == []
    && r.latestSubmission == None
  }

  /** Every record sits under its own e-mail's key. */
  predicate WellKeyed(store: map<string, ChallengeStatus>) {
    forall key :: key in store ==> key == ChallengeKey(store[key].emailAddress)
  }

  predicate StoreConsistent(store: map<string, ChallengeStatus>) {
    WellKeyed(store) && forall key :: key in store ==> Consistent(store[key])
  }

  /** Writing a consistent record keeps a consistent store consistent. */
  lemma ApplyKeepsConsistent(store: map<string, ChallengeStatus>, written: Option<ChallengeStatus>)
    requires StoreConsistent(store)
    requires written.Some? ==> Consistent(written.value)
    ensures StoreConsistent(Apply(store, written))
  {
  }
}
