/**
 * The two store lookups every candidate handler goes through: by e-mail,
 * and by the candidate's cookies, plus the admin gate shared by the
 * admin-only handlers. bcrypt's compare is the parameter `matches(token, hash)`.
 */
module Lookup {
  import opened Options
  import opened Js
  import opened Challenge

  /** The record stored for `email`; `None` when the key is absent. */
  function GetChallengeStatus(store: map<string, ChallengeStatus>, email: string): (r: Option<ChallengeStatus>)
    ensures r.Some? <==> ChallengeKey(email) in store
  {
    if ChallengeKey(email) in store then Some(store[ChallengeKey(email)]) else None
  }

  /** A record written by a handler is read back unchanged, and no other e-mail's record moves. */
  lemma ReadBackWritten(store: map<string, ChallengeStatus>, rec: ChallengeStatus, other: string)
    ensures GetChallengeStatus(Apply(store, Some(rec)), rec.emailAddress) == Some(rec)
    ensures other != rec.emailAddress ==>
      GetChallengeStatus(Apply(store, Some(rec)), other) == GetChallengeStatus(store, other)
  {
    if other != rec.emailAddress && ChallengeKey(other) == ChallengeKey(rec.emailAddress) {
      ChallengeKeyInjective(other, rec.emailAddress);
    }
  }

  /** The cookie lookup's answer; `StoreDown` is a store that does not answer (the handler's catch). */
  datatype CookieLookup = Found(record: ChallengeStatus) | NotFound | StoreDown

  predicate HasCredentials(cookies: Cookies) {
    TruthyString(cookies.authKey) && TruthyString(cookies.email)
  }

  /** Both cookies are set, a record exists for the e-mail cookie and the token matches its hash. */
  predicate Authenticated(store: map<string, ChallengeStatus>, cookies: Cookies, matches: (string, string) -> bool) {
    && HasCredentials(cookies)
    && ChallengeKey(cookies.email.value) in store
    && matches(cookies.authKey.value, store[ChallengeKey(cookies.email.value)].hashedAuthToken)
  }

  /**
   * The cookie lookup. Missing cookies give `NotFound` before the store is
   * touched, so only a request with both cookies can meet a failing store.
   */
  function GetChallengeFromCookie(store: map<string, ChallengeStatus>, reachable: bool, cookies: Cookies,
                                  matches: (string, string) -> bool): (r: CookieLookup)
    ensures !HasCredentials(cookies) ==> r == NotFound
    ensures r == StoreDown <==> HasCredentials(cookies) && !reachable
    ensures r.Found? <==> reachable && Authenticated(store, cookies, matches)
    ensures r.Found? ==> r.record == store[ChallengeKey(cookies.email.value)]
  {
    if !HasCredentials(cookies) then NotFound
    else if !reachable then StoreDown
    else match GetChallengeStatus(store, cookies.email.value)
      case None => NotFound
      case Some(rec) => if matches(cookies.authKey.value, rec.hashedAuthToken) then Found(rec) else NotFound
  }

  /**
   * In a well-keyed store the record the cookie lookup finds belongs to the
   * cookie's e-mail, so writing it back under its own e-mail's key
   * rewrites the key it was read from.
   */
  lemma WriteBackKey(store: map<string, ChallengeStatus>, reachable: bool, cookies: Cookies,
                     matches: (string, string) -> bool)
    requires WellKeyed(store)
    requires GetChallengeFromCookie(store, reachable, cookies, matches).Found?
    ensures GetChallengeFromCookie(store, reachable, cookies, matches).record.emailAddress == cookies.email.value
  {
    var key := ChallengeKey(cookies.email.value);
    assert key == ChallengeKey(store[key].emailAddress);
    ChallengeKeyInjective(cookies.email.value, store[key].emailAddress);
  }

  /** The admin gate: the stored admin hash and the admin cookie are both set, and the cookie matches. */
  predicate AdminAuthorized(adminHash: Option<string>, adminAuthKey: Option<string>, matches: (string, string) -> bool) {
    TruthyString(adminHash) && TruthyString(adminAuthKey) && matches(adminAuthKey.value, adminHash.value)
  }
}
