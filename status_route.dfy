/** The candidate's read-only status query. */
module StatusRoute {
  import opened Options
  import opened Challenge
  import opened Lookup

  /**
   * The status reply: the authenticated record itself, hash included; 404
   * when the cookie lookup finds nothing; 500 when the store does not
   * answer. It is a function of the store, so polling never changes it.
   */
  function Status(store: map<string, ChallengeStatus>, reachable: bool, cookies: Cookies,
                  matches: (string, string) -> bool): (r: Reply<ChallengeStatus>)
    ensures r.Ok? <==> reachable && Authenticated(store, cookies, matches)
    ensures r.Ok? ==> r.body == store[ChallengeKey(cookies.email.value)]
    ensures r == Err(500, "Internal server error") <==> HasCredentials(cookies) && !reachable
    ensures r.Err? ==> r == Err(500, "Internal server error") || r == Err(404, "Challenge not found")
  {
    match GetChallengeFromCookie(store, reachable, cookies, matches)
    case Found(rec) => Ok(rec)
    case NotFound => Err(404, "Challenge not found")
    case StoreDown => Err(500, "Internal server error")
  }
}
