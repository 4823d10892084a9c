/**
 * The Redis store and the handlers that change it. Each handler is one
 * fetch, decide, write step, taken as atomic; `reachable` says whether the
 * store answers during the request, `now` is the server clock in
 * milliseconds, `matches(token, hash)` is bcrypt's compare and `hash` its hash.
 */
module Store {
  import opened Options
  import opened Js
  import opened Challenge
  import opened Lookup
  import opened Templates
  import StartRoute
  import SubmitRoute
  import CreateRoute

  class Redis {
    /** The `challenge:<email>` keys and the records stored under them. */
    var challenges: map<string, ChallengeStatus>
    /** The `admin` key: the bcrypt hash of the admin token. */
    var admin: Option<string>
    /** The `templates` key. */
    var templates: Option<seq<Template>>

    /** Every record is under its own e-mail's key and has the shape the handlers write. */
    ghost predicate Valid()
      reads this
    {
      StoreConsistent(challenges)
    }

    constructor (adminHash: Option<string>)
      ensures challenges == map[] && admin == adminHash && templates == None
      ensures Valid()
    {
      challenges := map[];
      admin := adminHash;
      templates := None;
    }

    /** POST to the create route. */
    method Create(cookies: Cookies, req: CreateRoute.CreateRequest, randomBytes: seq<CreateRoute.byte>,
                  hash: string -> string, matches: (string, string) -> bool) returns (reply: Reply<string>)
      requires |randomBytes| == 16
      requires forall t :: matches(t, hash(t))
      modifies this
      ensures var o := CreateRoute.Create(old(admin), cookies, ChallengeKey(req.email) in old(challenges),
                                          req, randomBytes, hash, matches);
        reply == o.reply && challenges == Apply(old(challenges), o.written)
      ensures reply.Ok? ==> matches(reply.body, challenges[ChallengeKey(req.email)].hashedAuthToken)
      ensures admin == old(admin) && templates == old(templates)
      ensures old(Valid()) ==> Valid()
    {
      if !AdminAuthorized(admin, cookies.adminAuthKey, matches) {
        return Err(401, "Unauthorized");
      }
      var key := ChallengeKey(req.email);
      if key in challenges {
        return Err(400, "Challenge already exists for this email");
      }
      var token := CreateRoute.HexEncode(randomBytes);
      var record := CreateRoute.NewChallenge(req, hash(token));
      if Valid() {
        ApplyKeepsConsistent(challenges, Some(record));
      }
      challenges := challenges[key := record];
      reply := Ok(token);
    }

    /** POST to the start route. */
    method Start(reachable: bool, cookies: Cookies, matches: (string, string) -> bool, now: int)
      returns (reply: Reply<StartRoute.StartBody>)
      modifies this
      ensures var o := StartRoute.Start(GetChallengeFromCookie(old(challenges), reachable, cookies, matches), now);
        reply == o.reply && challenges == Apply(old(challenges), o.written)
      ensures admin == old(admin) && templates == old(templates)
      ensures old(Valid()) ==> Valid()
      ensures old(Valid()) && reply.Ok? ==> challenges.Keys == old(challenges).Keys
    {
      var found := GetChallengeFromCookie(challenges, reachable, cookies, matches);
      if found.StoreDown? {
        return Err(500, "Internal server error");
      }
      if found.NotFound? {
        return Err(404, "Challenge not found");
      }
      var status := found.record;
      if !TruthyNumber(status.duration) {
        return Err(400, "Challenge duration not set");
      }
      var startTime := now;
      var endTime := startTime + status.duration.value * 1000;
      status := status.(isStarted := true);
      status := status.(startTime := Some(startTime));
      status := status.(endTime := Some(endTime));
      if Valid() {
        WriteBackKey(challenges, reachable, cookies, matches);
        ApplyKeepsConsistent(challenges, Some(status));
      }
      challenges := challenges[ChallengeKey(status.emailAddress) := status];
      reply := Ok(StartRoute.StartBody("Challenge started", startTime, endTime));
    }

    /** POST to the submit route; `content` is the body's `submission` field. */
    method Submit(reachable: bool, cookies: Cookies, matches: (string, string) -> bool,
                  content: Option<string>, now: int) returns (reply: Reply<SubmitRoute.SubmitBody>)
      modifies this
      ensures var o := SubmitRoute.Submit(GetChallengeFromCookie(old(challenges), reachable, cookies, matches), content, now);
        reply == o.reply && challenges == Apply(old(challenges), o.written)
      ensures admin == old(admin) && templates == old(templates)
      ensures old(Valid()) ==> Valid()
      ensures old(Valid()) && reply.Ok? ==> challenges.Keys == old(challenges).Keys
    {
      var found := GetChallengeFromCookie(challenges, reachable, cookies, matches);
      if found.StoreDown? {
        return Err(500, "Internal server error");
      }
      if found.NotFound? {
        return Err(404, "Challenge not found");
      }
      var status := found.record;
      if !status.isStarted {
        return Err(400, "Challenge has not been started");
      }
      if !TruthyString(content) {
        return Err(400, "No submission provided");
      }
      var currentTime := now;
      var isOvertime := currentTime > NullAsZero(status.endTime);
      if isOvertime && TruthyString(status.submission) {
        return Err(400, "Overtime submission not allowed");
      }
      status := status.(submission := content);
      status := status.(submissionTime := Some(currentTime));
      if Valid() {
        WriteBackKey(challenges, reachable, cookies, matches);
        ApplyKeepsConsistent(challenges, Some(status));
      }
      challenges := challenges[ChallengeKey(status.emailAddress) := status];
      var message := if isOvertime then "Overtime submission accepted" else "Challenge submitted successfully";
      reply := Ok(SubmitRoute.SubmitBody(message, currentTime, isOvertime, content.value));
    }

    /** POST to the templates route: append the draft under the server's id. */
    method PostTemplate(reachable: bool, draft: TemplateDraft, now: int) returns (reply: Reply<Template>)
      modifies this
      ensures reachable ==> reply == Ok(WithServerId(draft, now)) && templates == Some(Appended(old(templates), reply.body))
      ensures !reachable ==> reply == Err(500, "Failed to create template") && templates == old(templates)
      ensures challenges == old(challenges) && admin == old(admin)
    {
      if !reachable {
        return Err(500, "Failed to create template");
      }
      var list := StoredOrEmpty(templates);
      var withId := WithServerId(draft, now);
      list := list + [withId];
      templates := Some(list);
      reply := Ok(withId);
    }
  }
}
