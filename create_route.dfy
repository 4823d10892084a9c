/**
 * Creating a challenge: the admin gate, the duplicate check, the access
 * token (16 random bytes in lower-case hexadecimal) and the initial record.
 * The random bytes, bcrypt's hash and bcrypt's compare are parameters.
 */
module CreateRoute {
  import opened Options
  import opened Decimal
  import opened Js
  import opened Challenge
  import opened Lookup

  newtype byte = b: int | 0 <= b < 256

  /** The JSON body of a create request; `None` is a field the client left out. */
  datatype CreateRequest = CreateRequest(email: string, duration: Option<int>, challengeDescription: Option<string>)

  predicate IsLowerHex(c: char) {
    IsDigit(c) || 'a' <= c <= 'f'
  }

  function HexChar(d: nat): (c: char)
    requires d < 16
    ensures IsLowerHex(c) && HexDigitValue(c) == d
  {
    if d < 10 then DigitChar(d) else ('a' as int + d - 10) as char
  }

  /** `Buffer.toString("hex")`: two lower-case hexadecimal digits per byte, high half first. */
  function HexEncode(bytes: seq<byte>): (s: string)
    ensures |s| == 2 * |bytes|
    ensures forall j :: 0 <= j < |s| ==> IsLowerHex(s[j])
  {
    if bytes == [] then []
    else [HexChar(bytes[0] as int / 16), HexChar(bytes[0] as int % 16)] + HexEncode(bytes[1..])
  }

  /** Reads hexadecimal text back into bytes; odd length or a non-digit gives `None`. */
  function HexDecode(s: string): Option<seq<byte>>
    decreases |s|
  {
    if s == [] then Some([])
    else if |s| < 2 || !IsHexDigit(s[0]) || !IsHexDigit(s[1]) then None
    else match HexDecode(s[2..])
      case None => None
      case Some(rest) => Some([(HexDigitValue(s[0]) * 16 + HexDigitValue(s[1])) as byte] + rest)
  }

  /** The token text determines the bytes it was made from. */
  lemma {:induction false} HexRoundTrip(bytes: seq<byte>)
    ensures HexDecode(HexEncode(bytes)) == Some(bytes)
  {
    if bytes != [] {
      var s := HexEncode(bytes);
      assert s[2..] == HexEncode(bytes[1..]);
      HexRoundTrip(bytes[1..]);
      assert [bytes[0]] + bytes[1..] == bytes;
    }
  }

  /** The record create stores: not started, no clock, empty submission fields, request fields verbatim. */
  function NewChallenge(req: CreateRequest, hashedToken: string): (r: ChallengeStatus)
    ensures !r.isStarted && r.startTime.None? && r.endTime.None?
    ensures r.submissions == [] && r.latestSubmission.None?
    ensures r.submission.None? && r.submissionTime.None?
    ensures r.emailAddress == req.email && r.duration == req.duration
    ensures r.challengeDescription == req.challengeDescription && r.hashedAuthToken == hashedToken
    ensures Consistent(r)
  {
    ChallengeStatus(
      isStarted := false, startTime := None, endTime := None,
      duration := req.duration, challengeDescription := req.challengeDescription,
      submissions := [], latestSubmission := None,
      emailAddress := req.email, hashedAuthToken := hashedToken,
      submission := None, submissionTime := None)
  }

  /**
   * The create decision: `adminHash` is the stored admin hash, `taken`
   * whether a record is stored under the request's e-mail, `randomBytes`
   * the 16 bytes drawn for the token, `hash` bcrypt's hash and `matches`
   * bcrypt's compare, which accepts every text against its own hash.
   */
  function Create(adminHash: Option<string>, cookies: Cookies, taken: bool, req: CreateRequest,
                  randomBytes: seq<byte>, hash: string -> string, matches: (string, string) -> bool): (o: Outcome<string>)
    requires |randomBytes| == 16
    requires forall t :: matches(t, hash(t))
    ensures o.reply.Ok? <==> o.written.Some?
    ensures !AdminAuthorized(adminHash, cookies.adminAuthKey, matches) ==> o == Outcome(Err(401, "Unauthorized"), None)
    ensures AdminAuthorized(adminHash, cookies.adminAuthKey, matches) && taken ==>
      o == Outcome(Err(400, "Challenge already exists for this email"), None)
    ensures o.reply.Ok? <==> AdminAuthorized(adminHash, cookies.adminAuthKey, matches) && !taken
    ensures o.reply.Ok? ==>
      && |o.reply.body| == 32
      && HexDecode(o.reply.body) == Some(randomBytes)
      && o.written == Some(NewChallenge(req, hash(o.reply.body)))
      && matches(o.reply.body, o.written.value.hashedAuthToken)
  {
    if !AdminAuthorized(adminHash, cookies.adminAuthKey, matches) then Outcome(Err(401, "Unauthorized"), None)
    else if taken then Outcome(Err(400, "Challenge already exists for this email"), None)
    else
      HexRoundTrip(randomBytes);
      Outcome(Ok(HexEncode(randomBytes)), Some(NewChallenge(req, hash(HexEncode(randomBytes)))))
  }

  /**
   * The token a successful create returns logs the candidate in: with the
   * token and the e-mail as cookies, the cookie lookup finds the new record,
   * provided the e-mail is not empty. An empty e-mail gets a record nobody
   * can reach.
   */
  lemma CreatedChallengeIsReachable(store: map<string, ChallengeStatus>, adminHash: Option<string>, cookies: Cookies,
                                    req: CreateRequest, randomBytes: seq<byte>, hash: string -> string,
                                    matches: (string, string) -> bool, adminCookie: Option<string>)
    requires |randomBytes| == 16
    requires forall t :: matches(t, hash(t))
    requires Create(adminHash, cookies, ChallengeKey(req.email) in store, req, randomBytes, hash, matches).reply.Ok?
    ensures var o := Create(adminHash, cookies, ChallengeKey(req.email) in store, req, randomBytes, hash, matches);
      var login := Cookies(Some(o.reply.body), Some(req.email), adminCookie);
      GetChallengeFromCookie(Apply(store, o.written), true, login, matches)
        == if req.email == "" then NotFound else Found(o.written.value)
  {
  }

  /** Create writes only its own key: every other record is left as it was. */
  lemma CreateTouchesOneKey(store: map<string, ChallengeStatus>, adminHash: Option<string>, cookies: Cookies,
                            req: CreateRequest, randomBytes: seq<byte>, hash: string -> string,
                            matches: (string, string) -> bool, key: string)
    requires |randomBytes| == 16
    requires forall t :: matches(t, hash(t))
    requires key != ChallengeKey(req.email) && key in store
    ensures var o := Create(adminHash, cookies, ChallengeKey(req.email) in store, req, randomBytes, hash, matches);
      var after := Apply(store, o.written);
      key in after && after[key] == store[key] && after.Keys <= store.Keys + {ChallengeKey(req.email)}
  {
  }
}
