/**
 * The admin's create-challenge form: e-mail validation, the duration
 * field's parse (a formula after "=", else `parseInt`), and the form state
 * the handlers update, down to the request the form sends to the create
 * handler.
 */
module CreateChallengeForm {
  import opened Options
  import opened Decimal
  import opened Text
  import opened Js
  import opened Challenge
  import opened Lookup
  import opened Templates
  import opened CreateRoute
  import StartRoute

  // E-mail validation

  /** `[a-zA-Z0-9._%+-]`: a character of the local part. */
  predicate IsLocalChar(c: char) {
    'a' <= c <= 'z' || 'A' <= c <= 'Z' || IsDigit(c) || c in {'.', '_', '%', '+', '-'}
  }

  /** `[a-zA-Z0-9.-]`: a character of the domain. */
  predicate IsDomainChar(c: char) {
    'a' <= c <= 'z' || 'A' <= c <= 'Z' || IsDigit(c) || c in {'.', '-'}
  }

  /** `[a-zA-Z]`: a letter of the top-level domain. */
  predicate IsLetter(c: char) {
    'a' <= c <= 'z' || 'A' <= c <= 'Z'
  }

  predicate AllLocal(t: string) {
    forall i :: 0 <= i < |t| ==> IsLocalChar(t[i])
  }

  predicate AllDomain(t: string) {
    forall i :: 0 <= i < |t| ==> IsDomainChar(t[i])
  }

  predicate AllLetters(t: string) {
    forall i :: 0 <= i < |t| ==> IsLetter(t[i])
  }

  /**
   * `s` matches `^local+@domain+\.letters{2,}$` with the '@' at `at` and the
   * last dot at `dot`.
   */
  ghost predicate MatchesAt(s: string, at: int, dot: int) {
    && 0 < at && at + 1 < dot && dot + 3 <= |s|
    && s[at] == '@' && s[dot] == '.'
    && AllLocal(s[..at]) && AllDomain(s[at + 1..dot]) && AllLetters(s[dot + 1..])
  }

  /** The e-mail regular expression, as a pattern over the whole string. */
  ghost predicate MatchesEmailPattern(s: string) {
    exists at, dot :: MatchesAt(s, at, dot)
  }

  /** The index of the first `c` in `s`, or `|s|` when there is none. */
  function FirstIndex(s: string, c: char): (i: nat)
    ensures i <= |s|
    ensures forall k :: 0 <= k < i ==> s[k] != c
    ensures i < |s| ==> s[i] == c
  {
    if s == [] then 0
    else if s[0] == c then 0
    else 1 + FirstIndex(s[1..], c)
  }

  /** The index of the last `c` in `s`, or -1 when there is none. */
  function LastIndex(s: string, c: char): (i: int)
    ensures -1 <= i < |s|
    ensures forall k :: i < k < |s| ==> s[k] != c
    ensures i >= 0 ==> s[i] == c
  {
    if s == [] then -1
    else if s[|s| - 1] == c then |s| - 1
    else LastIndex(s[..|s| - 1], c)
  }

  /**
   * The matcher on an already lower-cased address: it splits at its first
   * '@' and at its last dot into a local part, a domain and a top-level
   * domain of the regular expression's classes.
   */
  function MatchesEmail(s: string): bool {
    var at := FirstIndex(s, '@');
    var dot := LastIndex(s, '.');
    && 0 < at && at + 1 < dot && dot + 3 <= |s|
    && AllLocal(s[..at]) && AllDomain(s[at + 1..dot]) && AllLetters(s[dot + 1..])
  }

  /** `validateEmail`: the matcher on the lower-cased address. */
  function ValidateEmail(email: string): bool {
    MatchesEmail(Lower(email))
  }

  /** The matcher accepts exactly the strings the regular expression matches. */
  lemma MatcherMatchesPattern(s: string)
    ensures MatchesEmail(s) <==> MatchesEmailPattern(s)
  {
    var at := FirstIndex(s, '@');
    var dot := LastIndex(s, '.');
    if MatchesEmail(s) {
      assert MatchesAt(s, at, dot);
    }
    if MatchesEmailPattern(s) {
      var a, d :| MatchesAt(s, a, d);
      assert at == a && dot == d;
    }
  }

  /** `validateEmail` accepts exactly the addresses whose lower-cased form matches the pattern. */
  lemma ValidateEmailMatchesPattern(email: string)
    ensures ValidateEmail(email) <==> MatchesEmailPattern(Lower(email))
  {
    MatcherMatchesPattern(Lower(email));
  }

  /** The lower-casing makes the check blind to the address's case. */
  lemma ValidateEmailIgnoresCase(email: string)
    ensures ValidateEmail(Lower(email)) == ValidateEmail(email)
  {
    LowerIdempotent(email);
  }

  /** A character some part of the pattern allows. */
  predicate IsEmailChar(c: char) {
    IsLocalChar(c) || IsDomainChar(c) || IsLetter(c) || c == '@'
  }

  lemma EmailCharIsNotSpace(c: char)
    requires IsEmailChar(c)
    ensures !IsJsSpace(c) && c != ':'
  {
  }

  /** Every character of a matched string is one the pattern allows, and only `at` holds '@'. */
  lemma CharsOfMatch(s: string, at: int, dot: int, k: int)
    requires MatchesAt(s, at, dot) && 0 <= k < |s|
    ensures IsEmailChar(s[k])
    ensures k != at ==> s[k] != '@'
  {
    if k < at {
      assert s[..at][k] == s[k];
    } else if at < k < dot {
      assert s[at + 1..dot][k - at - 1] == s[k];
    } else if dot < k {
      assert s[dot + 1..][k - dot - 1] == s[k];
    }
  }

  /** A matched string has its one '@' at the split point, and no white space or colon. */
  lemma MatchedShape(s: string)
    requires MatchesEmail(s)
    ensures FirstIndex(s, '@') < |s|
    ensures forall k :: 0 <= k < |s| && s[k] == '@' ==> k == FirstIndex(s, '@')
    ensures forall k :: 0 <= k < |s| ==> !IsJsSpace(s[k]) && s[k] != ':'
  {
    var at := FirstIndex(s, '@');
    var dot := LastIndex(s, '.');
    assert MatchesAt(s, at, dot);
    forall k | 0 <= k < |s| ensures (s[k] == '@' ==> k == at) && !IsJsSpace(s[k]) && s[k] != ':' {
      CharsOfMatch(s, at, dot, k);
      EmailCharIsNotSpace(s[k]);
    }
  }

  /**
   * An accepted address holds exactly one '@', no white space and no colon,
   * so the key built from it gives the address back.
   */
  lemma AcceptedEmailShape(email: string)
    requires ValidateEmail(email)
    ensures '@' in email
    ensures forall i, j :: 0 <= i < |email| && 0 <= j < |email| && email[i] == '@' && email[j] == '@' ==> i == j
    ensures forall k :: 0 <= k < |email| ==> !IsJsSpace(email[k]) && email[k] != ':'
    ensures EmailOfKey(ChallengeKey(email)) == email
  {
    var s := Lower(email);
    MatchedShape(s);
    var at := FirstIndex(s, '@');
    forall k | 0 <= k < |email| ensures (email[k] == '@' ==> k == at) && !IsJsSpace(email[k]) && email[k] != ':' {
      assert s[k] == LowerChar(email[k]);
    }
    assert email[at] == '@' by {
      assert s[at] == LowerChar(email[at]);
    }
    assert ':' !in email;
    EmailOfKeyRoundTrip(email);
  }

  /** `!email || validateEmail(email)`: an empty field shows no error. */
  predicate EmailIsValid(email: string) {
    email == "" || ValidateEmail(email)
  }

  // The duration field

  /** What `eval` of a formula gives: it throws, or a non-number, NaN or a finite number. */
  datatype FormulaValue = Threw | NotANumber | NaN | Finite(value: real)

  /** `[durationParsed, durationError]`. */
  datatype DurationParse = DurationParse(parsed: Option<int>, error: Option<string>)

  /**
   * The `useMemo` over the duration field. `evaluate` stands for `eval`:
   * a formula is accepted only as a positive whole number; other input goes
   * through `parseInt`, and only an unreadable or negative number is an error.
   */
  function ParseDuration(duration: string, evaluate: string -> FormulaValue): (r: DurationParse)
    ensures r.parsed.Some? <==> r.error.None?
    ensures |duration| >= 1 && duration[0] == '=' ==>
      || (r.parsed.Some? && r.parsed.value > 0 && evaluate(duration[1..]) == Finite(r.parsed.value as real))
      || r.error == Some("Error: Invalid formula")
    ensures !(|duration| >= 1 && duration[0] == '=') ==>
      && (ParseInt(duration).None? ==> r == DurationParse(None, Some("Duration must be a number")))
      && (ParseInt(duration).Some? && ParseInt(duration).value < 0 ==>
            r == DurationParse(None, Some("Duration must be greater than 0")))
      && (ParseInt(duration).Some? && ParseInt(duration).value >= 0 ==> r == DurationParse(ParseInt(duration), None))
  {
    if |duration| >= 1 && duration[0] == '=' then
      match evaluate(duration[1..])
      case Finite(v) =>
        if v > 0.0 && v == v.Floor as real then DurationParse(Some(v.Floor), None)
        else DurationParse(None, Some("Error: Invalid formula"))
      case _ => DurationParse(None, Some("Error: Invalid formula"))
    else
      match ParseInt(duration)
      case None => DurationParse(None, Some("Duration must be a number"))
      case Some(n) =>
        if n < 0 then DurationParse(None, Some("Duration must be greater than 0"))
        else DurationParse(Some(n), None)
  }

  /**
   * A field that starts with a number reads that number and ignores what
   * follows it ("90min" reads 90); only a negative number is refused.
   */
  lemma ParsesLeadingNumber(n: int, rest: string, evaluate: string -> FormulaValue)
    requires rest == [] || (!IsDigit(rest[0]) && !(n == 0 && rest[0] in {'x', 'X'}))
    ensures n >= 0 ==> ParseDuration(IntToString(n) + rest, evaluate) == DurationParse(Some(n), None)
    ensures n < 0 ==> ParseDuration(IntToString(n) + rest, evaluate) == DurationParse(None, Some("Duration must be greater than 0"))
  {
    ParseIntReadsIntToString(n, rest);
    var s := IntToString(n) + rest;
    assert s[0] == IntToString(n)[0];
  }

  /** The field's starting text "0" is accepted as 0. */
  lemma InitialDurationIsZero(evaluate: string -> FormulaValue)
    ensures ParseDuration("0", evaluate) == DurationParse(Some(0), None)
  {
    ParsesLeadingNumber(0, "", evaluate);
  }

  /** `isFormValid`: an address that validates, no duration error, a description. */
  predicate FormValid(email: string, parse: DurationParse, challengeDescription: string) {
    email != "" && EmailIsValid(email) && parse.error.None? && challengeDescription != ""
  }

  // The form state

  /** The form's state and the handlers that set it. */
  class Form {
    var email: string
    var duration: string
    var challengeDescription: string
    var selectedTemplate: Option<Template>

    /** The editor shows one text: a selected template's content is the description. */
    ghost predicate Valid()
      reads this
    {
      selectedTemplate.Some? ==> selectedTemplate.value.content == challengeDescription
    }

    /** The form as first shown, and as `resetForm` leaves it. */
    constructor()
      ensures email == "" && duration == "0" && challengeDescription == "" && selectedTemplate == None
      ensures Valid()
    {
      email := "";
      duration := "0";
      challengeDescription := "";
      selectedTemplate := None;
    }

    method SetEmail(text: string)
      modifies this
      ensures email == text
      ensures duration == old(duration) && challengeDescription == old(challengeDescription)
      ensures selectedTemplate == old(selectedTemplate)
      ensures old(Valid()) ==> Valid()
    {
      email := text;
    }

    method SetDuration(text: string)
      modifies this
      ensures duration == text
      ensures email == old(email) && challengeDescription == old(challengeDescription)
      ensures selectedTemplate == old(selectedTemplate)
      ensures old(Valid()) ==> Valid()
    {
      duration := text;
    }

    /**
     * `handleTemplateChange`: selects the first template with the id, and
     * the description becomes its content, or empty for an unknown id.
     */
    method HandleTemplateChange(templates: seq<Template>, templateId: string)
      modifies this
      ensures selectedTemplate == FindById(templates, templateId)
      ensures challengeDescription == if selectedTemplate.Some? then selectedTemplate.value.content else ""
      ensures email == old(email) && duration == old(duration)
      ensures Valid()
    {
      var template := FindById(templates, templateId);
      selectedTemplate := template;
      if template.Some? {
        challengeDescription := template.value.content;
      } else {
        challengeDescription := "";
      }
    }

    /** `handleTemplateEdit`: the edited text becomes the description, and the selected template's content. */
    method HandleTemplateEdit(text: string)
      modifies this
      ensures challengeDescription == text
      ensures selectedTemplate == if old(selectedTemplate).Some? then Some(old(selectedTemplate).value.(content := text)) else None
      ensures email == old(email) && duration == old(duration)
      ensures Valid()
    {
      if selectedTemplate.Some? {
        selectedTemplate := Some(selectedTemplate.value.(content := text));
        challengeDescription := text;
      } else {
        challengeDescription := text;
      }
    }

    /** `resetForm`: back to the first state. */
    method ResetForm()
      modifies this
      ensures email == "" && duration == "0" && challengeDescription == "" && selectedTemplate == None
      ensures Valid()
    {
      email := "";
      duration := "0";
      challengeDescription := "";
      selectedTemplate := None;
    }

    /**
     * `handleSubmit`: the request the form sends, if any. It sends only a
     * valid form with a truthy duration, so the duration is positive, the
     * address validates, and the description is the text the editor shows.
     */
    method HandleSubmit(evaluate: string -> FormulaValue) returns (request: Option<CreateRequest>)
      requires Valid()
      ensures var parse := ParseDuration(duration, evaluate);
        request.Some? <==> FormValid(email, parse, challengeDescription) && TruthyNumber(parse.parsed)
      ensures request.Some? ==>
        && request.value.email == email && ValidateEmail(email)
        && request.value.duration == ParseDuration(duration, evaluate).parsed
        && request.value.duration.value > 0
        && request.value.challengeDescription == Some(challengeDescription) && challengeDescription != ""
    {
      var parse := ParseDuration(duration, evaluate);
      if FormValid(email, parse, challengeDescription) && TruthyNumber(parse.parsed) {
        var description := if selectedTemplate.Some? then selectedTemplate.value.content else challengeDescription;
        request := Some(CreateRequest(email, parse.parsed, Some(description)));
      } else {
        request := None;
      }
    }
  }

  /**
   * A request the form sends creates a challenge that can be started: the
   * created record's duration is truthy, so the start handler accepts it.
   */
  lemma SentRequestCanStart(req: CreateRequest, hashedToken: string, now: int)
    requires req.duration.Some? && req.duration.value > 0
    ensures StartRoute.Start(Found(NewChallenge(req, hashedToken)), now).reply.Ok?
  {
  }
}
