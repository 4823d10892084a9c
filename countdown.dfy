/**
 * The candidate page's clock arithmetic: the duration text, the
 * `MM:SS`/`HH:MM:SS` countdown, the seconds left before the end time, the
 * submit gating and the overtime label. The server clock and the page clock
 * are taken to agree.
 */
module Countdown {
  import opened Options
  import opened Decimal
  import opened Text
  import opened Js
  import opened Units
  import opened Challenge
  import opened Lookup
  import SubmitRoute

  /** Position of a unit in the order days, hours, minutes, seconds. */
  function Rank(unit: char): nat {
    match unit
    case 'd' => 0
    case 'h' => 1
    case 'm' => 2
    case _ => 3
  }

  /** The largest value a unit may carry plus one; days are unbounded. */
  predicate Bounded(p: Part) {
    match p.unit
    case 'h' => p.value < 24
    case 'm' => p.value < 60
    case 's' => p.value < 60
    case _ => true
  }

  /** A part for a unit, kept only when its value is not zero. */
  function NonZero(value: nat, unit: char): seq<Part> {
    if value > 0 then [Part(value, unit)] else []
  }

  lemma Decompose(s: nat)
    ensures s == (s / 86400) * 86400 + ((s % 86400) / 3600) * 3600 + ((s % 3600) / 60) * 60 + s % 60
    ensures (s % 86400) / 3600 < 24 && (s % 3600) / 60 < 60 && s % 60 < 60
  {
    var r := s % 86400;
    assert s == (s / 86400) * 86400 + r;
    assert r == (r / 3600) * 3600 + r % 3600;
    assert r % 3600 == s % 3600 by {
      assert s == (s / 86400) * 24 * 3600 + (r / 3600) * 3600 + r % 3600;
    }
    assert s % 3600 == ((s % 3600) / 60) * 60 + s % 60 by {
      var q := s % 3600;
      assert q == (q / 60) * 60 + q % 60;
      assert s == (s / 3600) * 60 * 60 + (q / 60) * 60 + q % 60;
    }
  }

  /** The parts pushed for the given day, hour, minute and second values. */
  function Assemble(d: nat, h: nat, m: nat, sec: nat): seq<Part> {
    var parts := NonZero(d, 'd') + NonZero(h, 'h') + NonZero(m, 'm');
    if sec > 0 || parts == [] then parts + [Part(sec, 's')] else parts
  }

  lemma AssembleSeconds(d: nat, h: nat, m: nat, sec: nat)
    ensures Seconds(Assemble(d, h, m, sec)) == d * 86400 + h * 3600 + m * 60 + sec
  {
    var parts := NonZero(d, 'd') + NonZero(h, 'h') + NonZero(m, 'm');
    SecondsAppend(NonZero(d, 'd'), NonZero(h, 'h'));
    SecondsAppend(NonZero(d, 'd') + NonZero(h, 'h'), NonZero(m, 'm'));
    SecondsAppend(parts, [Part(sec, 's')]);
  }

  /** Units in d, h, m, s order, each within its bound, zero only as the lone "0s". */
  predicate WellFormedParts(ps: seq<Part>) {
    && 1 <= |ps| <= 4
    && (forall k :: 0 <= k < |ps| ==> ps[k].unit in "dhms" && Bounded(ps[k]))
    && (forall i, j :: 0 <= i < j < |ps| ==> Rank(ps[i].unit) < Rank(ps[j].unit))
    && (forall k :: 0 <= k < |ps| && ps[k].value == 0 ==> ps == [Part(0, 's')])
  }

  /** The units pushed before seconds: non-zero values, in d, h, m order, within their bounds. */
  lemma LeadingParts(d: nat, h: nat, m: nat)
    requires h < 24 && m < 60
    ensures var parts := NonZero(d, 'd') + NonZero(h, 'h') + NonZero(m, 'm');
      && |parts| <= 3
      && (parts == [] <==> d == 0 && h == 0 && m == 0)
      && (forall k :: 0 <= k < |parts| ==> parts[k].value > 0 && parts[k].unit in "dhm" && Bounded(parts[k]))
      && (forall i, j :: 0 <= i < j < |parts| ==> Rank(parts[i].unit) < Rank(parts[j].unit))
  {
  }

  lemma AssembleWellFormed(d: nat, h: nat, m: nat, sec: nat)
    requires h < 24 && m < 60 && sec < 60
    ensures WellFormedParts(Assemble(d, h, m, sec))
    ensures Assemble(d, h, m, sec) == [Part(0, 's')] <==> d == 0 && h == 0 && m == 0 && sec == 0
  {
    var parts := NonZero(d, 'd') + NonZero(h, 'h') + NonZero(m, 'm');
    LeadingParts(d, h, m);
    var ps := Assemble(d, h, m, sec);
    if parts != [] {
      assert ps[0] == parts[0] && ps[0].value > 0;
      assert ps != [Part(0, 's')];
    } else {
      assert ps == [Part(sec, 's')];
    }
  }

  /**
   * The parts `formatDuration` pushes for `s` seconds: the non-zero units
   * among days, hours, minutes and seconds, in that order, with seconds
   * pushed also when nothing else was.
   */
  function DurationParts(s: nat): (ps: seq<Part>)
    ensures WellFormedParts(ps)
    ensures Seconds(ps) == s
    ensures ps == [Part(0, 's')] <==> s == 0
  {
    Decompose(s);
    var d, h, m, sec := s / 86400, (s % 86400) / 3600, (s % 3600) / 60, s % 60;
    AssembleSeconds(d, h, m, sec);
    AssembleWellFormed(d, h, m, sec);
    Assemble(d, h, m, sec)
  }

  /** `formatDuration(s)` on a non-negative whole number of seconds. */
  function FormatDuration(s: nat): string {
    Render(DurationParts(s))
  }

  /** The seconds a duration text stands for, if it reads as space-separated parts. */
  function SecondsOfText(t: string): Option<nat> {
    match ParseParts(t)
    case Some(ps) => Some(Seconds(ps))
    case None => None
  }

  /**
   * The duration text is never empty, reads back as the parts it was
   * made from, and so stands for exactly `s` seconds.
   */
  lemma FormatDurationRoundTrip(s: nat)
    ensures FormatDuration(s) != ""
    ensures ParseParts(FormatDuration(s)) == Some(DurationParts(s))
    ensures SecondsOfText(FormatDuration(s)) == Some(s)
  {
    var ps := DurationParts(s);
    assert forall k :: 0 <= k < |ps| ==> ps[k].unit in "dhms";
    assert forall k :: 0 <= k < |ps| ==> IsUnit(ps[k].unit);
    RenderRoundTrip(ps);
    RenderNotEmpty(ps);
  }

  /** `formatTime`: `HH:MM:SS` from one hour on, `MM:SS` below, each field at least two digits. */
  function FormatTime(seconds: nat): string {
    ClockText(seconds / 3600, (seconds % 3600) / 60, seconds % 60)
  }

  /** The padded fields joined by colons, the hours only when there are some. */
  function ClockText(hours: nat, minutes: nat, remaining: nat): string {
    if hours > 0 then Pad2(hours) + ":" + Pad2(minutes) + ":" + Pad2(remaining)
    else Pad2(minutes) + ":" + Pad2(remaining)
  }

  predicate IsClockField(f: string) {
    |f| >= 2 && AllDigits(f)
  }

  /** Reads `MM:SS` or `HH:MM:SS` back into seconds. */
  function ClockSeconds(t: string): Option<nat> {
    var f := Split(t, ':');
    if (|f| == 2 || |f| == 3) && forall k :: 0 <= k < |f| ==> IsClockField(f[k]) then
      if |f| == 3 then Some(DigitsValue(f[0]) * 3600 + DigitsValue(f[1]) * 60 + DigitsValue(f[2]))
      else Some(DigitsValue(f[0]) * 60 + DigitsValue(f[1]))
    else None
  }

  lemma SplitClockField(a: nat, rest: string)
    ensures Split(Pad2(a) + ":" + rest, ':') == [Pad2(a)] + Split(rest, ':')
  {
    assert Pad2(a) + ":" + rest == Pad2(a) + [':'] + rest;
    SplitAtFirst(Pad2(a), ':', rest);
  }

  lemma ClockDecompose(seconds: nat)
    ensures seconds == (seconds / 3600) * 3600 + ((seconds % 3600) / 60) * 60 + seconds % 60
    ensures (seconds % 3600) / 60 < 60
  {
    var q := seconds % 3600;
    assert q == (q / 60) * 60 + q % 60;
    assert q % 60 == seconds % 60 by {
      assert seconds == (seconds / 3600) * 60 * 60 + (q / 60) * 60 + q % 60;
    }
  }

  lemma ClockFields(hours: nat, minutes: nat, remaining: nat)
    ensures Split(ClockText(hours, minutes, remaining), ':')
         == (if hours > 0 then [Pad2(hours)] else []) + [Pad2(minutes), Pad2(remaining)]
  {
    SplitWithoutSeparator(Pad2(remaining), ':');
    SplitClockField(minutes, Pad2(remaining));
    if hours > 0 {
      SplitClockField(hours, Pad2(minutes) + ":" + Pad2(remaining));
      assert Pad2(hours) + ":" + Pad2(minutes) + ":" + Pad2(remaining)
        == Pad2(hours) + ":" + (Pad2(minutes) + ":" + Pad2(remaining));
    }
  }

  /** The fields of a clock text read back as the numbers they were made from. */
  lemma ClockTextReads(hours: nat, minutes: nat, remaining: nat)
    ensures var f := Split(ClockText(hours, minutes, remaining), ':');
      && |f| == (if hours > 0 then 3 else 2)
      && (forall k :: 0 <= k < |f| ==> IsClockField(f[k]))
      && (|f| == 3 ==> DigitsValue(f[0]) == hours)
    ensures ClockSeconds(ClockText(hours, minutes, remaining))
         == Some(hours * 3600 + minutes * 60 + remaining)
  {
    ClockFields(hours, minutes, remaining);
    var f := Split(ClockText(hours, minutes, remaining), ':');
    if hours > 0 {
      assert f == [Pad2(hours), Pad2(minutes), Pad2(remaining)];
    } else {
      assert f == [Pad2(minutes), Pad2(remaining)];
    }
  }

  /**
   * The countdown has three fields exactly from one hour on, every field
   * has at least two digits, hours are never cut short, and the text reads
   * back as the seconds it was made from.
   */
  lemma FormatTimeRoundTrip(seconds: nat)
    ensures var f := Split(FormatTime(seconds), ':');
      && (|f| == 3 <==> seconds >= 3600)
      && (|f| == 2 <==> seconds < 3600)
      && (forall k :: 0 <= k < |f| ==> IsClockField(f[k]))
      && (|f| == 3 ==> DigitsValue(f[0]) == seconds / 3600)
    ensures ClockSeconds(FormatTime(seconds)) == Some(seconds)
  {
    var hours, minutes, remaining := seconds / 3600, (seconds % 3600) / 60, seconds % 60;
    ClockDecompose(seconds);
    ClockTextReads(hours, minutes, remaining);
    assert hours > 0 <==> seconds >= 3600;
  }

  /**
   * `updateTimer`: whole seconds left before `endTime` at clock `now`
   * (both milliseconds), rounded up; 0 once the end time is reached.
   */
  function TimeLeft(endTime: int, now: int): (t: nat)
    ensures t == 0 <==> endTime - now <= 0
    ensures t > 0 ==> (t - 1) * 1000 < endTime - now <= t * 1000
  {
    var remaining := endTime - now;
    if remaining <= 0 then 0 else (remaining + 999) / 1000
  }

  /** The page's submit gate: time is left, or nothing has been submitted yet. */
  predicate CanSubmit(timeLeft: nat, submission: Option<string>) {
    var isOvertime := timeLeft <= 0;
    !isOvertime || !TruthyString(submission)
  }

  /**
   * Whether the page posts its text: the button is enabled and the
   * text, trimmed, has at least ten characters (the second check, that the
   * trimmed text is not empty, then always passes). The text is sent
   * untrimmed.
   */
  predicate ClientSends(text: string, canSubmit: bool) {
    canSubmit && |Trim(text)| >= 10 && Trim(text) != ""
  }

  /** Everything the page sends passes the server's emptiness check. */
  lemma SentTextIsNonEmpty(text: string, canSubmit: bool)
    requires ClientSends(text, canSubmit)
    ensures TruthyString(Some(text))
  {
  }

  /**
   * The page is at least as strict as the server: when the server would
   * turn an overtime submit away, the page's gate computed at the same
   * clock from the same record is closed.
   */
  lemma ClientAtLeastAsStrict(rec: ChallengeStatus, now: int)
    requires rec.isStarted && rec.endTime.Some?
    requires SubmitRoute.RejectsOvertime(rec, now)
    ensures !CanSubmit(TimeLeft(rec.endTime.value, now), rec.submission)
  {
  }

  /**
   * The page closes one millisecond early: at exactly the end time the
   * server still counts a resubmission as on time, but the page's gate is
   * closed once something has been submitted.
   */
  lemma ClientClosesAtDeadline(rec: ChallengeStatus, content: string)
    requires rec.isStarted && rec.endTime.Some? && TruthyString(rec.submission) && content != ""
    ensures SubmitRoute.Submit(Found(rec), Some(content), rec.endTime.value).reply.Ok?
    ensures !CanSubmit(TimeLeft(rec.endTime.value, rec.endTime.value), rec.submission)
  {
  }

  /** The banner under a stored submission says "Overtime submission" exactly when this holds. */
  predicate ShowsOvertimeLabel(rec: ChallengeStatus) {
    TruthyString(rec.submission) && NullAsZero(rec.submissionTime) > NullAsZero(rec.endTime)
  }

  /** The banner uses the server's own strict test: it says overtime exactly when the accepted submit was. */
  lemma OvertimeLabelAgreesWithServer(rec: ChallengeStatus, content: Option<string>, now: int)
    requires SubmitRoute.Submit(Found(rec), content, now).reply.Ok?
    ensures ShowsOvertimeLabel(SubmitRoute.Submit(Found(rec), content, now).written.value)
      <==> SubmitRoute.Submit(Found(rec), content, now).reply.body.isOvertime
  {
  }
}
