/**
 * The admin dashboard's candidate cards: the lateness it computes and
 * prints, and the e-mail search. Its rows come from the open candidate
 * list, whose rows have no `duration` field.
 */
module AdminDashboard {
  import opened Options
  import opened Decimal
  import opened Text
  import opened Js
  import opened Lists
  import opened Units
  import opened Challenge
  import opened Listings

  /** A JavaScript number as far as lateness needs: an integer or NaN. */
  datatype Num = Finite(value: int) | NaN

  /**
   * `calculateLateness`: no value for a falsy submission time; otherwise
   * the submission time minus start plus duration. A duration the row does
   * not have (`undefined`) turns the difference into NaN. The end time is
   * not used.
   */
  function CalculateLateness(startTime: int, endTime: int, submissionTime: Option<int>, duration: Option<int>)
    : (r: Option<Num>)
    ensures r.None? <==> !TruthyNumber(submissionTime)
    ensures r.Some? ==> (r.value.NaN? <==> duration.None?)
    ensures r.Some? && duration.Some? ==> r.value.value == submissionTime.value - startTime - duration.value * 1000
  {
    if !TruthyNumber(submissionTime) then None
    else match duration
      case None => Some(NaN)
      case Some(d) =>
        var expectedEndTime := startTime + d * 1000;
        Some(Finite(submissionTime.value - expectedEndTime))
  }

  /** For a record the start handler opened, lateness measured from the duration is lateness past the end time. */
  lemma LatenessOfStartedRecord(rec: ChallengeStatus)
    requires Consistent(rec) && rec.isStarted && TruthyNumber(rec.submissionTime)
    ensures CalculateLateness(rec.startTime.value, rec.endTime.value, rec.submissionTime, rec.duration)
         == Some(Finite(rec.submissionTime.value - rec.endTime.value))
  {
  }

  /** The card computes lateness only when start, end and submission times are all set. */
  function RowLateness(row: CandidateRow, duration: Option<int>): Option<Num> {
    if TruthyNumber(row.startTime) && TruthyNumber(row.endTime) && TruthyNumber(row.submissionTime) then
      CalculateLateness(row.startTime.value, row.endTime.value, row.submissionTime, duration)
    else None
  }

  /** "Late by" is printed for a lateness that is a number above zero; NaN compares false. */
  predicate ShowsLateness(lateness: Option<Num>) {
    lateness.Some? && lateness.value.Finite? && lateness.value.value > 0
  }

  /**
   * As written, the card never says "Late by": the rows it gets carry no
   * duration, so every lateness it computes is NaN.
   */
  lemma LatenessNeverShown(row: CandidateRow)
    ensures !ShowsLateness(RowLateness(row, None))
  {
  }

  /** The card's lateness measured from the row's own end time, which the rows do carry. */
  function FixedRowLateness(row: CandidateRow): (r: Option<Num>)
    ensures r.Some? <==> TruthyNumber(row.startTime) && TruthyNumber(row.endTime) && TruthyNumber(row.submissionTime)
    ensures r.Some? ==> r.value == Finite(row.submissionTime.value - row.endTime.value)
  {
    if TruthyNumber(row.startTime) && TruthyNumber(row.endTime) && TruthyNumber(row.submissionTime) then
      Some(Finite(row.submissionTime.value - row.endTime.value))
    else None
  }

  /**
   * With the fix, a candidate's card says "Late by" exactly when the stored
   * submission came after the end time, and the amount is what
   * `calculateLateness` computes from the record's own duration.
   */
  lemma FixedLatenessShownIffLate(store: map<string, ChallengeStatus>, email: string)
    requires StoreConsistent(store) && ':' !in email && ChallengeKey(email) in store
    requires var rec := store[ChallengeKey(email)];
      rec.isStarted && TruthyNumber(rec.startTime) && TruthyNumber(rec.endTime) && TruthyNumber(rec.submissionTime)
    ensures IsChallengeKey(ChallengeKey(email))
    ensures var rec := store[ChallengeKey(email)];
      var lateness := FixedRowLateness(CandidateRowOf(store, ChallengeKey(email)));
      && (ShowsLateness(lateness) <==> rec.submissionTime.value > rec.endTime.value)
      && lateness == CalculateLateness(rec.startTime.value, rec.endTime.value, rec.submissionTime, rec.duration)
  {
    RecordOfOwnKey(store, email);
    LatenessOfStartedRecord(store[ChallengeKey(email)]);
  }

  /**
   * `formatLateness` on a lateness in milliseconds: hours and minutes from
   * one hour on, minutes and seconds from one minute on, else seconds.
   */
  function FormatLateness(lateness: nat): string {
    var seconds := lateness / 1000;
    var minutes := seconds / 60;
    var hours := minutes / 60;
    LatenessText(hours, minutes, seconds)
  }

  /** The text of the whole hours, minutes and seconds a lateness holds. */
  function LatenessText(hours: nat, minutes: nat, seconds: nat): string {
    if hours > 0 then NatToString(hours) + "h " + NatToString(minutes % 60) + "m"
    else if minutes > 0 then NatToString(minutes) + "m " + NatToString(seconds % 60) + "s"
    else NatToString(seconds) + "s"
  }

  /** The parts of a lateness text: its two leading units, or seconds alone. */
  function LatenessParts(lateness: nat): seq<Part> {
    var seconds := lateness / 1000;
    var minutes := seconds / 60;
    var hours := minutes / 60;
    PartsOfLateness(hours, minutes, seconds)
  }

  function PartsOfLateness(hours: nat, minutes: nat, seconds: nat): seq<Part> {
    if hours > 0 then [Part(hours, 'h'), Part(minutes % 60, 'm')]
    else if minutes > 0 then [Part(minutes, 'm'), Part(seconds % 60, 's')]
    else [Part(seconds, 's')]
  }

  lemma LatenessTextRenders(hours: nat, minutes: nat, seconds: nat)
    ensures LatenessText(hours, minutes, seconds) == Render(PartsOfLateness(hours, minutes, seconds))
  {
    if hours > 0 {
      var m := minutes % 60;
      RenderShort(Part(hours, 'h'), Part(m, 'm'));
      assert NatToString(hours) + "h " + NatToString(m) + "m"
          == RenderPart(Part(hours, 'h')) + " " + RenderPart(Part(m, 'm'));
    } else if minutes > 0 {
      var sec := seconds % 60;
      RenderShort(Part(minutes, 'm'), Part(sec, 's'));
      assert NatToString(minutes) + "m " + NatToString(sec) + "s"
          == RenderPart(Part(minutes, 'm')) + " " + RenderPart(Part(sec, 's'));
    } else {
      RenderShort(Part(seconds, 's'), Part(seconds, 's'));
    }
  }

  lemma FormatLatenessRenders(lateness: nat)
    ensures FormatLateness(lateness) == Render(LatenessParts(lateness))
  {
    var seconds := lateness / 1000;
    var minutes := seconds / 60;
    LatenessTextRenders(minutes / 60, minutes, seconds);
  }

  /** The seconds the lateness parts stand for: whole minutes from one hour on, else whole seconds. */
  lemma LatenessPartsSeconds(lateness: nat)
    ensures var ps := LatenessParts(lateness);
      && (lateness >= 3600000 ==> |ps| == 2 && ps[0].unit == 'h' && ps[1].unit == 'm' && ps[1].value < 60)
      && (60000 <= lateness < 3600000 ==> |ps| == 2 && ps[0].unit == 'm' && ps[1].unit == 's' && ps[1].value < 60)
      && (lateness < 60000 ==> ps == [Part(lateness / 1000, 's')])
      && Seconds(ps) == if lateness >= 3600000 then (lateness / 1000 / 60) * 60 else lateness / 1000
  {
    var seconds := lateness / 1000;
    var minutes := seconds / 60;
    var hours := minutes / 60;
    assert minutes == hours * 60 + minutes % 60;
    assert seconds == minutes * 60 + seconds % 60;
    assert hours > 0 <==> lateness >= 3600000;
    assert minutes > 0 <==> lateness >= 60000;
    var ps := LatenessParts(lateness);
    if hours > 0 {
      SecondsPair(ps[0], ps[1]);
      assert Seconds(ps) == hours * 3600 + (minutes % 60) * 60;
      assert hours * 3600 + (minutes % 60) * 60 == (hours * 60 + minutes % 60) * 60;
    } else if minutes > 0 {
      SecondsPair(ps[0], ps[1]);
      assert Seconds(ps) == minutes * 60 + seconds % 60;
    } else {
      assert [Part(seconds, 's')][1..] == [];
    }
  }

  /**
   * The lateness text reads back as its parts: hours and minutes (under
   * 60) from one hour on, so it stands for the lateness cut to whole
   * minutes; minutes and seconds (under 60) from one minute on, or seconds
   * alone, so it stands for the lateness cut to whole seconds.
   */
  lemma FormatLatenessRoundTrip(lateness: nat)
    ensures ParseParts(FormatLateness(lateness)) == Some(LatenessParts(lateness))
    ensures var ps := LatenessParts(lateness);
      Seconds(ps) == if lateness >= 3600000 then (lateness / 1000 / 60) * 60 else lateness / 1000
  {
    FormatLatenessRenders(lateness);
    RenderRoundTrip(LatenessParts(lateness));
    LatenessPartsSeconds(lateness);
  }

  /** The search: the row's e-mail, lower-cased, contains the term, lower-cased. */
  predicate MatchesEmail(row: CandidateRow, term: string) {
    Includes(Lower(row.email), Lower(term))
  }

  /** The dashboard's search: the matching rows, in their order. */
  function SearchCandidates(rows: seq<CandidateRow>, term: string): (r: seq<CandidateRow>)
    ensures forall i :: 0 <= i < |r| ==> MatchesEmail(r[i], term)
    ensures forall row :: row in rows && MatchesEmail(row, term) ==> row in r
    ensures forall row :: row in r ==> row in rows
    ensures forall row :: row in rows ==> multiset(r)[row] == if MatchesEmail(row, term) then multiset(rows)[row] else 0
  {
    Filter(rows, row => MatchesEmail(row, term))
  }

  /** An empty search keeps every row. */
  lemma EmptySearchKeepsAll(rows: seq<CandidateRow>)
    ensures SearchCandidates(rows, "") == rows
  {
    forall i | 0 <= i < |rows| ensures MatchesEmail(rows[i], "") {
      assert OccursAt(Lower(rows[i].email), Lower(""), 0);
    }
    FilterKeepsAll(rows, row => MatchesEmail(row, ""));
  }

  /**
   * The search keeps the rows' order: it works row by row, a single row is
   * kept exactly when it matches, and the result for a concatenation is
   * the concatenation of the results.
   */
  lemma SearchKeepsOrder(a: seq<CandidateRow>, b: seq<CandidateRow>, row: CandidateRow, term: string)
    ensures SearchCandidates([row], term) == if MatchesEmail(row, term) then [row] else []
    ensures SearchCandidates(a + b, term) == SearchCandidates(a, term) + SearchCandidates(b, term)
  {
    FilterAppend(a, b, row => MatchesEmail(row, term));
  }

  /** The search ignores the case of the term. */
  lemma SearchIgnoresTermCase(rows: seq<CandidateRow>, term: string)
    ensures SearchCandidates(rows, Lower(term)) == SearchCandidates(rows, term)
  {
    LowerIdempotent(term);
    FilterAgreeing(rows, row => MatchesEmail(row, Lower(term)), row => MatchesEmail(row, term));
  }
}
