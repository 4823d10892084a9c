/**
 * The admin page listing every challenge. Its one computation is the
 * duration label, `${Math.floor(m / 60)}h ${m % 60}m` on a duration in
 * minutes, with JavaScript's sign-keeping remainder.
 */
module AllChallenges {
  import opened Options
  import opened Decimal
  import opened Js
  import opened Text
  import opened Units

  /** `formatDuration` on a number of minutes. */
  function FormatMinutes(minutes: int): string {
    IntToString(minutes / 60) + "h " + IntToString(JsRem(minutes, 60)) + "m"
  }

  /** The parts a label of a non-negative duration stands for. */
  function MinuteParts(minutes: nat): seq<Part> {
    [Part(minutes / 60, 'h'), Part(minutes % 60, 'm')]
  }

  lemma FormatMinutesRenders(minutes: nat)
    ensures FormatMinutes(minutes) == Render(MinuteParts(minutes))
  {
    RenderShort(Part(minutes / 60, 'h'), Part(minutes % 60, 'm'));
  }

  /**
   * The label of a non-negative duration reads back as whole hours and
   * under sixty minutes, and those stand for exactly the duration.
   */
  lemma FormatMinutesRoundTrip(minutes: nat)
    ensures ParseParts(FormatMinutes(minutes)) == Some(MinuteParts(minutes))
    ensures MinuteParts(minutes)[1].value < 60
    ensures Seconds(MinuteParts(minutes)) == minutes * 60
  {
    var ps := MinuteParts(minutes);
    FormatMinutesRenders(minutes);
    RenderRoundTrip(ps);
    SecondsPair(ps[0], ps[1]);
    assert minutes == (minutes / 60) * 60 + minutes % 60;
  }

  /** A zero duration (the list's default for a record without one) reads "0h 0m". */
  lemma ZeroMinutesLabel()
    ensures FormatMinutes(0) == "0h 0m"
  {
  }

  /**
   * A negative duration keeps its sign in both fields: the hours round down
   * while the minutes keep the dividend's sign, so the two fields do not add
   * up to the duration unless it is a whole number of hours.
   */
  lemma NegativeMinutesLabel(minutes: int)
    requires minutes < 0
    ensures minutes / 60 < 0 && JsRem(minutes, 60) <= 0
    ensures (minutes / 60) * 60 + JsRem(minutes, 60) == minutes <==> minutes % 60 == 0
  {
    var r := JsRem(minutes, 60);
    assert minutes == (minutes / 60) * 60 + minutes % 60;
    if minutes % 60 == 0 {
      assert (-minutes) % 60 == 0;
    } else {
      assert (-minutes) % 60 != 0;
    }
  }
}
