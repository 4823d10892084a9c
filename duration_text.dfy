/** The shared duration formatter, which also accepts a missing duration. */
module DurationText {
  import opened Options
  import opened Decimal
  import opened Text
  import opened Units
  import Countdown

  /**
   * `formatDuration` taking `null`: "NaN" for a missing duration, and
   * otherwise the same text as the candidate page's formatter, built by
   * pushing the non-zero units and joining them with single spaces.
   */
  method FormatDuration(durationInSeconds: Option<nat>) returns (text: string)
    ensures durationInSeconds.None? ==> text == "NaN"
    ensures durationInSeconds.Some? ==> text == Countdown.FormatDuration(durationInSeconds.value)
  {
    if durationInSeconds.None? {
      return "NaN";
    }
    var s := durationInSeconds.value;
    var days := s / 86400;
    var hours := (s % 86400) / 3600;
    var minutes := (s % 3600) / 60;
    var seconds := s % 60;
    var parts: seq<string> := [];
    ghost var pushed: seq<Part> := [];
    assert parts == RenderAll(pushed);
    if days > 0 {
      RenderAllPush(pushed, Part(days, 'd'));
      assert NatToString(days) + "d" == RenderPart(Part(days, 'd'));
      parts, pushed := parts + [NatToString(days) + "d"], pushed + [Part(days, 'd')];
      assert parts == RenderAll(pushed);
    }
    if hours > 0 {
      RenderAllPush(pushed, Part(hours, 'h'));
      assert NatToString(hours) + "h" == RenderPart(Part(hours, 'h'));
      parts, pushed := parts + [NatToString(hours) + "h"], pushed + [Part(hours, 'h')];
      assert parts == RenderAll(pushed);
    }
    if minutes > 0 {
      RenderAllPush(pushed, Part(minutes, 'm'));
      assert NatToString(minutes) + "m" == RenderPart(Part(minutes, 'm'));
      parts, pushed := parts + [NatToString(minutes) + "m"], pushed + [Part(minutes, 'm')];
      assert parts == RenderAll(pushed);
    }
    assert pushed == Countdown.NonZero(days, 'd') + Countdown.NonZero(hours, 'h') + Countdown.NonZero(minutes, 'm');
    if seconds > 0 || |parts| == 0 {
      RenderAllPush(pushed, Part(seconds, 's'));
      assert NatToString(seconds) + "s" == RenderPart(Part(seconds, 's'));
      parts, pushed := parts + [NatToString(seconds) + "s"], pushed + [Part(seconds, 's')];
      assert parts == RenderAll(pushed);
    }
    assert parts == RenderAll(pushed);
    assert pushed == Countdown.Assemble(days, hours, minutes, seconds);
    assert Countdown.DurationParts(s) == Countdown.Assemble(days, hours, minutes, seconds);
    text := Join(parts, ' ');
  }
}
