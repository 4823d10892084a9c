/**
 * Strings such as "1d 2h 5s" and "3h 0m": numbers, each followed by a
 * one-letter unit, separated by single spaces. The formatters of the
 * platform build them by pushing `${value}${unit}` parts and joining with
 * " "; the parser here reads them back, so a formatter's contract can say
 * what its output denotes.
 */
module Units {
  import opened Options
  import opened Decimal
  import opened Text

  datatype Part = Part(value: nat, unit: char)

  /** A unit marker: neither a digit nor the separator. */
  predicate IsUnit(c: char) {
    !IsDigit(c) && c != ' '
  }

  /** Seconds per unit: days, hours, minutes, seconds. */
  function Weight(unit: char): nat {
    match unit
    case 'd' => 86400
    case 'h' => 3600
    case 'm' => 60
    case _ => 1
  }

  /** The number of seconds a list of parts stands for. */
  function Seconds(ps: seq<Part>): nat {
    if ps == [] then 0 else ps[0].value * Weight(ps[0].unit) + Seconds(ps[1..])
  }

  /** The seconds of two lists of parts add up. */
  lemma {:induction false} SecondsAppend(a: seq<Part>, b: seq<Part>)
    ensures Seconds(a + b) == Seconds(a) + Seconds(b)
  {
    if a == [] {
      assert a + b == b;
    } else {
      assert (a + b)[0] == a[0];
      assert (a + b)[1..] == a[1..] + b;
      SecondsAppend(a[1..], b);
    }
  }

  /** The seconds of a two-part list, unfolded. */
  lemma SecondsPair(p: Part, q: Part)
    ensures Seconds([p, q]) == p.value * Weight(p.unit) + q.value * Weight(q.unit)
  {
    assert [p, q][1..] == [q];
    assert [q][1..] == [];
    assert Seconds([q]) == q.value * Weight(q.unit) + Seconds([]);
    assert Seconds([p, q]) == p.value * Weight(p.unit) + Seconds([q]);
  }

  /** `${value}${unit}`. */
  function RenderPart(p: Part): string {
    NatToString(p.value) + [p.unit]
  }

  function RenderAll(ps: seq<Part>): (fields: seq<string>)
    ensures |fields| == |ps|
    ensures forall k :: 0 <= k < |ps| ==> fields[k] == RenderPart(ps[k])
  {
    if ps == [] then [] else [RenderPart(ps[0])] + RenderAll(ps[1..])
  }

  lemma RenderAllPush(ps: seq<Part>, p: Part)
    ensures RenderAll(ps + [p]) == RenderAll(ps) + [RenderPart(p)]
  {
    assert forall k :: 0 <= k < |ps| ==> (ps + [p])[k] == ps[k];
  }

  /** `parts.join(" ")` over the rendered parts. */
  function Render(ps: seq<Part>): string {
    Join(RenderAll(ps), ' ')
  }

  /** One part renders alone; two are separated by one space. */
  lemma RenderShort(p: Part, q: Part)
    ensures Render([p]) == RenderPart(p)
    ensures Render([p, q]) == RenderPart(p) + " " + RenderPart(q)
  {
    assert RenderAll([p]) == [RenderPart(p)];
    var fields := RenderAll([p, q]);
    assert fields == [RenderPart(p), RenderPart(q)];
    assert fields[1..] == [RenderPart(q)];
    assert Join(fields[1..], ' ') == RenderPart(q);
    assert Join(fields, ' ') == RenderPart(p) + [' '] + RenderPart(q);
  }

  /** Reads one field: a run of digits followed by a unit marker. */
  function ParsePart(field: string): (p: Option<Part>)
    ensures p.Some? ==> IsUnit(p.value.unit)
  {
    if |field| >= 2 && AllDigits(field[..|field| - 1]) && IsUnit(field[|field| - 1]) then
      Some(Part(DigitsValue(field[..|field| - 1]), field[|field| - 1]))
    else None
  }

  function ParseFields(fields: seq<string>): Option<seq<Part>> {
    if fields == [] then Some([])
    else
      match (ParsePart(fields[0]), ParseFields(fields[1..]))
      case (Some(p), Some(ps)) => Some([p] + ps)
      case _ => None
  }

  /** Reads a whole string of space-separated parts; `None` if any field is malformed. */
  function ParseParts(s: string): Option<seq<Part>> {
    ParseFields(Split(s, ' '))
  }

  lemma ParseRenderedPart(p: Part)
    requires IsUnit(p.unit)
    ensures ' ' !in RenderPart(p)
    ensures ParsePart(RenderPart(p)) == Some(p)
  {
    var f := RenderPart(p);
    assert f[..|f| - 1] == NatToString(p.value);
    assert forall k :: 0 <= k < |f| ==> f[k] == ' ' ==> k == |f| - 1;
  }

  lemma {:induction false} ParseRenderedFields(ps: seq<Part>)
    requires forall k :: 0 <= k < |ps| ==> IsUnit(ps[k].unit)
    ensures ParseFields(RenderAll(ps)) == Some(ps)
  {
    if ps != [] {
      var fields := RenderAll(ps);
      assert fields == [RenderPart(ps[0])] + RenderAll(ps[1..]);
      ParseRenderedPart(ps[0]);
      assert forall k :: 0 <= k < |ps[1..]| ==> ps[1..][k] == ps[k + 1];
      ParseRenderedFields(ps[1..]);
      assert fields[0] == RenderPart(ps[0]) && fields[1..] == RenderAll(ps[1..]);
      assert ParseFields(fields) == Some([ps[0]] + ps[1..]);
      assert [ps[0]] + ps[1..] == ps;
    }
  }

  /** Every non-empty list of parts is read back exactly from its rendering. */
  lemma RenderRoundTrip(ps: seq<Part>)
    requires |ps| >= 1
    requires forall k :: 0 <= k < |ps| ==> IsUnit(ps[k].unit)
    ensures ParseParts(Render(ps)) == Some(ps)
  {
    var fields := RenderAll(ps);
    forall k | 0 <= k < |fields| ensures ' ' !in fields[k] {
      ParseRenderedPart(ps[k]);
    }
    SplitJoin(fields, ' ');
    ParseRenderedFields(ps);
  }

  /** A rendered list of parts is never the empty string. */
  lemma RenderNotEmpty(ps: seq<Part>)
    requires |ps| >= 1
    ensures Render(ps) != ""
  {
    if |ps| > 1 {
      assert Render(ps) == RenderPart(ps[0]) + [' '] + Join(RenderAll(ps)[1..], ' ');
    }
  }
}
