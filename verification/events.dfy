/**
 * The event mapper: one all-day calendar event per race record, with the property
 * values of RFC 5545 (section 3.8.1.12 SUMMARY, section 3.8.2.4 DTSTART, section
 * 3.8.2.2 DTEND, section 3.8.1.7 LOCATION, section 3.8.2.7 TRANSP).
 */
module Events {
  import opened Wrappers
  import opened Text
  import opened Calendar
  import opened RaceParser
  import Grades

  /** The properties the mapper sets on a `VEVENT`. */
  datatype Event = Event(summary: string, dtStart: Date, dtEnd: Date, location: string, transp: string)

  /** The TRANSP value of an event that does not take up busy time. */
  const Transparent: string := "TRANSPARENT"

  /**
   * `race2event`: the summary is the name with the grade in parentheses; the event
   * starts and ends on the race's date; the location is the venue.
   */
  function RaceToEvent(r: Race): (e: Event)
    ensures e.transp == Transparent
  {
    Event(r.name + "(" + r.grade + ")", r.date, r.date, r.course, Transparent)
  }

  /**
   * The DATE value text of section 3.3.4 of RFC 5545, `YYYYMMDD`, as `vDate.to_ical()`
   * writes it with `%04d%02d%02d`.
   */
  function DateValue(d: Date): (s: string)
    requires IsValid(d)
    ensures |s| == 8 && AllDigits(s)
  {
    FixedDigits(d.year, 4) + FixedDigits(d.month, 2) + FixedDigits(d.day, 2)
  }

  /** Reads a DATE value text back: eight digits that name an existing date. */
  function ParseDateValue(s: string): (r: Option<Date>)
    ensures r.Some? ==> IsValid(r.value)
  {
    if |s| == 8 && AllDigits(s) then
      var d := Date(DigitsValue(s[..4]), DigitsValue(s[4..6]), DigitsValue(s[6..]));
      if IsValid(d) then Some(d) else None
    else None
  }

  /** Reading the text of a date gives the date back. */
  lemma DateValueRoundTrip(d: Date)
    requires IsValid(d)
    ensures ParseDateValue(DateValue(d)) == Some(d)
  {
    var y, m, n := FixedDigits(d.year, 4), FixedDigits(d.month, 2), FixedDigits(d.day, 2);
    var s := y + m + n;
    assert s[..4] == y && s[4..6] == m && s[6..] == n;
  }

  /** Every text that reads as a date is that date's text. */
  lemma ParseDateValueSound(s: string, d: Date)
    requires ParseDateValue(s) == Some(d)
    ensures DateValue(d) == s
  {
    var y, m, n := FixedDigits(d.year, 4), FixedDigits(d.month, 2), FixedDigits(d.day, 2);
    DigitsValueInjective(y, s[..4]);
    DigitsValueInjective(m, s[4..6]);
    DigitsValueInjective(n, s[6..]);
    assert s == s[..4] + s[4..6] + s[6..];
  }

  /** Distinct dates have distinct texts. */
  lemma DateValueInjective(d1: Date, d2: Date)
    requires IsValid(d1) && IsValid(d2)
    requires DateValue(d1) == DateValue(d2)
    ensures d1 == d2
  {
    DateValueRoundTrip(d1);
    DateValueRoundTrip(d2);
  }

  /**
   * The event of a race with a valid date: DTSTART and DTEND have the same eight-digit
   * text, which reads back as the race's date; LOCATION is the venue.
   */
  lemma EventDates(r: Race)
    requires IsValid(r.date)
    ensures var e := RaceToEvent(r);
      && IsValid(e.dtStart) && IsValid(e.dtEnd)
      && DateValue(e.dtStart) == DateValue(e.dtEnd)
      && ParseDateValue(DateValue(e.dtStart)) == Some(r.date)
      && e.location == r.course
  {
    DateValueRoundTrip(r.date);
  }

  /** The labels of the grade table. */
  predicate IsGradeLabel(g: string) {
    exists code :: code in Grades.Table && Grades.Table[code] == g
  }

  lemma GradeLabels(g: string)
    requires IsGradeLabel(g)
    ensures g in {"JpnⅠ", "JpnⅡ", "JpnⅢ", "GⅠ", "GⅡ", "GⅢ"}
  {
  }

  /** The fourth character from the end of `name(grade)` tells a `G` label from a `Jpn` one. */
  lemma SchemeMarker(n: string, g: string)
    requires IsGradeLabel(g)
    ensures |g| == 2 || |g| == 4
    ensures |n + "(" + g + ")"| >= 4
    ensures (n + "(" + g + ")")[|n + "(" + g + ")"| - 4] == '(' <==> |g| == 2
  {
    GradeLabels(g);
    var s := n + "(" + g + ")";
    if |g| == 2 {
      assert s[|s| - 4] == '(';
    } else {
      assert s[|s| - 4] == g[1] == 'p';
    }
  }

  /** `name(grade)` determines the name and the grade, when the grade is a table label. */
  lemma SummaryInjective(n1: string, g1: string, n2: string, g2: string)
    requires IsGradeLabel(g1) && IsGradeLabel(g2)
    requires n1 + "(" + g1 + ")" == n2 + "(" + g2 + ")"
    ensures n1 == n2 && g1 == g2
  {
    SchemeMarker(n1, g1);
    SchemeMarker(n2, g2);
    var s1, s2 := n1 + "(" + g1 + ")", n2 + "(" + g2 + ")";
    assert |g1| == |g2|;
    assert s1[|n1| + 1..|s1| - 1] == g1;
    assert s2[|n2| + 1..|s2| - 1] == g2;
    assert s1[..|n1|] == n1 && s2[..|n2|] == n2;
  }

  /** Different races give different events: the mapping loses nothing. */
  lemma RaceToEventInjective(a: Race, b: Race)
    requires IsGradeLabel(a.grade) && IsGradeLabel(b.grade)
    requires RaceToEvent(a) == RaceToEvent(b)
    ensures a == b
  {
    SummaryInjective(a.name, a.grade, b.name, b.grade);
  }
}
