/**
 * The race list: every race node parsed in document order, all or nothing, with the
 * races whose venue is a JRA one left out; and the year read from the page heading.
 */
module RaceList {
  import opened Wrappers
  import opened Text
  import opened Calendar
  import opened RaceParser

  /** A record the list leaves out: its venue is a JRA one. */
  predicate IsExcluded(r: Race) {
    StartsWith(r.course, ExcludedPrefix)
  }

  /** Every node parsed with the same year; the first node that fails aborts the list. */
  function ParseAll(nodes: seq<Node>, year: int): Result<seq<Race>, ParseError> {
    MapAll(nodes, (n: Node) => ParseRace(n, year))
  }

  /** `[x for x in races if not x.course.startswith('JRA')]`. */
  function DropExcluded(races: seq<Race>): (r: seq<Race>)
    ensures |r| <= |races|
    ensures forall i :: 0 <= i < |r| ==> !IsExcluded(r[i])
    ensures forall x :: x in r <==> x in races && !IsExcluded(x)
  {
    if races == [] then []
    else if IsExcluded(races[0]) then DropExcluded(races[1..])
    else [races[0]] + DropExcluded(races[1..])
  }

  /** `a` is `b` with some elements removed, the rest in their original order. */
  ghost predicate IsSubsequence<T>(a: seq<T>, b: seq<T>) {
    if a == [] then true
    else if b == [] then false
    else (a[0] == b[0] && IsSubsequence(a[1..], b[1..])) || IsSubsequence(a, b[1..])
  }

  /** The filter keeps the order of the records it keeps. */
  lemma {:induction false} DropExcludedKeepsOrder(races: seq<Race>)
    ensures IsSubsequence(DropExcluded(races), races)
  {
    if races != [] {
      DropExcludedKeepsOrder(races[1..]);
      var r := DropExcluded(races);
      if !IsExcluded(races[0]) {
        assert r[0] == races[0] && r[1..] == DropExcluded(races[1..]);
      }
    }
  }

  /**
   * The filter keeps every occurrence of every record it keeps: each record occurs in
   * the output as often as in the input, unless it is a JRA race, which never occurs.
   */
  lemma {:induction false} DropExcludedCounts(races: seq<Race>, x: Race)
    ensures multiset(DropExcluded(races))[x] == if IsExcluded(x) then 0 else multiset(races)[x]
  {
    if races != [] {
      DropExcludedCounts(races[1..], x);
      assert races == [races[0]] + races[1..];
      assert multiset(races) == multiset{races[0]} + multiset(races[1..]);
      if !IsExcluded(races[0]) {
        assert multiset(DropExcluded(races))
            == multiset{races[0]} + multiset(DropExcluded(races[1..]));
      }
    }
  }

  /** The filter treats each record on its own, whatever its position. */
  lemma {:induction false} DropExcludedAppend(a: seq<Race>, b: seq<Race>)
    ensures DropExcluded(a + b) == DropExcluded(a) + DropExcluded(b)
  {
    if a != [] {
      assert (a + b)[0] == a[0];
      assert (a + b)[1..] == a[1..] + b;
      DropExcludedAppend(a[1..], b);
    } else {
      assert a + b == b;
    }
  }

  /**
   * `get_racelist` once the year is known: the parsed records in node order, minus the
   * JRA races. The list fails iff some node fails, with the error of the first that does.
   */
  function ParseRaces(nodes: seq<Node>, year: int): (r: Result<seq<Race>, ParseError>)
    ensures r.Success? <==> forall i :: 0 <= i < |nodes| ==> ParseRace(nodes[i], year).Success?
    ensures r.Success? ==> forall i :: 0 <= i < |r.value| ==> !IsExcluded(r.value[i])
    ensures r.Success? ==> forall i :: 0 <= i < |r.value| ==> r.value[i].date.year == year
    ensures r.Failure? ==>
      exists i :: 0 <= i < |nodes|
        && ParseRace(nodes[i], year) == Failure(r.error)
        && forall j :: 0 <= j < i ==> ParseRace(nodes[j], year).Success?
  {
    var parsed := ParseAll(nodes, year);
    if parsed.Failure? then Failure(parsed.error) else Success(DropExcluded(parsed.value))
  }

  /**
   * A node that parses contributes its record to the list exactly when its course text,
   * after leading whitespace, does not start with `JRA`.
   */
  lemma NodeKeptIff(nodes: seq<Node>, year: int, i: int)
    requires 0 <= i < |nodes|
    requires ParseRaces(nodes, year).Success?
    ensures ParseRace(nodes[i], year).Success?
    ensures ParseRace(nodes[i], year).value in ParseRaces(nodes, year).value
        <==> !StartsWith(DropSpaces(nodes[i].courseText.value), ExcludedPrefix)
  {
    var parsed := ParseAll(nodes, year).value;
    ParsedAt(nodes, year, i);
    var x := parsed[i];
    assert x in parsed;
    assert x in DropExcluded(parsed) <==> !IsExcluded(x);
    RaceCourse(nodes[i], year);
    CoursePrefixKept(nodes[i].courseText.value, x.course);
  }

  lemma ParsedAt(nodes: seq<Node>, year: int, i: int)
    requires 0 <= i < |nodes|
    requires ParseAll(nodes, year).Success?
    ensures ParseRace(nodes[i], year) == Success(ParseAll(nodes, year).value[i])
  {
  }

  lemma RaceCourse(node: Node, year: int)
    requires ParseRace(node, year).Success?
    ensures node.courseText.Some?
    ensures NormalizeCourse(node.courseText.value) == Some(ParseRace(node, year).value.course)
  {
  }

  /** The list is, in order, the parsed records that are not JRA races. */
  lemma ParseRacesOrder(nodes: seq<Node>, year: int)
    requires ParseRaces(nodes, year).Success?
    ensures IsSubsequence(ParseRaces(nodes, year).value, ParseAll(nodes, year).value)
  {
    DropExcludedKeepsOrder(ParseAll(nodes, year).value);
  }

  /** Where the year of the records comes from. */
  datatype YearSource =
    | FromHeading(heading: Option<string>)  // the text of the page's first `h3`
    | Fixed(year: int)                      // a year supplied by the caller

  const HeadingPrefix: string := "レース一覧（"
  const HeadingSuffix: string := "年）"

  /** The four digits of a heading that fully matches `レース一覧（(\d{4})年）`. */
  function HeadingDigits(h: string): (r: Option<string>)
    ensures r.Some? ==> |r.value| == 4 && AllDigits(r.value) && h == HeadingPrefix + r.value + HeadingSuffix
  {
    var n := |HeadingPrefix|;
    if |h| == n + 4 + |HeadingSuffix| && h[..n] == HeadingPrefix
       && AllDigits(h[n..n + 4]) && h[n + 4..] == HeadingSuffix
    then
      assert h == h[..n] + h[n..n + 4] + h[n + 4..];
      Some(h[n..n + 4])
    else None
  }

  lemma HeadingDigitsComplete(d: string)
    requires |d| == 4 && AllDigits(d)
    ensures HeadingDigits(HeadingPrefix + d + HeadingSuffix) == Some(d)
  {
    var h := HeadingPrefix + d + HeadingSuffix;
    var n := |HeadingPrefix|;
    assert h[..n] == HeadingPrefix;
    assert h[n..n + 4] == d;
    assert h[n + 4..] == HeadingSuffix;
  }

  /** The year stated by the page heading (lines 35-37 of the source). */
  function HeadingYear(heading: Option<string>): (r: Result<int, ParseError>)
    ensures heading.None? ==> r == Failure(NoHeading)
    ensures r.Success? ==> 0 <= r.value <= 9999
  {
    match heading
    case None => Failure(NoHeading)
    case Some(h) =>
      match HeadingDigits(h)
      case None => Failure(HeadingMismatch(h))
      case Some(d) =>
        DigitsValueBound(d);
        Success(DigitsValue(d))
  }

  /** A heading yields a year iff it is `レース一覧（dddd年）`, and the year is the number `dddd`. */
  lemma HeadingYearExactly(h: string, d: string)
    requires |d| == 4 && AllDigits(d)
    ensures HeadingYear(Some(h)) == Success(DigitsValue(d)) <==> h == HeadingPrefix + d + HeadingSuffix
  {
    if h == HeadingPrefix + d + HeadingSuffix {
      HeadingDigitsComplete(d);
    }
    if HeadingYear(Some(h)) == Success(DigitsValue(d)) {
      var e := HeadingDigits(h).value;
      DigitsValueInjective(d, e);
    }
  }

  function ResolveYear(source: YearSource): Result<int, ParseError> {
    match source
    case FromHeading(h) => HeadingYear(h)
    case Fixed(y) => Success(y)
  }

  /**
   * `get_racelist`: the year first, then the races. With `FromHeading` this is the
   * function as shown; with `Fixed` it is the fixed-year variant the tests call.
   */
  function GetRaceList(source: YearSource, nodes: seq<Node>): (r: Result<seq<Race>, ParseError>)
    ensures ResolveYear(source).Failure? ==> r == Failure(ResolveYear(source).error)
    ensures ResolveYear(source).Success? ==> r == ParseRaces(nodes, ResolveYear(source).value)
  {
    var year :- ResolveYear(source);
    ParseRaces(nodes, year)
  }
}
