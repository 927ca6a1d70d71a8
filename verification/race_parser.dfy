/**
 * The race parser: reads one race record (grade, date, name, venue) out of one race
 * list item of the schedule page.
 */
module RaceParser {
  import opened Wrappers
  import opened Text
  import opened Calendar
  import Grades
  import DatePattern

  /**
   * A `<li class="race ...">` element as the parser sees it: its class tokens in
   * document order, and the text of its date, name and course paragraphs. A text is
   * `None` when the paragraph is missing or its content is not a single string.
   */
  datatype Node = Node(
    classes: seq<string>,
    dateText: Option<string>,
    nameText: Option<string>,
    courseText: Option<string>)

  /** A race record: display grade, date, name and venue. */
  datatype Race = Race(grade: string, date: Date, name: string, course: string)

  /** The paragraphs of a race node. */
  datatype Field = DateField | NameField | CourseField

  /** Why extraction was aborted. */
  datatype ParseError =
    | NoHeading                         // no `h3`, or its content is not a single string
    | HeadingMismatch(heading: string)  // the `h3` text is not `レース一覧（dddd年）`
    | NoGradeToken                      // fewer than two class tokens
    | UnknownGrade(code: string)        // second class token not in the grade table
    | NoText(field: Field)              // a paragraph or its text is absent
    | MalformedDate(text: string)       // the date text is not `M/D（note）`
    | InvalidDate(date: Date)           // the date does not exist
    | EmptyCourse                       // the course text holds only whitespace

  /** Appended to the venue's name. */
  const VenueSuffix: string := "競馬場"

  /** The venue prefix of races run by the JRA, which the list leaves out. */
  const ExcludedPrefix: string := "JRA"

  predicate EndsWith(s: string, suffix: string) {
    |suffix| <= |s| && s[|s| - |suffix|..] == suffix
  }

  /** `text.split()[0] + '競馬場'`: the course text's first token followed by the suffix. */
  function NormalizeCourse(text: string): (r: Option<string>)
    ensures r.None? <==> AllSpace(text)
    ensures r.Some? ==> EndsWith(r.value, VenueSuffix)
  {
    var venue :- FirstToken(text);
    var r := venue + VenueSuffix;
    assert r[|r| - |VenueSuffix|..] == VenueSuffix;
    Some(r)
  }

  /**
   * The normalised course is the head of the course text's split — the venue, without
   * the distance that follows it — and the suffix; the venue holds no whitespace and
   * is what follows the leading whitespace, up to the next.
   */
  lemma CourseShape(text: string) returns (k: nat, venue: string)
    requires !AllSpace(text)
    ensures Split(text) != [] && venue == Split(text)[0]
    ensures NormalizeCourse(text) == Some(venue + VenueSuffix)
    ensures venue != [] && NoSpace(venue)
    ensures k <= |text| && AllSpace(text[..k]) && WordAt(text, k, venue)
  {
    FirstTokenIsSplitHead(text);
    venue := FirstToken(text).value;
    k := FirstTokenShape(text);
  }

  /** Appending the suffix keeps the prefix: the venue is a JRA one iff the normalised course is. */
  lemma SuffixKeepsPrefix(venue: string)
    ensures StartsWith(venue + VenueSuffix, ExcludedPrefix) <==> StartsWith(venue, ExcludedPrefix)
  {
    var c := venue + VenueSuffix;
    if |venue| < |ExcludedPrefix| {
      assert c[|venue|] == '競';
    } else {
      assert c[..|ExcludedPrefix|] == venue[..|ExcludedPrefix|];
    }
  }

  /** A word is the longest space-free prefix, so it begins with a space-free prefix of its text. */
  lemma WordPrefix(t: string, p: string)
    requires NoSpace(p)
    ensures StartsWith(TakeWord(t), p) <==> StartsWith(t, p)
  {
    var w := TakeWord(t);
    if |w| >= |p| {
      assert t[..|p|] == w[..|p|];
    }
  }

  lemma WordSuffixPrefix(t: string)
    ensures StartsWith(TakeWord(t) + VenueSuffix, ExcludedPrefix) <==> StartsWith(t, ExcludedPrefix)
  {
    SuffixKeepsPrefix(TakeWord(t));
    WordPrefix(t, ExcludedPrefix);
  }

  /** A course text starts, after its leading whitespace, with the JRA prefix iff its normalised form does. */
  lemma CoursePrefixKept(text: string, course: string)
    requires NormalizeCourse(text) == Some(course)
    ensures StartsWith(course, ExcludedPrefix) <==> StartsWith(DropSpaces(text), ExcludedPrefix)
  {
    assert DropSpaces(text) != [];
    WordSuffixPrefix(DropSpaces(text));
  }

  /**
   * `get_race(race, year)`: reads the grade, date, name and course of one race node.
   * The checks run in the order of the source, and the first one that fails decides
   * the error.
   */
  function ParseRace(node: Node, year: int): (r: Result<Race, ParseError>)
    ensures |node.classes| < 2 ==> r == Failure(NoGradeToken)
    ensures |node.classes| >= 2 && node.classes[1] !in Grades.Table ==>
      r == Failure(UnknownGrade(node.classes[1]))
    ensures r.Success? ==>
      && |node.classes| >= 2
      && node.classes[1] in Grades.Table
      && r.value.grade == Grades.Table[node.classes[1]]
    ensures r.Success? ==>
      && node.dateText.Some?
      && DatePattern.MonthDay(node.dateText.value) == Some((r.value.date.month, r.value.date.day))
      && r.value.date.year == year
      && IsValid(r.value.date)
    ensures r.Success? ==> node.nameText == Some(r.value.name)
    ensures r.Success? ==>
      && node.courseText.Some?
      && NormalizeCourse(node.courseText.value) == Some(r.value.course)
  {
    if |node.classes| < 2 then Failure(NoGradeToken)
    else
      var code := node.classes[1];
      var grade :- Grades.Lookup(code).ToResult(UnknownGrade(code));
      var dateText :- node.dateText.ToResult(NoText(DateField));
      var monthDay :- DatePattern.MonthDay(dateText).ToResult(MalformedDate(dateText));
      var date :- MakeDate(year, monthDay.0, monthDay.1)
                    .MapFailure(_ => InvalidDate(Date(year, monthDay.0, monthDay.1)));
      var name :- node.nameText.ToResult(NoText(NameField));
      var courseText :- node.courseText.ToResult(NoText(CourseField));
      var course :- NormalizeCourse(courseText).ToResult(EmptyCourse);
      Success(Race(grade, date, name, course))
  }

  /**
   * Every paragraph of `node` reads: the grade token is in the table, the date text
   * matches and names the existing date `year/month/day`, the name is there and the
   * course text normalizes to `venue`.
   */
  predicate ReadsAs(node: Node, year: int, month: nat, day: nat, venue: string) {
    && |node.classes| >= 2 && node.classes[1] in Grades.Table
    && node.dateText.Some? && DatePattern.MonthDay(node.dateText.value) == Some((month, day))
    && IsValid(Date(year, month, day))
    && node.nameText.Some? && node.courseText.Some?
    && NormalizeCourse(node.courseText.value) == Some(venue)
  }

  /**
   * Conversely, a node whose grade token, date text, name and course text all read
   * gives the record made of what they read.
   */
  lemma ParseRaceComplete(node: Node, year: int, month: nat, day: nat, venue: string)
    requires ReadsAs(node, year, month, day, venue)
    ensures ParseRace(node, year)
         == Success(Race(Grades.Table[node.classes[1]], Date(year, month, day), node.nameText.value, venue))
  {
  }

  /**
   * The error paths after the grade: a missing date text, a date text that does not
   * match, a day the calendar does not have, a missing name, a missing course text and
   * a course text of whitespace only, each checked once the ones before it have passed.
   */
  lemma ParseRaceFailures(node: Node, year: int)
    requires |node.classes| >= 2 && node.classes[1] in Grades.Table
    ensures node.dateText.None? ==> ParseRace(node, year) == Failure(NoText(DateField))
    ensures node.dateText.Some? && DatePattern.MonthDay(node.dateText.value).None? ==>
      ParseRace(node, year) == Failure(MalformedDate(node.dateText.value))
    ensures node.dateText.Some? && DatePattern.MonthDay(node.dateText.value).Some? ==>
      var date := Date(year, DatePattern.MonthDay(node.dateText.value).value.0,
                             DatePattern.MonthDay(node.dateText.value).value.1);
      && (!IsValid(date) ==> ParseRace(node, year) == Failure(InvalidDate(date)))
      && (IsValid(date) && node.nameText.None? ==> ParseRace(node, year) == Failure(NoText(NameField)))
      && (IsValid(date) && node.nameText.Some? && node.courseText.None? ==>
            ParseRace(node, year) == Failure(NoText(CourseField)))
      && (IsValid(date) && node.nameText.Some? && node.courseText.Some? && AllSpace(node.courseText.value) ==>
            ParseRace(node, year) == Failure(EmptyCourse))
  {
  }
}
