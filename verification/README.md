# dirtschedule2ics — a Dafny model of the race list extractor

dirtschedule2ics turns the dirt-grade race schedule page of the Japanese regional
racing association into an iCalendar file. Its core is three functions:

- `get_racelist` reads the year from the page heading `レース一覧（YYYY年）`. It parses
  every `<li class="race ...">` item and drops the races whose venue starts with `JRA`.
- `get_race` reads one item:
  - the grade, from the second class token through an eight-entry grade table;
  - the date, from a `M/D（note）` paragraph and the year;
  - the race name;
  - the venue, which is the first whitespace-separated token of the course paragraph
    followed by `競馬場`.
- `race2event` maps a record to an all-day `VEVENT`. It sets SUMMARY `name(grade)`,
  DTSTART and DTEND set to the date, LOCATION set to the venue, and TRANSP set to
  `TRANSPARENT`. DTEND is the race date itself, as the code sets it. The model does not
  move it to the following day, which the non-inclusive end of section 3.8.2.2 of
  RFC 5545 would suggest.

The model works on an abstract view of the page:
- A race item is a `Node`: its class tokens and the texts of its date, name and course
  paragraphs.
- The heading is an optional text.
- Every Python exception the core can raise becomes a `ParseError` value. The checks
  run in source order, so the first failing check decides the error.
- `get_racelist` takes the year from a `YearSource`:
  - `FromHeading` reads it from the `h3`, as the code does;
  - `Fixed` is the variant with a fixed year that the repository's tests exercise.

Modules:
- `Wrappers`: `Option`, `Result`, and the all-or-nothing map.
- `Text`: ASCII digits, and the whitespace of Python's `str.isspace`, as `str.split()` uses it.
- `Calendar`: the dates `datetime` accepts.
- `Grades`: the grade table.
- `DatePattern`: the date regular expression.
- `RaceParser`: `get_race`.
- `RaceList`: `get_racelist`.
- `Events`: `race2event`, with the DATE text of RFC 5545.
- `Scenarios`: the repository's tests, as lemmas.

Two facts about the code that the model keeps:
- The year comes from the first `h3` only (`soup.h3`, dirtschedule2ics.py:35). A second
  heading is neither looked for nor rejected.
- Every failure is one `ParseError` type with one constructor per cause.

## Model

| member | source | states |
|---|---|---|
| Wrappers.MapAll | dirtschedule2ics/dirtschedule2ics.py:39 | The list succeeds iff every element's parse does. On success it has one result per element, in order. On failure the error is the first failing element's. |
| Text.Split | dirtschedule2ics/dirtschedule2ics.py:54 | `str.split()` yields nonempty tokens with no whitespace. It yields no token exactly when the text is all whitespace. |
| Text.SplitWholeWords | dirtschedule2ics/dirtschedule2ics.py:54 | Each token is a whole word of the text: it starts the text or follows whitespace, and ends the text or precedes whitespace. The tokens occur left to right. With the next row this determines `str.split()`. |
| Text.SplitLosesOnlySpaces | dirtschedule2ics/dirtschedule2ics.py:54 | The tokens, concatenated, are exactly the text's non-whitespace characters in order. |
| Text.FirstToken | dirtschedule2ics/dirtschedule2ics.py:54 | There is a first token iff the text is not all whitespace. The token is nonempty and has no whitespace. |
| Text.FirstTokenIsSplitHead | dirtschedule2ics/dirtschedule2ics.py:54 | The first token is `split()[0]`. It is absent exactly where `split()[0]` raises IndexError. |
| Text.FirstTokenShape | dirtschedule2ics/dirtschedule2ics.py:54 | The first token comes right after the leading whitespace. It runs up to the next whitespace character or the end of the text. |
| Text.FixedDigits | dirtschedule2ics/dirtschedule2ics.py:65-66 | `%0Nd` of a number below 10^N has N digits and reads back as the number. |
| Calendar.MakeDate | dirtschedule2ics/dirtschedule2ics.py:52 | `datetime(year, month, day)` succeeds iff the date exists in the Gregorian calendar within years 1..9999. It reports the year first, then the month. |
| Calendar.LeapDay | dirtschedule2ics/dirtschedule2ics.py:52 | The 29th of February exists iff the year is a leap year. |
| Calendar.ThirtyFirst | dirtschedule2ics/dirtschedule2ics.py:52 | The 31st exists iff the month is one of the seven long months. |
| Calendar.EarlyDaysAlwaysValid | dirtschedule2ics/dirtschedule2ics.py:52 | Days 1 to 28 exist in every month of every supported year. |
| Calendar.DayExists | dirtschedule2ics/dirtschedule2ics.py:52 | Outside February, every day up to 30 or 31 exists, whatever the year. |
| Calendar.YearLength | dirtschedule2ics/dirtschedule2ics.py:52 | The month lengths add up to 366 in a leap year and to 365 otherwise. |
| Grades.PlainCodes | dirtschedule2ics/dirtschedule2ics.py:46-49 | Each of the six tokens `jpn1`..`g3` maps to its scheme name followed by its tier's Roman numeral. |
| Grades.VariantCodes | dirtschedule2ics/dirtschedule2ics.py:46-48 | `jpn1Central` maps to the label of `jpn1`, and `g1Local` to that of `g1`. |
| Grades.KnownCodes | dirtschedule2ics/dirtschedule2ics.py:49 | The lookup succeeds iff the token is a plain grade token or one of the two variants. Every other token raises KeyError. |
| Grades.LabelInjective | dirtschedule2ics/dirtschedule2ics.py:46-48 | Distinct grades have distinct labels. |
| Grades.SameLabel | dirtschedule2ics/dirtschedule2ics.py:46-49 | Two known tokens share a label iff they are equal, or are a top-tier token and its variant. |
| Grades.LabelsHaveNoParens | dirtschedule2ics/dirtschedule2ics.py:46-48 | No label holds a parenthesis. |
| DatePattern.Match | dirtschedule2ics/dirtschedule2ics.py:51 | A full match captures 1–2 digits, `/`, 1–2 digits, and `（note）` with a nonempty note that has no line feed. The captures re-assemble to the text. |
| DatePattern.MatchComplete | dirtschedule2ics/dirtschedule2ics.py:51 | Every text of that shape matches, and the captures are its parts. |
| DatePattern.MatchExactly | dirtschedule2ics/dirtschedule2ics.py:51 | The match yields given captures iff they are well formed and assemble to the text. |
| DatePattern.MonthDay | dirtschedule2ics/dirtschedule2ics.py:51-52 | Month and day values read from the captures are at most 99. |
| DatePattern.NoteIgnored | dirtschedule2ics/dirtschedule2ics.py:51-52 | Texts that differ only in the note give the same month and day, namely the captures' values. |
| RaceParser.NormalizeCourse | dirtschedule2ics/dirtschedule2ics.py:54 | The venue is absent iff the course text is all whitespace. When present it ends with `競馬場`. |
| RaceParser.CourseShape | dirtschedule2ics/dirtschedule2ics.py:54 | The venue is `split()[0]` followed by `競馬場`. `split()[0]` is the space-free word after the leading whitespace, so the distance is dropped. |
| RaceParser.CoursePrefixKept | dirtschedule2ics/dirtschedule2ics.py:54 | The normalised course starts with `JRA` iff the course text does, once leading whitespace is skipped. |
| RaceParser.ParseRace | dirtschedule2ics/dirtschedule2ics.py:43-58 | Fewer than two class tokens, or an unknown second token, gives that error. On success the grade is the table's label, and the date is the supplied year with the matched month and day, an existing date. The name is the paragraph's text, and the course is the normalised course text. |
| RaceParser.ParseRaceComplete | dirtschedule2ics/dirtschedule2ics.py:43-58 | A node whose grade, date, name and course all read gives exactly the record of what they read. |
| RaceParser.ParseRaceFailures | dirtschedule2ics/dirtschedule2ics.py:50-54 | Once the grade reads, the errors come in source order: missing date text, non-matching date, non-existent date, missing name, missing course text, whitespace-only course. |
| RaceList.DropExcluded | dirtschedule2ics/dirtschedule2ics.py:39-40 | No kept record starts with `JRA`. A record is kept iff it is in the input and does not start with `JRA`. |
| RaceList.DropExcludedKeepsOrder | dirtschedule2ics/dirtschedule2ics.py:39-40 | The kept records form a subsequence of the input. |
| RaceList.DropExcludedCounts | dirtschedule2ics/dirtschedule2ics.py:39-40 | Each non-JRA record is kept as often as it occurs. JRA records never occur. |
| RaceList.DropExcludedAppend | dirtschedule2ics/dirtschedule2ics.py:39-40 | Filtering a concatenation is concatenating the filtered parts. |
| RaceList.ParseRaces | dirtschedule2ics/dirtschedule2ics.py:39-40 | The list succeeds iff every node parses, and it fails with the first failing node's error. Its records carry the page's year and none starts with `JRA`. |
| RaceList.NodeKeptIff | dirtschedule2ics/dirtschedule2ics.py:39-40 | A node's record is in the list iff its course text does not start with `JRA` after leading whitespace. |
| RaceList.ParseRacesOrder | dirtschedule2ics/dirtschedule2ics.py:39-40 | The list keeps the node order of the records it keeps. |
| RaceList.HeadingDigits | dirtschedule2ics/dirtschedule2ics.py:36 | A heading that fully matches `レース一覧（(\d{4})年）` captures four digits, and the heading is prefix, digits, suffix. |
| RaceList.HeadingYear | dirtschedule2ics/dirtschedule2ics.py:35-37 | A missing heading is an error. A read year lies in 0..9999. |
| RaceList.HeadingYearExactly | dirtschedule2ics/dirtschedule2ics.py:36-37 | A heading yields the number of `dddd` iff it is exactly `レース一覧（dddd年）`. |
| RaceList.GetRaceList | dirtschedule2ics/dirtschedule2ics.py:31-40 | A year error aborts before any node is parsed. Otherwise the result is the race list for the year. |
| Events.RaceToEvent | dirtschedule2ics/dirtschedule2ics.py:68 | Every event is transparent. |
| Events.DateValue | dirtschedule2ics/dirtschedule2ics.py:65-66 | `vDate.to_ical()` of a date is eight digits. |
| Events.DateValueRoundTrip | dirtschedule2ics/dirtschedule2ics.py:65-66 | Reading a date's text gives the date back. |
| Events.ParseDateValueSound | dirtschedule2ics/dirtschedule2ics.py:65-66 | Every text that reads as a date is that date's text. |
| Events.DateValueInjective | dirtschedule2ics/dirtschedule2ics.py:65-66 | Distinct dates have distinct texts. |
| Events.EventDates | dirtschedule2ics/dirtschedule2ics.py:65-67 | DTSTART and DTEND have the same text, which reads back as the race's date. LOCATION is the venue. |
| Events.GradeLabels | dirtschedule2ics/dirtschedule2ics.py:46-48 | The table's labels are the six labels JpnⅠ..GⅢ. |
| Events.SchemeMarker | dirtschedule2ics/dirtschedule2ics.py:64 | In `name(grade)`, the fourth character from the end is `(` iff the grade is a two-character `G` label. |
| Events.SummaryInjective | dirtschedule2ics/dirtschedule2ics.py:64 | `name(grade)` determines the name and the grade, for table labels. |
| Events.RaceToEventInjective | dirtschedule2ics/dirtschedule2ics.py:61-69 | Distinct records with table grades give distinct events. |
| Scenarios.GetRaceTck | tests/test_dirtschedule2ics.py:38-52 | The `jpn3 mare` item at 大井 on 1/24 gives JpnⅢ, 1/24, TCK女王盃, 大井競馬場. |
| Scenarios.GetRaceFurikae | tests/test_dirtschedule2ics.py:54-68 | The note 振月 is accepted: 4/30, JpnⅢ, かきつばた記念, 名古屋競馬場. |
| Scenarios.GetRaceJpn1Central | tests/test_dirtschedule2ics.py:70-84 | `jpn1Central` gives JpnⅠ, and the parser keeps the JRA venue JRA京都競馬場. |
| Scenarios.GetRaceG1Local | tests/test_dirtschedule2ics.py:86-100 | `g1Local` gives GⅠ, on 12/29 at 大井競馬場. |
| Scenarios.GetRaceTokai | tests/test_dirtschedule2ics.py:12-17 | The first list item parses to a GⅡ record at JRA中京競馬場. |
| Scenarios.GetRaceKawasaki | tests/test_dirtschedule2ics.py:24-29 | The third list item parses to a JpnⅠ record at 川崎競馬場. |
| Scenarios.ParseRacesThreeNodes | tests/test_dirtschedule2ics.py:10-36 | The three-item list loses the JRA race and keeps the other two in order. |
| Scenarios.GetRaceListFixed2018 | tests/test_dirtschedule2ics.py:31-36 | With the year fixed at 2018 the list has two records. The first is (JpnⅢ, 2018-01-24, TCK女王盃, 大井競馬場). |
| Scenarios.HeadingMissing | tests/test_dirtschedule2ics.py:10-31 | The test page has no `h3`, so reading the year from the heading fails. |
| Scenarios.HeadingYear2018 | dirtschedule2ics/dirtschedule2ics.py:35-37 | The heading `レース一覧（2018年）` gives 2018. |
| Scenarios.LeapDayRace | dirtschedule2ics/dirtschedule2ics.py:52 | A 2/29 item parses iff the year is a leap year. Otherwise it fails with that invalid date. |
| Scenarios.TckDateValue | tests/test_dirtschedule2ics.py:107-108 | The DATE text of 2018-01-24 is `20180124`. |
| Scenarios.RaceToEventTck | tests/test_dirtschedule2ics.py:102-109 | The test record's event has summary `TCK女王盃(JpnⅢ)`, both dates `20180124` and location `大井競馬場`. |

## Left out

- `main`: it covers argument parsing, the HTTP fetch, the `Calendar` container and writing the output. These are I/O around the core.
- BeautifulSoup: HTML parsing and the element search are outside the model. A race item comes in as a `Node`, and the heading comes in as an optional text.
- `.string`: a text is `None` both when the paragraph is missing and when `.string` is `None`, and the model reports one error per paragraph for both. In Python the two cases differ by paragraph:
  - date: a missing paragraph raises AttributeError (line 50), and a `None` string raises TypeError in `re.fullmatch` (line 51);
  - name: a missing paragraph raises AttributeError, and a `None` string raises nothing (line 53; see RaceParser.ParseRace below);
  - course: both raise AttributeError (line 54).
- iCalendar serialisation: line folding, escaping and the `VALUE=DATE` parameter are not modelled. The model keeps only the property values and the DATE text. The source's events carry no UID or DTSTAMP, and the model has none either.
- Exception types: each raised exception is one `ParseError` constructor. Messages and tracebacks are not modelled.
- Text.IsDigit: `\d` and `int()` also accept non-ASCII decimal digits, but the model accepts only `0`–`9`.
- RaceParser.ParseRace: a name paragraph whose `.string` is `None` fails in the model with a missing-name error. The source raises nothing there and builds a record whose name is `None`. In `get_racelist` that record is then dropped without error when its venue starts with `JRA` (lines 39-40), and returned in the list otherwise; only a later `race2event` on it raises TypeError (line 64). So for such an item RaceList.ParseRaces and RaceList.GetRaceList fail where the source returns a list.
- The tests' year: the tests call `get_race` without a year and expect 2018. The per-item lemmas hold for every year from 1 to 9999, and the list lemma uses the year 2018 as a fixed value.
- Determinism and idempotence: they hold by construction for pure functions, so no lemma states them.
