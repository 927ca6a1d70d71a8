/**
 * Concrete runs of the pipeline on the race list items of the repository's tests.
 * The per-race runs hold for every year the calendar supports; the tests' own year,
 * 2018, is the one the fixed-year list variant uses.
 */
module Scenarios {
  import opened Wrappers
  import opened Text
  import opened Calendar
  import opened RaceParser
  import opened RaceList
  import opened Events
  import DatePattern

  const Tokai: Node := Node(["race", "g2"], Some("1/21（日）"), Some("東海ステークス"), Some("JRA中京 1800m"))
  const TckJoouhai: Node := Node(["race", "jpn3", "mare"], Some("1/24（水）"), Some("TCK女王盃"), Some("大井 1800m"))
  const KawasakiKinen: Node := Node(["race", "jpn1"], Some("1/31（水）"), Some("川崎記念"), Some("川崎 2100m"))
  const Kakitsubata: Node := Node(["race", "jpn3"], Some("4/30（振月）"), Some("かきつばた記念"), Some("名古屋 1400m"))
  const JbcSprint: Node := Node(["race", "jpn1Central"], Some("11/4（日）"), Some("JBCスプリント"), Some("JRA京都 1200m"))
  const TokyoDaishoten: Node := Node(["race", "g1Local"], Some("12/29（土）"), Some("東京大賞典"), Some("大井 2000m"))

  const TckRace: Race := Race("JpnⅢ", Date(2018, 1, 24), "TCK女王盃", "大井競馬場")

  lemma CourseOf(text: string, venue: string, distance: string, course: string)
    requires venue != [] && NoSpace(venue)
    requires text == venue + " " + distance && course == venue + VenueSuffix
    ensures NormalizeCourse(text) == Some(course)
  {
    assert text == venue + (" " + distance);
    FirstTokenOfWord(venue, " " + distance);
  }

  /** What the date and course paragraphs of each test node read as. */
  lemma TokaiDate()
    ensures DatePattern.MonthDay(Tokai.dateText.value) == Some((1, 21))
  {
    DatePattern.MatchComplete(DatePattern.DateMatch("1", "21", "日"));
    assert DatePattern.Unparse(DatePattern.DateMatch("1", "21", "日")) == "1/21（日）";
    assert "21"[..1] == "2" && DigitsValue("2") == 2;
    assert DigitsValue("21") == 21;
  }

  lemma TokaiCourse()
    ensures NormalizeCourse(Tokai.courseText.value) == Some("JRA中京競馬場")
  {
    CourseOf("JRA中京 1800m", "JRA中京", "1800m", "JRA中京競馬場");
  }

  lemma TckDate()
    ensures DatePattern.MonthDay(TckJoouhai.dateText.value) == Some((1, 24))
  {
    DatePattern.MatchComplete(DatePattern.DateMatch("1", "24", "水"));
    assert DatePattern.Unparse(DatePattern.DateMatch("1", "24", "水")) == "1/24（水）";
    assert "24"[..1] == "2" && DigitsValue("2") == 2;
    assert DigitsValue("24") == 24;
  }

  lemma TckCourse()
    ensures NormalizeCourse(TckJoouhai.courseText.value) == Some("大井競馬場")
  {
    CourseOf("大井 1800m", "大井", "1800m", "大井競馬場");
  }

  lemma KawasakiDate()
    ensures DatePattern.MonthDay(KawasakiKinen.dateText.value) == Some((1, 31))
  {
    DatePattern.MatchComplete(DatePattern.DateMatch("1", "31", "水"));
    assert DatePattern.Unparse(DatePattern.DateMatch("1", "31", "水")) == "1/31（水）";
    assert "31"[..1] == "3" && DigitsValue("3") == 3;
    assert DigitsValue("31") == 31;
  }

  lemma KawasakiCourse()
    ensures NormalizeCourse(KawasakiKinen.courseText.value) == Some("川崎競馬場")
  {
    CourseOf("川崎 2100m", "川崎", "2100m", "川崎競馬場");
  }

  lemma KakitsubataDate()
    ensures DatePattern.MonthDay(Kakitsubata.dateText.value) == Some((4, 30))
  {
    DatePattern.MatchComplete(DatePattern.DateMatch("4", "30", "振月"));
    assert DatePattern.Unparse(DatePattern.DateMatch("4", "30", "振月")) == "4/30（振月）";
    assert "30"[..1] == "3" && DigitsValue("3") == 3;
    assert DigitsValue("30") == 30;
  }

  lemma KakitsubataCourse()
    ensures NormalizeCourse(Kakitsubata.courseText.value) == Some("名古屋競馬場")
  {
    CourseOf("名古屋 1400m", "名古屋", "1400m", "名古屋競馬場");
  }

  lemma JbcDate()
    ensures DatePattern.MonthDay(JbcSprint.dateText.value) == Some((11, 4))
  {
    DatePattern.MatchComplete(DatePattern.DateMatch("11", "4", "日"));
    assert DatePattern.Unparse(DatePattern.DateMatch("11", "4", "日")) == "11/4（日）";
    assert "11"[..1] == "1" && DigitsValue("1") == 1;
    assert DigitsValue("11") == 11;
  }

  lemma JbcCourse()
    ensures NormalizeCourse(JbcSprint.courseText.value) == Some("JRA京都競馬場")
  {
    CourseOf("JRA京都 1200m", "JRA京都", "1200m", "JRA京都競馬場");
  }

  lemma DaishotenDate()
    ensures DatePattern.MonthDay(TokyoDaishoten.dateText.value) == Some((12, 29))
  {
    DatePattern.MatchComplete(DatePattern.DateMatch("12", "29", "土"));
    assert DatePattern.Unparse(DatePattern.DateMatch("12", "29", "土")) == "12/29（土）";
    assert "12"[..1] == "1" && DigitsValue("1") == 1;
    assert DigitsValue("12") == 12;
    assert "29"[..1] == "2" && DigitsValue("2") == 2;
    assert DigitsValue("29") == 29;
  }

  lemma DaishotenCourse()
    ensures NormalizeCourse(TokyoDaishoten.courseText.value) == Some("大井競馬場")
  {
    CourseOf("大井 2000m", "大井", "2000m", "大井競馬場");
  }

  lemma TckReads(year: int)
    requires MinYear <= year <= MaxYear
    ensures ReadsAs(TckJoouhai, year, 1, 24, "大井競馬場")
  {
    TckDate();
    TckCourse();
    Grades.Entries();
    DayExists(year, 1, 24);
  }

  /** `test_get_race`: the `jpn3` race at 大井 on 1/24, in whatever year the caller supplies. */
  lemma GetRaceTck(year: int)
    requires MinYear <= year <= MaxYear
    ensures ParseRace(TckJoouhai, year) == Success(Race("JpnⅢ", Date(year, 1, 24), "TCK女王盃", "大井競馬場"))
  {
    TckReads(year);
    Grades.Entries();
    ParseRaceComplete(TckJoouhai, year, 1, 24, "大井競馬場");
  }

  lemma KakitsubataReads(year: int)
    requires MinYear <= year <= MaxYear
    ensures ReadsAs(Kakitsubata, year, 4, 30, "名古屋競馬場")
  {
    KakitsubataDate();
    KakitsubataCourse();
    Grades.Entries();
    DayExists(year, 4, 30);
  }

  /** `test_get_race_furikae`: the note 振月 is accepted and ignored. */
  lemma GetRaceFurikae(year: int)
    requires MinYear <= year <= MaxYear
    ensures ParseRace(Kakitsubata, year) == Success(Race("JpnⅢ", Date(year, 4, 30), "かきつばた記念", "名古屋競馬場"))
  {
    KakitsubataReads(year);
    Grades.Entries();
    ParseRaceComplete(Kakitsubata, year, 4, 30, "名古屋競馬場");
  }

  lemma JbcReads(year: int)
    requires MinYear <= year <= MaxYear
    ensures ReadsAs(JbcSprint, year, 11, 4, "JRA京都競馬場")
  {
    JbcDate();
    JbcCourse();
    Grades.Entries();
    DayExists(year, 11, 4);
  }

  /** `test_get_race_jpn1Central`: the parser does not filter, so the JRA venue stays. */
  lemma GetRaceJpn1Central(year: int)
    requires MinYear <= year <= MaxYear
    ensures ParseRace(JbcSprint, year) == Success(Race("JpnⅠ", Date(year, 11, 4), "JBCスプリント", "JRA京都競馬場"))
  {
    JbcReads(year);
    Grades.Entries();
    ParseRaceComplete(JbcSprint, year, 11, 4, "JRA京都競馬場");
  }

  lemma DaishotenReads(year: int)
    requires MinYear <= year <= MaxYear
    ensures ReadsAs(TokyoDaishoten, year, 12, 29, "大井競馬場")
  {
    DaishotenDate();
    DaishotenCourse();
    Grades.Entries();
    DayExists(year, 12, 29);
  }

  /** `test_get_race_g1Local`. */
  lemma GetRaceG1Local(year: int)
    requires MinYear <= year <= MaxYear
    ensures ParseRace(TokyoDaishoten, year) == Success(Race("GⅠ", Date(year, 12, 29), "東京大賞典", "大井競馬場"))
  {
    DaishotenReads(year);
    Grades.Entries();
    ParseRaceComplete(TokyoDaishoten, year, 12, 29, "大井競馬場");
  }

  lemma TokaiReads(year: int)
    requires MinYear <= year <= MaxYear
    ensures ReadsAs(Tokai, year, 1, 21, "JRA中京競馬場")
  {
    TokaiDate();
    TokaiCourse();
    Grades.Entries();
    DayExists(year, 1, 21);
  }

  /** The first node of `test_get_racelist`, a JRA race. */
  lemma GetRaceTokai(year: int)
    requires MinYear <= year <= MaxYear
    ensures ParseRace(Tokai, year) == Success(Race("GⅡ", Date(year, 1, 21), "東海ステークス", "JRA中京競馬場"))
  {
    TokaiReads(year);
    Grades.Entries();
    ParseRaceComplete(Tokai, year, 1, 21, "JRA中京競馬場");
  }

  lemma KawasakiReads(year: int)
    requires MinYear <= year <= MaxYear
    ensures ReadsAs(KawasakiKinen, year, 1, 31, "川崎競馬場")
  {
    KawasakiDate();
    KawasakiCourse();
    Grades.Entries();
    DayExists(year, 1, 31);
  }

  /** The third node of `test_get_racelist`. */
  lemma GetRaceKawasaki(year: int)
    requires MinYear <= year <= MaxYear
    ensures ParseRace(KawasakiKinen, year) == Success(Race("JpnⅠ", Date(year, 1, 31), "川崎記念", "川崎競馬場"))
  {
    KawasakiReads(year);
    Grades.Entries();
    ParseRaceComplete(KawasakiKinen, year, 1, 31, "川崎競馬場");
  }

  function TestRaces(year: int): seq<Race> {
    [Race("GⅡ", Date(year, 1, 21), "東海ステークス", "JRA中京競馬場"),
     Race("JpnⅢ", Date(year, 1, 24), "TCK女王盃", "大井競馬場"),
     Race("JpnⅠ", Date(year, 1, 31), "川崎記念", "川崎競馬場")]
  }

  lemma MapAllTriple<A, B, E>(a: A, b: A, c: A, f: A -> Result<B, E>, ra: B, rb: B, rc: B)
    requires f(a) == Success(ra) && f(b) == Success(rb) && f(c) == Success(rc)
    ensures MapAll([a, b, c], f) == Success([ra, rb, rc])
  {
    assert MapAll([], f) == Success([]);
    MapAllCons(c, [], f, rc, []);
    assert [c] + [] == [c] && [rc] + [] == [rc];
    MapAllCons(b, [c], f, rb, [rc]);
    assert [b] + [c] == [b, c] && [rb] + [rc] == [rb, rc];
    MapAllCons(a, [b, c], f, ra, [rb, rc]);
    assert [a] + [b, c] == [a, b, c] && [ra] + [rb, rc] == [ra, rb, rc];
  }

  lemma ParseAllThreeNodes(year: int)
    requires MinYear <= year <= MaxYear
    ensures ParseAll([Tokai, TckJoouhai, KawasakiKinen], year) == Success(TestRaces(year))
  {
    var races := TestRaces(year);
    GetRaceTokai(year);
    GetRaceTck(year);
    GetRaceKawasaki(year);
    MapAllTriple(Tokai, TckJoouhai, KawasakiKinen, (n: Node) => ParseRace(n, year), races[0], races[1], races[2]);
    assert [races[0], races[1], races[2]] == races;
  }

  lemma DropExcludedTestRaces(year: int)
    ensures DropExcluded(TestRaces(year)) == TestRaces(year)[1..]
  {
    var races := TestRaces(year);
    assert IsExcluded(races[0]) by { assert races[0].course[..3] == "JRA"; }
    assert !IsExcluded(races[1]) by { assert races[1].course[0] == '大'; }
    assert !IsExcluded(races[2]) by { assert races[2].course[0] == '川'; }
    assert races[1..][1..] == [races[2]];
    assert [races[2]][1..] == [];
  }

  /** `test_get_racelist`: the JRA race is left out and the other two keep their order. */
  lemma ParseRacesThreeNodes(year: int)
    requires MinYear <= year <= MaxYear
    ensures ParseRaces([Tokai, TckJoouhai, KawasakiKinen], year)
         == Success([Race("JpnⅢ", Date(year, 1, 24), "TCK女王盃", "大井競馬場"),
                     Race("JpnⅠ", Date(year, 1, 31), "川崎記念", "川崎競馬場")])
  {
    ParseAllThreeNodes(year);
    DropExcludedTestRaces(year);
    assert TestRaces(year)[1..] == [Race("JpnⅢ", Date(year, 1, 24), "TCK女王盃", "大井競馬場"),
                                    Race("JpnⅠ", Date(year, 1, 31), "川崎記念", "川崎競馬場")];
  }

  /** The same list through the fixed-year variant the test calls: two records, 大井 first. */
  lemma GetRaceListFixed2018()
    ensures var r := GetRaceList(Fixed(2018), [Tokai, TckJoouhai, KawasakiKinen]);
      && r.Success? && |r.value| == 2
      && r.value[0] == TckRace
      && r.value[1].course == "川崎競馬場"
  {
    ParseRacesThreeNodes(2018);
  }

  /** The page of `test_get_racelist` has no `h3`, so the heading-reading version fails on it. */
  lemma HeadingMissing()
    ensures GetRaceList(FromHeading(None), [Tokai, TckJoouhai, KawasakiKinen]) == Failure(NoHeading)
  {
  }

  /** The heading `レース一覧（2018年）` gives the year 2018. */
  lemma DigitsOf2018()
    ensures AllDigits("2018") && DigitsValue("2018") == 2018
  {
    assert "2"[..0] == "" && DigitsValue("2") == 2;
    assert "20"[..1] == "2" && DigitsValue("20") == 20;
    assert "201"[..2] == "20" && DigitsValue("201") == 201;
    assert "2018"[..3] == "201";
  }

  lemma HeadingYear2018()
    ensures HeadingYear(Some("レース一覧（2018年）")) == Success(2018)
  {
    assert "レース一覧（2018年）" == HeadingPrefix + "2018" + HeadingSuffix;
    DigitsOf2018();
    HeadingYearExactly("レース一覧（2018年）", "2018");
  }

  /** A `jpn3` race at 大井 on the 29th of February. */
  const LeapNode: Node := Node(["race", "jpn3"], Some("2/29（木）"), Some("x"), Some("大井 1800m"))

  lemma LeapNodeDate()
    ensures DatePattern.MonthDay(LeapNode.dateText.value) == Some((2, 29))
  {
    DatePattern.MatchComplete(DatePattern.DateMatch("2", "29", "木"));
    assert DatePattern.Unparse(DatePattern.DateMatch("2", "29", "木")) == "2/29（木）";
    assert "29"[..1] == "2" && DigitsValue("2") == 2;
    assert DigitsValue("29") == 29;
  }

  lemma LeapNodeCourse()
    ensures NormalizeCourse(LeapNode.courseText.value) == Some("大井競馬場")
  {
    CourseOf("大井 1800m", "大井", "1800m", "大井競馬場");
  }

  /** A race dated 2/29 aborts the list in a common year and parses in a leap year. */
  lemma LeapDayRace(year: int)
    requires MinYear <= year <= MaxYear
    ensures ParseRace(LeapNode, year).Success? <==> IsLeapYear(year)
    ensures !IsLeapYear(year) ==> ParseRace(LeapNode, year) == Failure(InvalidDate(Date(year, 2, 29)))
  {
    LeapNodeDate();
    Grades.Entries();
    LeapDay(year);
    if IsLeapYear(year) {
      LeapNodeCourse();
      ParseRaceComplete(LeapNode, year, 2, 29, "大井競馬場");
    } else {
      ParseRaceFailures(LeapNode, year);
    }
  }

  /** `test_race2event`. */
  lemma RaceToEventTck()
    ensures var e := RaceToEvent(TckRace);
      && e.summary == "TCK女王盃(JpnⅢ)"
      && DateValue(e.dtStart) == "20180124"
      && DateValue(e.dtEnd) == "20180124"
      && e.location == "大井競馬場"
  {
    TckDateValue();
    assert TckRace.name + "(" + TckRace.grade + ")" == "TCK女王盃(JpnⅢ)";
  }

  /** `vDate(date(2018, 1, 24)).to_ical()` is `20180124`. */
  lemma TckDateValue()
    ensures DateValue(Date(2018, 1, 24)) == "20180124"
  {
    DigitsOf2018();
    DigitsValueInjective(FixedDigits(2018, 4), "2018");
    assert "01"[..1] == "0" && DigitsValue("01") == 1;
    DigitsValueInjective(FixedDigits(1, 2), "01");
    assert "24"[..1] == "2" && DigitsValue("24") == 24;
    DigitsValueInjective(FixedDigits(24, 2), "24");
    assert "2018" + "01" + "24" == "20180124";
  }
}
