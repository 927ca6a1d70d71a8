/**
 * The grade table of the race parser: the second class token of a race list item
 * names the race's grade, and the table gives its display label.
 */
module Grades {
  import opened Wrappers

  /** The class tokens the table knows, each mapped to its display label. */
  const Table: map<string, string> := map[
    "jpn1" := "JpnⅠ", "jpn2" := "JpnⅡ", "jpn3" := "JpnⅢ",
    "g1" := "GⅠ", "g2" := "GⅡ", "g3" := "GⅢ",
    "jpn1Central" := "JpnⅠ",
    "g1Local" := "GⅠ"
  ]

  /** The table's entries, one by one. */
  lemma Entries()
    ensures "jpn1" in Table && Table["jpn1"] == "JpnⅠ"
    ensures "jpn2" in Table && Table["jpn2"] == "JpnⅡ"
    ensures "jpn3" in Table && Table["jpn3"] == "JpnⅢ"
    ensures "g1" in Table && Table["g1"] == "GⅠ"
    ensures "g2" in Table && Table["g2"] == "GⅡ"
    ensures "g3" in Table && Table["g3"] == "GⅢ"
    ensures "jpn1Central" in Table && Table["jpn1Central"] == "JpnⅠ"
    ensures "g1Local" in Table && Table["g1Local"] == "GⅠ"
  {
  }

  /** The grading scheme: a domestic `Jpn` grade or an international `G` grade. */
  datatype Scheme = Jpn | G

  datatype Tier = I | II | III

  /** A grade as the table understands it: a scheme and a tier. */
  datatype Grade = Grade(scheme: Scheme, tier: Tier)

  function TierNumeral(t: Tier): char {
    match t
    case I => 'Ⅰ'
    case II => 'Ⅱ'
    case III => 'Ⅲ'
  }

  /** The display label: the scheme's name followed by the tier's Roman numeral. */
  function Label(g: Grade): string {
    (match g.scheme case Jpn => "Jpn" case G => "G") + [TierNumeral(g.tier)]
  }

  /** The plain class token of a grade: `jpn` or `g`, then the tier's digit. */
  function Code(g: Grade): string {
    (match g.scheme case Jpn => "jpn" case G => "g")
      + (match g.tier case I => "1" case II => "2" case III => "3")
  }

  /** The top tier of each scheme has a second token, naming who runs the race. */
  const CentralJpn1: string := "jpn1Central"
  const LocalG1: string := "g1Local"

  /** `grade_table[grade_code]`: the label, or `None` where Python raises `KeyError`. */
  function Lookup(code: string): Option<string> {
    if code in Table then Some(Table[code]) else None
  }

  /** Every plain grade token maps to the grade's own label. */
  lemma PlainCodes(g: Grade)
    ensures Lookup(Code(g)) == Some(Label(g))
  {
    var code, shown := Code(g), Label(g);
    match g.scheme
    case Jpn => {
      match g.tier
      case I => { assert code == "jpn1" && shown == "JpnⅠ"; }
      case II => { assert code == "jpn2" && shown == "JpnⅡ"; }
      case III => { assert code == "jpn3" && shown == "JpnⅢ"; }
    }
    case G => {
      match g.tier
      case I => { assert code == "g1" && shown == "GⅠ"; }
      case II => { assert code == "g2" && shown == "GⅡ"; }
      case III => { assert code == "g3" && shown == "GⅢ"; }
    }
  }

  /** The two administrative variants collapse onto the plain top-tier labels. */
  lemma VariantCodes()
    ensures Lookup(CentralJpn1) == Some(Label(Grade(Jpn, I))) == Lookup("jpn1")
    ensures Lookup(LocalG1) == Some(Label(Grade(G, I))) == Lookup("g1")
  {
    assert Label(Grade(Jpn, I)) == "JpnⅠ";
    assert Label(Grade(G, I)) == "GⅠ";
  }

  /** The table knows the six plain tokens and the two variants, and nothing else. */
  lemma KnownCodes(code: string)
    ensures Lookup(code).Some? <==>
      (exists g: Grade :: Code(g) == code) || code == CentralJpn1 || code == LocalG1
  {
    if code in Table && code != CentralJpn1 && code != LocalG1 {
      var g: Grade :=
        if code == "jpn1" then Grade(Jpn, I) else if code == "jpn2" then Grade(Jpn, II)
        else if code == "jpn3" then Grade(Jpn, III) else if code == "g1" then Grade(G, I)
        else if code == "g2" then Grade(G, II) else Grade(G, III);
      assert Code(g) == code;
    }
    if exists g: Grade :: Code(g) == code {
      var g: Grade :| Code(g) == code;
      PlainCodes(g);
    }
  }

  /** Distinct grades have distinct labels. */
  lemma LabelInjective(g: Grade, h: Grade)
    requires Label(g) == Label(h)
    ensures g == h
  {
    var lg, lh := Label(g), Label(h);
    assert lg[|lg| - 1] == TierNumeral(g.tier);
    assert lh[|lh| - 1] == TierNumeral(h.tier);
    assert |lg| == |lh|;
  }

  /**
   * The table is many-to-one only where intended: two tokens share a label exactly when
   * they are equal or are a plain top-tier token and its administrative variant.
   */
  lemma SameLabel(a: string, b: string)
    requires Lookup(a).Some? && Lookup(b).Some?
    ensures Lookup(a) == Lookup(b) <==>
      || a == b
      || (a in {"jpn1", CentralJpn1} && b in {"jpn1", CentralJpn1})
      || (a in {"g1", LocalG1} && b in {"g1", LocalG1})
  {
  }

  /** No label holds a parenthesis, so a label can be read back out of `name(label)`. */
  lemma LabelsHaveNoParens(code: string)
    requires Lookup(code).Some?
    ensures '(' !in Lookup(code).value && ')' !in Lookup(code).value
  {
  }
}
