/**
 * The race date text `M/D（note）`: one or two digits of month, a slash, one or two
 * digits of day, and a non-empty note in full-width parentheses, which is discarded.
 * This is a full match of the regular expression `(\d{1,2})/(\d{1,2})（.+）`.
 */
module DatePattern {
  import opened Wrappers
  import opened Text

  /** The full-width parentheses around the note (U+FF08 and U+FF09). */
  const Open: char := '（'
  const Close: char := '）'

  /** The three captured parts of a matching date text. */
  datatype DateMatch = DateMatch(month: string, day: string, note: string)

  /** What `\d{1,2}` matches. */
  predicate IsNumeral(s: string) {
    1 <= |s| <= 2 && AllDigits(s)
  }

  /** What `.+` matches: at least one character, none of them a line feed. */
  predicate IsNote(s: string) {
    |s| >= 1 && forall i :: 0 <= i < |s| ==> s[i] != '\n'
  }

  predicate WellFormed(m: DateMatch) {
    IsNumeral(m.month) && IsNumeral(m.day) && IsNote(m.note)
  }

  /** The text a match was read from. */
  function Unparse(m: DateMatch): string {
    m.month + "/" + m.day + [Open] + m.note + [Close]
  }

  /** Splits `s` into a leading one- or two-digit numeral and what follows the separator after it. */
  function LeadingNumeral(s: string, sep: char): (r: Option<(string, string)>)
    requires !IsDigit(sep)
    ensures r.Some? ==> IsNumeral(r.value.0) && s == r.value.0 + [sep] + r.value.1
  {
    if |s| >= 2 && IsDigit(s[0]) && s[1] == sep then
      Some((s[..1], s[2..]))
    else if |s| >= 3 && IsDigit(s[0]) && IsDigit(s[1]) && s[2] == sep then
      Some((s[..2], s[3..]))
    else
      None
  }

  lemma LeadingNumeralComplete(a: string, sep: char, rest: string)
    requires !IsDigit(sep) && IsNumeral(a)
    ensures LeadingNumeral(a + [sep] + rest, sep) == Some((a, rest))
  {
    var s := a + [sep] + rest;
    assert s[0] == a[0];
    if |a| == 1 {
      assert s[1] == sep;
      assert s[..1] == a && s[2..] == rest;
    } else {
      assert s[1] == a[1] && s[2] == sep;
      assert s[..2] == a && s[3..] == rest;
    }
  }

  /** Splits `（.+）`'s remainder `.+）` into the note and the closing parenthesis. */
  function TrailingNote(tail: string): (r: Option<string>)
    ensures r.Some? ==> IsNote(r.value) && tail == r.value + [Close]
  {
    if |tail| >= 2 && tail[|tail| - 1] == Close && IsNote(tail[..|tail| - 1]) then
      assert tail == tail[..|tail| - 1] + [Close];
      Some(tail[..|tail| - 1])
    else
      None
  }

  /** `re.fullmatch(r'(\d{1,2})/(\d{1,2})（.+）', s)`. */
  function Match(s: string): (r: Option<DateMatch>)
    ensures r.Some? ==> WellFormed(r.value) && Unparse(r.value) == s
  {
    var first :- LeadingNumeral(s, '/');
    var second :- LeadingNumeral(first.1, Open);
    var note :- TrailingNote(second.1);
    assert s == first.0 + ['/'] + (second.0 + [Open] + (note + [Close]));
    Some(DateMatch(first.0, second.0, note))
  }

  /** Every well-formed date text is matched, and the match captures its parts. */
  lemma MatchComplete(m: DateMatch)
    requires WellFormed(m)
    ensures Match(Unparse(m)) == Some(m)
  {
    var s := Unparse(m);
    var tail := m.note + [Close];
    var rest := m.day + [Open] + tail;
    assert s == m.month + ['/'] + rest;
    LeadingNumeralComplete(m.month, '/', rest);
    LeadingNumeralComplete(m.day, Open, tail);
    assert tail[..|tail| - 1] == m.note;
    assert TrailingNote(tail) == Some(m.note);
  }

  /** The matcher accepts exactly the well-formed date texts, each in one way. */
  lemma MatchExactly(s: string, m: DateMatch)
    ensures Match(s) == Some(m) <==> WellFormed(m) && Unparse(m) == s
  {
    if WellFormed(m) && Unparse(m) == s {
      MatchComplete(m);
    }
  }

  /** The month and day values a date text denotes, as `int()` reads the captures. */
  function MonthDay(s: string): (r: Option<(nat, nat)>)
    ensures r.Some? ==> r.value.0 <= 99 && r.value.1 <= 99
  {
    var m :- Match(s);
    DigitsValueBound(m.month);
    DigitsValueBound(m.day);
    Some((DigitsValue(m.month), DigitsValue(m.day)))
  }

  /** The note is discarded: texts that differ only in their notes denote the same month and day. */
  lemma NoteIgnored(month: string, day: string, note1: string, note2: string)
    requires IsNumeral(month) && IsNumeral(day) && IsNote(note1) && IsNote(note2)
    ensures MonthDay(Unparse(DateMatch(month, day, note1)))
         == MonthDay(Unparse(DateMatch(month, day, note2)))
         == Some((DigitsValue(month), DigitsValue(day)))
  {
    MatchComplete(DateMatch(month, day, note1));
    MatchComplete(DateMatch(month, day, note2));
  }
}
