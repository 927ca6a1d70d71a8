/** Character classes and string operations the extractor relies on. */
module Text {
  import opened Wrappers

  /** An ASCII decimal digit. Python's `\d` also accepts other Unicode digits; the model does not. */
  predicate IsDigit(c: char) {
    '0' <= c <= '9'
  }

  function DigitValue(c: char): (v: nat)
    requires IsDigit(c)
    ensures v < 10
  {
    (c as int - '0' as int) as nat
  }

  function DigitChar(v: nat): (c: char)
    requires v < 10
    ensures IsDigit(c) && DigitValue(c) == v
  {
    ('0' as int + v) as char
  }

  predicate AllDigits(s: string) {
    forall i :: 0 <= i < |s| ==> IsDigit(s[i])
  }

  /** The value of a string of decimal digits, most significant first, as Python's `int()` reads it. */
  function DigitsValue(s: string): nat
    requires AllDigits(s)
  {
    if s == [] then 0 else 10 * DigitsValue(s[..|s| - 1]) + DigitValue(s[|s| - 1])
  }

  function Pow10(n: nat): (p: nat)
    ensures p >= 1
  {
    if n == 0 then 1 else 10 * Pow10(n - 1)
  }

  lemma {:induction false} DigitsValueBound(s: string)
    requires AllDigits(s)
    ensures DigitsValue(s) < Pow10(|s|)
  {
    if s != [] {
      DigitsValueBound(s[..|s| - 1]);
    }
  }

  /** The `width` least significant decimal digits of `n`, zero-padded on the left (`%0<width>d`). */
  function FixedDigits(n: nat, width: nat): (r: string)
    requires n < Pow10(width)
    ensures |r| == width && AllDigits(r) && DigitsValue(r) == n
  {
    if width == 0 then []
    else
      var q := n / 10;
      assert q < Pow10(width - 1);
      var r := FixedDigits(q, width - 1) + [DigitChar(n % 10)];
      assert r[..|r| - 1] == FixedDigits(q, width - 1);
      r
  }

  /** Two digit strings of the same length with the same value are equal. */
  lemma {:induction false} DigitsValueInjective(a: string, b: string)
    requires AllDigits(a) && AllDigits(b) && |a| == |b|
    requires DigitsValue(a) == DigitsValue(b)
    ensures a == b
  {
    if a != [] {
      var n := |a| - 1;
      DigitsValueInjective(a[..n], b[..n]);
      assert a == a[..n] + [a[n]];
      assert b == b[..n] + [b[n]];
    }
  }

  /**
   * Whitespace as Python's `str.split()` without arguments understands it:
   * the characters for which `str.isspace()` holds.
   */
  predicate IsSpace(c: char) {
    || '\U{0009}' <= c <= '\U{000D}'
    || '\U{001C}' <= c <= '\U{0020}'
    || c == '\U{0085}' || c == '\U{00A0}' || c == '\U{1680}'
    || '\U{2000}' <= c <= '\U{200A}'
    || c == '\U{2028}' || c == '\U{2029}' || c == '\U{202F}' || c == '\U{205F}'
    || c == '\U{3000}'
  }

  predicate AllSpace(s: string) {
    forall i :: 0 <= i < |s| ==> IsSpace(s[i])
  }

  predicate NoSpace(s: string) {
    forall i :: 0 <= i < |s| ==> !IsSpace(s[i])
  }

  predicate StartsWith(s: string, prefix: string) {
    |prefix| <= |s| && s[..|prefix|] == prefix
  }

  /** `s` with its leading whitespace removed. */
  function DropSpaces(s: string): (r: string)
    ensures |r| <= |s| && r == s[|s| - |r|..]
    ensures AllSpace(s[..|s| - |r|])
    ensures r == [] || !IsSpace(r[0])
  {
    if s != [] && IsSpace(s[0]) then
      var r := DropSpaces(s[1..]);
      DropSpacesStep(s, r);
      r
    else
      assert s[..0] == [];
      s
  }

  lemma DropSpacesStep(s: string, r: string)
    requires s != [] && IsSpace(s[0])
    requires |r| < |s| && r == s[1..][|s| - 1 - |r|..]
    requires AllSpace(s[1..][..|s| - 1 - |r|])
    ensures r == s[|s| - |r|..]
    ensures AllSpace(s[..|s| - |r|])
  {
    var n := |s| - |r|;
    forall i | 0 < i < n
      ensures IsSpace(s[i])
    {
      assert s[i] == s[1..][..n - 1][i - 1];
    }
  }

  /** The longest prefix of `s` that holds no whitespace. */
  function TakeWord(s: string): (r: string)
    ensures |r| <= |s| && r == s[..|r|]
    ensures NoSpace(r)
    ensures |r| == |s| || IsSpace(s[|r|])
  {
    if s != [] && !IsSpace(s[0]) then [s[0]] + TakeWord(s[1..]) else []
  }

  /** Python's `str.split()` with no separator: the maximal runs of non-whitespace, in order (`SplitWholeWords`). */
  function Split(s: string): (r: seq<string>)
    ensures IsTokens(r)
    ensures r == [] <==> AllSpace(s)
    decreases |s|
  {
    var t := DropSpaces(s);
    if t == [] then
      assert s[..|s|] == s;
      []
    else
      var w := TakeWord(t);
      assert s[|s| - |t|] == t[0];
      assert w != [] by { assert !IsSpace(t[0]); }
      var rest := Split(t[|w|..]);
      assert !AllSpace(s) by { assert !IsSpace(s[|s| - |t|]); }
      TokensCons(w, rest);
      [w] + rest
  }

  /** Nonempty, whitespace-free tokens. */
  predicate IsTokens(ws: seq<string>) {
    forall i :: 0 <= i < |ws| ==> ws[i] != [] && NoSpace(ws[i])
  }

  lemma TokensCons(w: string, ws: seq<string>)
    requires w != [] && NoSpace(w) && IsTokens(ws)
    ensures IsTokens([w] + ws)
  {
    var r := [w] + ws;
    forall i | 0 <= i < |r|
      ensures r[i] != [] && NoSpace(r[i])
    {
      if i > 0 {
        assert r[i] == ws[i - 1];
      }
    }
  }

  /** The characters of `s` that are not whitespace, in order. */
  function RemoveSpaces(s: string): (r: string)
    ensures NoSpace(r)
  {
    if s == [] then []
    else if IsSpace(s[0]) then RemoveSpaces(s[1..])
    else [s[0]] + RemoveSpaces(s[1..])
  }

  function Concat(ws: seq<string>): string {
    if ws == [] then [] else ws[0] + Concat(ws[1..])
  }

  lemma {:induction false} RemoveSpacesAppend(a: string, b: string)
    ensures RemoveSpaces(a + b) == RemoveSpaces(a) + RemoveSpaces(b)
    decreases |a|
  {
    if a != [] {
      assert (a + b)[0] == a[0];
      assert (a + b)[1..] == a[1..] + b;
      RemoveSpacesAppend(a[1..], b);
      if !IsSpace(a[0]) {
        assert RemoveSpaces(a + b) == [a[0]] + (RemoveSpaces(a[1..]) + RemoveSpaces(b));
      }
    } else {
      assert a + b == b;
    }
  }

  lemma {:induction false} RemoveSpacesOfWord(s: string)
    requires NoSpace(s)
    ensures RemoveSpaces(s) == s
  {
    if s != [] {
      RemoveSpacesOfWord(s[1..]);
    }
  }

  lemma {:induction false} RemoveSpacesOfDropped(s: string)
    ensures RemoveSpaces(s) == RemoveSpaces(DropSpaces(s))
  {
    if s != [] && IsSpace(s[0]) {
      RemoveSpacesOfDropped(s[1..]);
    }
  }

  /** Splitting loses only whitespace: the tokens, concatenated, are the non-whitespace characters. */
  lemma {:induction false} SplitLosesOnlySpaces(s: string)
    ensures Concat(Split(s)) == RemoveSpaces(s)
    decreases |s|
  {
    var t := DropSpaces(s);
    RemoveSpacesOfDropped(s);
    if t != [] {
      var w := TakeWord(t);
      var rest := t[|w|..];
      assert w != [] by { assert !IsSpace(t[0]); }
      assert t == w + rest;
      SplitUnfold(s);
      calc {
        Concat(Split(s));
        == Concat([w] + Split(rest));
        == { ConcatCons(w, Split(rest)); }
        w + Concat(Split(rest));
        == { SplitLosesOnlySpaces(rest); }
        w + RemoveSpaces(rest);
        == { RemoveSpacesOfWord(w); RemoveSpacesAppend(w, rest); }
        RemoveSpaces(t);
      }
    }
  }

  lemma ConcatCons(w: string, ws: seq<string>)
    ensures Concat([w] + ws) == w + Concat(ws)
  {
    assert ([w] + ws)[1..] == ws;
  }

  /** One step of `Split`, for a text that holds a token. */
  lemma SplitUnfold(s: string)
    requires DropSpaces(s) != []
    ensures Split(s) == [TakeWord(DropSpaces(s))] + Split(DropSpaces(s)[|TakeWord(DropSpaces(s))|..])
  {
  }

  /** `w` occurs in `s` at index `k` and is followed by whitespace or the end of `s`. */
  predicate WordAt(s: string, k: nat, w: string) {
    k + |w| <= |s| && s[k..k + |w|] == w && (k + |w| == |s| || IsSpace(s[k + |w|]))
  }

  /** `w` is a whole word of `s` at `k`: it starts `s` or follows whitespace, and ends `s` or precedes whitespace. */
  predicate WholeWordAt(s: string, k: nat, w: string) {
    WordAt(s, k, w) && (k == 0 || IsSpace(s[k - 1]))
  }

  function Offset(ks: seq<nat>, d: nat): (r: seq<nat>)
    ensures |r| == |ks| && forall i :: 0 <= i < |r| ==> r[i] == ks[i] + d
  {
    seq(|ks|, i requires 0 <= i < |ks| => ks[i] + d)
  }

  /** A nonempty word that is whole in the suffix `s[off..]`, which starts with whitespace, is whole in `s`. */
  lemma ShiftWholeWord(s: string, off: nat, k: nat, w: string)
    requires off <= |s| && (off == |s| || IsSpace(s[off]))
    requires w != [] && NoSpace(w)
    requires WholeWordAt(s[off..], k, w)
    ensures WholeWordAt(s, off + k, w)
  {
    var u := s[off..];
    assert u[k] == w[0];
    assert s[off + k..off + k + |w|] == u[k..k + |w|];
    if off + k + |w| < |s| {
      assert s[off + k + |w|] == u[k + |w|];
    }
    if k > 0 {
      assert s[off + k - 1] == u[k - 1];
    }
  }

  /**
   * The tokens of `s.split()` are whole words of `s`, found left to right. With
   * `SplitLosesOnlySpaces` this pins the split down: every non-whitespace character
   * lies in exactly one token, and no token stops inside a run of non-whitespace.
   */
  lemma {:induction false} SplitWholeWords(s: string) returns (ks: seq<nat>)
    ensures |ks| == |Split(s)|
    ensures WholeWords(s, ks, Split(s))
    decreases |s|
  {
    if DropSpaces(s) == [] {
      ks := [];
    } else {
      var k0, off := SplitStep(s);
      var rest := SplitWholeWords(s[off..]);
      ks := ConsWholeWord(s, k0, off, rest, Split(s[off..]));
    }
  }

  /** Each `ws[i]` is a whole word of `s` at `ks[i]`, and the positions increase. */
  predicate WholeWords(s: string, ks: seq<nat>, ws: seq<string>) {
    && |ks| == |ws|
    && (forall i :: 0 <= i < |ks| ==> WholeWordAt(s, ks[i], ws[i]))
    && (forall i, j :: 0 <= i < j < |ks| ==> ks[i] < ks[j])
  }

  /** Whole words of a suffix that starts with whitespace, after a whole word that ends there. */
  lemma ConsWholeWord(s: string, k0: nat, off: nat, ks: seq<nat>, ws: seq<string>) returns (r: seq<nat>)
    requires k0 < off <= |s| && WholeWordAt(s, k0, s[k0..off])
    requires off == |s| || IsSpace(s[off])
    requires IsTokens(ws) && WholeWords(s[off..], ks, ws)
    ensures WholeWords(s, r, [s[k0..off]] + ws)
  {
    ShiftWholeWords(s, off, ks, ws);
    r := [k0] + Offset(ks, off);
    PrependWholeWord(s, k0, s[k0..off], Offset(ks, off), ws);
  }

  lemma ShiftWholeWords(s: string, off: nat, ks: seq<nat>, ws: seq<string>)
    requires off <= |s| && (off == |s| || IsSpace(s[off]))
    requires IsTokens(ws) && WholeWords(s[off..], ks, ws)
    ensures WholeWords(s, Offset(ks, off), ws)
  {
    var r := Offset(ks, off);
    forall i | 0 <= i < |r|
      ensures WholeWordAt(s, r[i], ws[i])
    {
      ShiftWholeWord(s, off, ks[i], ws[i]);
    }
  }

  lemma PrependWholeWord(s: string, k: nat, w: string, ks: seq<nat>, ws: seq<string>)
    requires WholeWordAt(s, k, w) && WholeWords(s, ks, ws)
    requires forall i :: 0 <= i < |ks| ==> k < ks[i]
    ensures WholeWords(s, [k] + ks, [w] + ws)
  {
    var r := [k] + ks;
    var vs := [w] + ws;
    forall i | 0 < i < |r|
      ensures WholeWordAt(s, r[i], vs[i])
    {
      assert r[i] == ks[i - 1] && vs[i] == ws[i - 1];
    }
    forall i, j | 0 <= i < j < |r|
      ensures r[i] < r[j]
    {
      assert r[j] == ks[j - 1];
      if i > 0 {
        assert r[i] == ks[i - 1];
      }
    }
  }

  /** One step of `Split` in positions: the first token is the whole word `s[k0..off]`. */
  lemma SplitStep(s: string) returns (k0: nat, off: nat)
    requires DropSpaces(s) != []
    ensures k0 < off <= |s|
    ensures WholeWordAt(s, k0, s[k0..off])
    ensures off == |s| || IsSpace(s[off])
    ensures Split(s) == [s[k0..off]] + Split(s[off..])
  {
    var t := DropSpaces(s);
    var w := TakeWord(t);
    k0, off := FirstWordAt(s);
    assert s[k0..off] == w && s[off..] == t[|w|..];
    SplitUnfold(s);
  }

  /** Where the first word of `s` lies. */
  lemma FirstWordAt(s: string) returns (k0: nat, off: nat)
    requires DropSpaces(s) != []
    ensures k0 == |s| - |DropSpaces(s)| && off == k0 + |TakeWord(DropSpaces(s))|
    ensures k0 < off <= |s|
    ensures WholeWordAt(s, k0, TakeWord(DropSpaces(s)))
    ensures s[off..] == DropSpaces(s)[|TakeWord(DropSpaces(s))|..]
  {
    k0, off := WordBounds(s, DropSpaces(s), TakeWord(DropSpaces(s)));
  }

  /** The bounds of a word `w` that follows the leading whitespace of `s` and ends at whitespace. */
  lemma WordBounds(s: string, t: string, w: string) returns (k0: nat, off: nat)
    requires |t| <= |s| && t == s[|s| - |t|..] && AllSpace(s[..|s| - |t|])
    requires t != [] && !IsSpace(t[0])
    requires |w| <= |t| && w == t[..|w|] && (|w| == |t| || IsSpace(t[|w|]))
    ensures k0 == |s| - |t| && off == k0 + |w|
    ensures k0 < off <= |s|
    ensures WholeWordAt(s, k0, w)
    ensures s[off..] == t[|w|..]
  {
    k0 := |s| - |t|;
    off := k0 + |w|;
    assert w != [] by {
      assert |w| == |t| || IsSpace(t[|w|]);
    }
    WordOfSuffix(s, k0, t, w);
    LeadingSpaceBoundary(s, k0);
  }

  /** A word that ends the longest space-free prefix of the suffix `s[k..]` is a word of `s` at `k`. */
  lemma WordOfSuffix(s: string, k: nat, t: string, w: string)
    requires k <= |s| && t == s[k..]
    requires |w| <= |t| && w == t[..|w|] && (|w| == |t| || IsSpace(t[|w|]))
    ensures WordAt(s, k, w) && s[k + |w|..] == t[|w|..]
  {
    assert s[k..k + |w|] == t[..|w|];
    if |w| < |t| {
      assert s[k + |w|] == t[|w|];
    }
  }

  lemma LeadingSpaceBoundary(s: string, k: nat)
    requires k <= |s| && AllSpace(s[..k])
    ensures k == 0 || IsSpace(s[k - 1])
  {
    if k > 0 {
      assert s[..k][k - 1] == s[k - 1];
    }
  }

  /** The first whitespace-separated token of `s`, if there is one. */
  function FirstToken(s: string): (r: Option<string>)
    ensures r.None? <==> AllSpace(s)
    ensures r.Some? ==> r.value != [] && NoSpace(r.value)
  {
    var t := DropSpaces(s);
    if t == [] then
      assert s[..|s|] == s;
      None
    else
      assert s[|s| - |t|] == t[0];
      Some(TakeWord(t))
  }

  /** The first token is the head of `s.split()`, and there is none when the split is empty. */
  lemma FirstTokenIsSplitHead(s: string)
    ensures FirstToken(s) == if Split(s) == [] then None else Some(Split(s)[0])
  {
    if DropSpaces(s) != [] {
      SplitUnfold(s);
    }
  }

  /**
   * The first token is exactly what follows the leading whitespace `s[..k]`, up to
   * the next whitespace character or the end of `s`.
   */
  lemma FirstTokenShape(s: string) returns (k: nat)
    requires FirstToken(s).Some?
    ensures k <= |s| && AllSpace(s[..k])
    ensures WordAt(s, k, FirstToken(s).value)
  {
    assert DropSpaces(s) != [];
    var off;
    k, off := FirstWordAt(s);
  }

  /** A word followed by whitespace or nothing is its text's longest space-free prefix. */
  lemma {:induction false} TakeWordOf(w: string, rest: string)
    requires NoSpace(w)
    requires rest == [] || IsSpace(rest[0])
    ensures TakeWord(w + rest) == w
  {
    if w != [] {
      assert (w + rest)[0] == w[0];
      assert (w + rest)[1..] == w[1..] + rest;
      TakeWordOf(w[1..], rest);
    } else {
      assert w + rest == rest;
    }
  }

  /** The first token of a text that starts with a word is that word. */
  lemma FirstTokenOfWord(w: string, rest: string)
    requires w != [] && NoSpace(w)
    requires rest == [] || IsSpace(rest[0])
    ensures FirstToken(w + rest) == Some(w)
  {
    var s := w + rest;
    assert s[0] == w[0];
    assert DropSpaces(s) == s;
    TakeWordOf(w, rest);
  }
}
