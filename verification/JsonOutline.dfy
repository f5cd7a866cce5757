/** Outlines of text: what is left without the contents of its string literals. */
module JsonOutline {
  // The outline of a text is the text with every string literal replaced by one quotation mark. It is
  // taken by a scanner that knows nothing of values.

  import opened Options
  import opened JsonGrammar
  import opened JsonReading
  import opened JsonText
  import opened JsonConformance
  import opened JsonRoundTrip

  /** What follows the closing quotation mark of the string literal being read. */
  function BehindString(text: string): (rest: string)
    ensures |rest| <= |text|
  {
    if text == "" then ""
    else if text[0] == '"' then text[1..]
    else if text[0] == '\\' && |text| > 1 then BehindString(text[2..])
    else BehindString(text[1..])
  }

  function Outline(text: string): string
    decreases |text|
  {
    if text == "" then ""
    else if text[0] == '"' then "\"" + Outline(BehindString(text[1..]))
    else [text[0]] + Outline(text[1..])
  }

  function Squeezed(text: string): string {
    if text == "" then ""
    else (if IsSpace(text[0]) then "" else [text[0]]) + Squeezed(text[1..])
  }

  // ---- Outlines of parts --------------------------------------------------------------------

  predicate OutlineBefore(text: string, out: string, rest: string) {
    Outline(text + rest) == out + Outline(rest)
  }

  /** Whatever follows, the part contributes `out` to the outline. */
  ghost predicate HasOutline(text: string, out: string) {
    forall rest :: OutlineBefore(text, out, rest)
  }

  lemma OutlineOfPart(text: string, out: string, rest: string)
    requires HasOutline(text, out)
    ensures Outline(text + rest) == out + Outline(rest)
  {
    assert OutlineBefore(text, out, rest);
  }

  lemma OutlineOfTwo(a: string, x: string, b: string, y: string)
    requires HasOutline(a, x) && HasOutline(b, y)
    ensures HasOutline(a + b, x + y)
  {
    forall rest ensures OutlineBefore(a + b, x + y, rest) {
      assert (a + b) + rest == a + (b + rest);
      OutlineOfPart(a, x, b + rest);
      OutlineOfPart(b, y, rest);
      assert x + (y + Outline(rest)) == (x + y) + Outline(rest);
    }
  }

  lemma OutlineOfNothing()
    ensures HasOutline("", "")
  {
    forall rest ensures OutlineBefore("", "", rest) {
      assert "" + rest == rest && "" + Outline(rest) == Outline(rest);
    }
  }

  lemma OutlineOfChar(c: char)
    requires c != '"'
    ensures HasOutline([c], [c])
  {
    forall rest ensures OutlineBefore([c], [c], rest) {
      assert ([c] + rest)[1..] == rest;
    }
  }

  predicate QuoteFree(text: string) {
    forall i :: 0 <= i < |text| ==> text[i] != '"'
  }

  lemma {:induction false} OutlineOfPlain(text: string)
    requires QuoteFree(text)
    ensures HasOutline(text, text)
  {
    if text == "" {
      OutlineOfNothing();
    } else {
      OutlineOfChar(text[0]);
      OutlineOfPlain(text[1..]);
      OutlineOfTwo([text[0]], [text[0]], text[1..], text[1..]);
      assert [text[0]] + text[1..] == text;
    }
  }

  // ---- String literals ----------------------------------------------------------------------

  predicate PassedBefore(text: string, rest: string) {
    BehindString(text + rest) == BehindString(rest)
  }

  /** The scanner passes over the text inside a string literal. */
  ghost predicate IsInner(text: string) {
    forall rest :: PassedBefore(text, rest)
  }

  lemma InnerOfTwo(a: string, b: string)
    requires IsInner(a) && IsInner(b)
    ensures IsInner(a + b)
  {
    forall rest ensures PassedBefore(a + b, rest) {
      assert (a + b) + rest == a + (b + rest);
      assert PassedBefore(a, b + rest) && PassedBefore(b, rest);
    }
  }

  predicate IsPlain(c: char) {
    c != '"' && c != '\\'
  }

  lemma PlainIsInner(c: char)
    requires IsPlain(c)
    ensures IsInner([c])
  {
    forall rest ensures PassedBefore([c], rest) {
      assert ([c] + rest)[1..] == rest;
    }
  }

  lemma EscapeIsInner(c: char)
    ensures IsInner("\\" + [c])
  {
    forall rest ensures PassedBefore("\\" + [c], rest) {
      assert (("\\" + [c]) + rest)[2..] == rest;
    }
  }

  lemma {:induction false} PlainTextIsInner(text: string)
    requires forall i :: 0 <= i < |text| ==> IsPlain(text[i])
    ensures IsInner(text)
  {
    if text == "" {
      forall rest ensures PassedBefore("", rest) { assert "" + rest == rest; }
    } else {
      PlainIsInner(text[0]);
      PlainTextIsInner(text[1..]);
      InnerOfTwo([text[0]], text[1..]);
      assert [text[0]] + text[1..] == text;
    }
  }

  lemma EscapedIsInner(c: char)
    ensures IsInner(EscapedChar(c))
  {
    EscapeWritten(c);
    var e := EscapedChar(c);
    if |e| == 1 {
      PlainIsInner(c);
    } else {
      EscapeIsInner(e[1]);
      PlainTextIsInner(e[2..]);
      InnerOfTwo("\\" + [e[1]], e[2..]);
      assert ("\\" + [e[1]]) + e[2..] == e;
    }
  }

  lemma {:induction false} EscapedTextIsInner(s: string)
    ensures IsInner(EscapedChars(s))
  {
    if s == "" {
      PlainTextIsInner("");
    } else {
      EscapedIsInner(s[0]);
      EscapedTextIsInner(s[1..]);
      InnerOfTwo(EscapedChar(s[0]), EscapedChars(s[1..]));
    }
  }

  /** A string literal leaves one quotation mark. */
  lemma OutlineOfQuoted(s: string)
    ensures HasOutline(Quoted(s), "\"")
  {
    EscapedTextIsInner(s);
    forall rest ensures OutlineBefore(Quoted(s), "\"", rest) {
      var inner := EscapedChars(s) + ("\"" + rest);
      assert Quoted(s) + rest == "\"" + inner;
      assert ("\"" + inner)[1..] == inner;
      assert PassedBefore(EscapedChars(s), "\"" + rest);
      assert ("\"" + rest)[1..] == rest;
    }
  }

  // ---- Tidy outlines ------------------------------------------------------------------------

  predicate HasNoSpace(text: string) {
    forall i :: 0 <= i < |text| ==> !IsSpace(text[i])
  }

  /** Behind every colon exactly one space. */
  predicate ColonsAreSpaced(text: string) {
    forall i :: 0 <= i < |text| && text[i] == ':' ==> i + 2 < |text| && text[i + 1] == ' ' && !IsSpace(text[i + 2])
  }

  predicate Tidy(out: string, spaced: bool) {
    if spaced then ColonsAreSpaced(out) else HasNoSpace(out)
  }

  lemma TidyTwo(a: string, b: string, spaced: bool)
    requires Tidy(a, spaced) && Tidy(b, spaced)
    ensures Tidy(a + b, spaced)
  {
  }

  lemma {:induction false} SqueezedTwo(a: string, b: string)
    ensures Squeezed(a + b) == Squeezed(a) + Squeezed(b)
  {
    if a == "" {
      assert a + b == b;
    } else {
      assert (a + b)[1..] == a[1..] + b;
      SqueezedTwo(a[1..], b);
    }
  }

  /** The outline of the part is tidy, and `shape` but for white space. */
  ghost predicate IsLaidOut(text: string, shape: string, spaced: bool) {
    exists out :: HasOutline(text, out) && Tidy(out, spaced) && Squeezed(out) == shape
  }

  lemma LaidOutTwo(a: string, x: string, b: string, y: string, spaced: bool)
    requires IsLaidOut(a, x, spaced) && IsLaidOut(b, y, spaced)
    ensures IsLaidOut(a + b, x + y, spaced)
  {
    var p :| HasOutline(a, p) && Tidy(p, spaced) && Squeezed(p) == x;
    var q :| HasOutline(b, q) && Tidy(q, spaced) && Squeezed(q) == y;
    OutlineOfTwo(a, p, b, q);
    TidyTwo(p, q, spaced);
    SqueezedTwo(p, q);
    assert HasOutline(a + b, p + q);
  }

  /** White space before the part. */
  lemma LaidOutBehind(gap: string, text: string, shape: string, spaced: bool)
    requires IsLaidOut(gap, "", spaced) && IsLaidOut(text, shape, spaced)
    ensures IsLaidOut(gap + text, shape, spaced)
  {
    LaidOutTwo(gap, "", text, shape, spaced);
    assert "" + shape == shape;
  }

  lemma {:induction false} SqueezedNoSpace(text: string)
    requires HasNoSpace(text)
    ensures Squeezed(text) == text
  {
    if text != "" {
      SqueezedNoSpace(text[1..]);
      assert [text[0]] + text[1..] == text;
    }
  }

  /** Text without quotation marks, colons and white space. */
  lemma PlainIsLaidOut(text: string, spaced: bool)
    requires QuoteFree(text) && HasNoSpace(text) && forall i :: 0 <= i < |text| ==> text[i] != ':'
    ensures IsLaidOut(text, text, spaced)
  {
    OutlineOfPlain(text);
    SqueezedNoSpace(text);
    assert HasOutline(text, text);
  }

  lemma {:induction false} SqueezedSpace(gap: string)
    requires AllSpace(gap)
    ensures Squeezed(gap) == ""
  {
    if gap != "" { SqueezedSpace(gap[1..]); }
  }

  lemma GapIsLaidOut(indent: Option<string>, depth: nat)
    requires SpaceIndent(indent)
    ensures IsLaidOut(Gap(indent, depth), "", indent.Some?)
  {
    GapIsSpace(indent, depth);
    var gap := Gap(indent, depth);
    assert forall i :: 0 <= i < |gap| ==> IsSpace(gap[i]);
    OutlineOfPlain(gap);
    SqueezedSpace(gap);
    assert HasOutline(gap, gap) && Tidy(gap, indent.Some?);
  }

  /** As `IsLaidOut`, for what starts with something else than white space. */
  ghost predicate IsItem(text: string, shape: string, spaced: bool) {
    exists out :: HasOutline(text, out) && Tidy(out, spaced) && Squeezed(out) == shape && out != "" && !IsSpace(out[0])
  }

  lemma ItemIsLaidOut(text: string, shape: string, spaced: bool)
    requires IsItem(text, shape, spaced)
    ensures IsLaidOut(text, shape, spaced)
  {
  }

  lemma ItemThenRest(a: string, x: string, b: string, y: string, spaced: bool)
    requires IsItem(a, x, spaced) && IsLaidOut(b, y, spaced)
    ensures IsItem(a + b, x + y, spaced)
  {
    var p :| HasOutline(a, p) && Tidy(p, spaced) && Squeezed(p) == x && p != "" && !IsSpace(p[0]);
    var q :| HasOutline(b, q) && Tidy(q, spaced) && Squeezed(q) == y;
    OutlineOfTwo(a, p, b, q);
    TidyTwo(p, q, spaced);
    SqueezedTwo(p, q);
    assert HasOutline(a + b, p + q) && (p + q)[0] == p[0];
  }

  lemma PlainIsItem(text: string, spaced: bool)
    requires text != "" && QuoteFree(text) && HasNoSpace(text) && forall i :: 0 <= i < |text| ==> text[i] != ':'
    ensures IsItem(text, text, spaced)
  {
    OutlineOfPlain(text);
    SqueezedNoSpace(text);
    assert HasOutline(text, text);
  }
}
