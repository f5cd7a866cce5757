/** What the JSON parser reads at a position.

    How a printed text stands in the text being parsed, and what the parser reads there. Each
    predicate about the parser comes with the steps that lead to it, so that the proof of the round
    trip never unfolds the parser itself. A text spells a value if the parser reads the value wherever
    the text stands. */
module JsonReading {
  import opened Options
  import opened JsonGrammar
  import opened JsonText
  import opened Properties

  ghost predicate AllSpace(s: string) {
    forall i :: 0 <= i < |s| ==> IsSpace(s[i])
  }

  ghost predicate SpaceIndent(indent: Option<string>) {
    indent.Some? ==> AllSpace(indent.value)
  }

  /** No number could go on at `pos`. */
  ghost predicate NumberEnds(chars: string, pos: nat) {
    pos < |chars| ==> !IsDigit(chars[pos]) && chars[pos] != '.' && chars[pos] != 'e' && chars[pos] != 'E'
  }

  /** The text stands at `pos`, and no number could go on behind it. */
  ghost predicate Stands(chars: string, pos: nat, text: string) {
    At(chars, pos, text) && NumberEnds(chars, pos + |text|)
  }

  /** The first character of a printed value is none that the parser skips or stops at. */
  predicate StartsValue(text: string) {
    text != "" && !IsSpace(text[0]) && text[0] != ']' && text[0] != '}'
  }

  ghost predicate AllStartValues(items: seq<string>) {
    forall i :: 0 <= i < |items| ==> StartsValue(items[i])
  }

  predicate IsCloser(c: char) {
    c == ']' || c == '}'
  }

  // ---- Items between brackets ---------------------------------------------------------------

  /** The closing bracket follows, and `end` is behind it. */
  ghost predicate Closes(chars: string, pos: nat, close: char, end: nat) {
    pos <= |chars| && ParseSeparator(chars, pos, close) == Parsed(false, end)
  }

  /** A comma follows, and behind it, at `after`, something else than the closing bracket. */
  ghost predicate Continues(chars: string, pos: nat, close: char, after: nat) {
    pos <= |chars| && ParseSeparator(chars, pos, close) == Parsed(true, after)
  }

  /** An opening bracket and, behind white space at `first`, something else than the closing bracket. */
  ghost predicate Opens(chars: string, pos: nat, open: char, close: char, first: nat) {
    Sees(chars, pos, open) && SkipSpace(chars, pos + 1) == first && !Sees(chars, first, close)
  }

  /** The items stand one behind the other from `pos`, with separators in between; the position
      behind the closing bracket is `end`. */
  ghost predicate LaidOut(chars: string, pos: nat, items: seq<string>, close: char, end: nat)
    decreases |items|
  {
    && items != [] && Stands(chars, pos, items[0])
    && if |items| == 1 then Closes(chars, pos + |items[0]|, close, end)
       else exists after ::
          Continues(chars, pos + |items[0]|, close, after) && LaidOut(chars, after, items[1..], close, end)
  }

  lemma LastIsLaidOut(chars: string, pos: nat, items: seq<string>, close: char, end: nat)
    requires |items| == 1 && Stands(chars, pos, items[0]) && Closes(chars, pos + |items[0]|, close, end)
    ensures LaidOut(chars, pos, items, close, end)
  {
  }

  lemma NextIsLaidOut(chars: string, pos: nat, items: seq<string>, close: char, after: nat, end: nat)
    requires |items| > 1 && Stands(chars, pos, items[0])
    requires Continues(chars, pos + |items[0]|, close, after) && LaidOut(chars, after, items[1..], close, end)
    ensures LaidOut(chars, pos, items, close, end)
  {
  }

  lemma FirstOfLayout(chars: string, pos: nat, items: seq<string>, close: char, end: nat) returns (after: nat)
    requires LaidOut(chars, pos, items, close, end)
    ensures items != [] && Stands(chars, pos, items[0])
    ensures |items| == 1 ==> Closes(chars, pos + |items[0]|, close, end)
    ensures |items| > 1 ==>
      Continues(chars, pos + |items[0]|, close, after) && LaidOut(chars, after, items[1..], close, end)
  {
    after := 0;
    if |items| > 1 {
      after :| Continues(chars, pos + |items[0]|, close, after) && LaidOut(chars, after, items[1..], close, end);
    }
  }

  // ---- What the parser reads at a position --------------------------------------------------

  ghost predicate ReadsString(chars: string, pos: nat, s: string, t: string, next: nat) {
    pos <= |chars| && ParseString(chars, pos, s) == Parsed(t, next)
  }

  ghost predicate ReadsValue(chars: string, pos: nat, v: Json, next: nat) {
    pos <= |chars| && ParseValue(chars, pos) == Parsed(v, next)
  }

  ghost predicate ReadsMember(chars: string, pos: nat, m: Property<Json>, next: nat) {
    pos <= |chars| && ParseMember(chars, pos) == Parsed(m, next)
  }

  ghost predicate ReadsElements(chars: string, pos: nat, done: seq<Json>, v: Json, next: nat) {
    pos <= |chars| && ParseElements(chars, pos, done) == Parsed(v, next)
  }

  ghost predicate ReadsMembers(chars: string, pos: nat, done: seq<Property<Json>>, v: Json, next: nat) {
    pos <= |chars| && ParseMembers(chars, pos, done) == Parsed(v, next)
  }

  lemma ClosingQuote(chars: string, pos: nat, s: string)
    requires Sees(chars, pos, '"')
    ensures ReadsString(chars, pos, s, s, pos + 1)
  {
  }

  lemma StringValue(chars: string, pos: nat, s: string, next: nat)
    requires Sees(chars, pos, '"') && ReadsString(chars, pos + 1, "", s, next)
    ensures ReadsValue(chars, pos, Json.Str(s), next)
  {
  }

  lemma NumberValue(chars: string, pos: nat)
    requires pos < |chars| && (chars[pos] == '-' || IsDigit(chars[pos]))
    ensures ParseValue(chars, pos) == ParseNumber(chars, pos)
  {
  }

  /** Leading white space does not matter to a value. */
  lemma ValueBehindSpace(chars: string, pos: nat, first: nat, v: Json, next: nat)
    requires pos <= |chars| && first == SkipSpace(chars, pos) && SkipSpace(chars, first) == first
    requires ReadsValue(chars, first, v, next)
    ensures ReadsValue(chars, pos, v, next)
  {
  }

  lemma LastElement(chars: string, pos: nat, done: seq<Json>, v: Json, next: nat, end: nat)
    requires ReadsValue(chars, pos, v, next) && Closes(chars, next, ']', end)
    ensures ReadsElements(chars, pos, done, Arr(done + [v]), end)
  {
  }

  lemma NextElement(chars: string, pos: nat, done: seq<Json>, v: Json, next: nat, after: nat, w: Json, end: nat)
    requires ReadsValue(chars, pos, v, next) && Continues(chars, next, ']', after)
    requires ReadsElements(chars, after, done + [v], w, end)
    ensures ReadsElements(chars, pos, done, w, end)
  {
  }

  lemma ArrayValue(chars: string, pos: nat, first: nat, v: Json, end: nat)
    requires Opens(chars, pos, '[', ']', first) && ReadsElements(chars, first, [], v, end)
    ensures ReadsValue(chars, pos, v, end)
  {
    assert ParseArray(chars, pos) == ParseElements(chars, first, []);
  }

  lemma MemberParts(chars: string, pos: nat, name: string, colon: nat, v: Json, next: nat)
    requires Sees(chars, pos, '"') && ReadsString(chars, pos + 1, "", name, colon)
    requires Sees(chars, colon, ':') && ReadsValue(chars, colon + 1, v, next)
    ensures ReadsMember(chars, pos, Property(name, v), next)
  {
    assert SkipSpace(chars, pos) == pos && SkipSpace(chars, colon) == colon;
  }

  lemma LastMember(chars: string, pos: nat, done: seq<Property<Json>>, m: Property<Json>, next: nat, end: nat)
    requires ReadsMember(chars, pos, m, next) && Closes(chars, next, '}', end)
    ensures ReadsMembers(chars, pos, done, Obj(SetProperty(done, m.name, m.value)), end)
  {
  }

  lemma NextMember(chars: string, pos: nat, done: seq<Property<Json>>, m: Property<Json>, next: nat, after: nat,
                   w: Json, end: nat)
    requires ReadsMember(chars, pos, m, next) && Continues(chars, next, '}', after)
    requires ReadsMembers(chars, after, SetProperty(done, m.name, m.value), w, end)
    ensures ReadsMembers(chars, pos, done, w, end)
  {
  }

  lemma ObjectValue(chars: string, pos: nat, first: nat, v: Json, end: nat)
    requires Opens(chars, pos, '{', '}', first) && ReadsMembers(chars, first, [], v, end)
    ensures ReadsValue(chars, pos, v, end)
  {
    assert ParseObject(chars, pos) == ParseMembers(chars, first, []);
  }

  // ---- Texts the parser reads wherever they stand -------------------------------------------

  /** Inside a string. */
  ghost predicate SpellsChar(chars: string, c: char, e: string) {
    forall pos: nat, s: string, t: string, next: nat ::
      At(chars, pos, e) && ReadsString(chars, pos + |e|, s + [c], t, next) ==> ReadsString(chars, pos, s, t, next)
  }

  lemma SpelledChar(chars: string, pos: nat, s: string, c: char, e: string, t: string, next: nat)
    requires SpellsChar(chars, c, e) && At(chars, pos, e) && ReadsString(chars, pos + |e|, s + [c], t, next)
    ensures ReadsString(chars, pos, s, t, next)
  {
  }

  ghost predicate SpellsString(chars: string, s: string, quoted: string) {
    forall pos: nat :: At(chars, pos, quoted) ==>
      Sees(chars, pos, '"') && ReadsString(chars, pos + 1, "", s, pos + |quoted|)
  }

  lemma SpelledString(chars: string, pos: nat, s: string, quoted: string)
    requires SpellsString(chars, s, quoted) && At(chars, pos, quoted)
    ensures Sees(chars, pos, '"') && ReadsString(chars, pos + 1, "", s, pos + |quoted|)
  {
  }

  ghost predicate Spells(chars: string, v: Json, text: string) {
    forall pos: nat :: Stands(chars, pos, text) ==> ReadsValue(chars, pos, v, pos + |text|)
  }

  lemma Spelled(chars: string, pos: nat, v: Json, text: string)
    requires Spells(chars, v, text) && Stands(chars, pos, text)
    ensures ReadsValue(chars, pos, v, pos + |text|)
  {
  }

  ghost predicate SpellsMember(chars: string, m: Property<Json>, entry: string) {
    forall pos: nat :: Stands(chars, pos, entry) ==> ReadsMember(chars, pos, m, pos + |entry|)
  }

  lemma SpelledMember(chars: string, pos: nat, m: Property<Json>, entry: string)
    requires SpellsMember(chars, m, entry) && Stands(chars, pos, entry)
    ensures ReadsMember(chars, pos, m, pos + |entry|)
  {
  }

  // ---- Lists of texts -----------------------------------------------------------------------

  ghost predicate AllSpell(chars: string, elements: seq<Json>, items: seq<string>) {
    |items| == |elements| && forall i :: 0 <= i < |items| ==> Spells(chars, elements[i], items[i])
  }

  lemma FirstSpells(chars: string, elements: seq<Json>, items: seq<string>)
    requires AllSpell(chars, elements, items) && elements != []
    ensures |items| == |elements|
    ensures Spells(chars, elements[0], items[0]) && AllSpell(chars, elements[1..], items[1..])
  {
  }

  ghost predicate AllSpellMembers(chars: string, members: seq<Property<Json>>, items: seq<string>) {
    |items| == |members| && forall i :: 0 <= i < |items| ==> SpellsMember(chars, members[i], items[i])
  }

  lemma FirstMemberSpells(chars: string, members: seq<Property<Json>>, items: seq<string>)
    requires AllSpellMembers(chars, members, items) && members != []
    ensures |items| == |members|
    ensures SpellsMember(chars, members[0], items[0]) && AllSpellMembers(chars, members[1..], items[1..])
  {
  }
}
