module JsonLayout {
  // Where the printed text has white space: nowhere in compact form, after colons and line breaks in the other.

  import opened Options
  import opened JsonConformance
  import opened JsonGrammar
  import opened JsonOutline
  import opened JsonReading
  import opened JsonRoundTrip
  import opened JsonText
  import opened Properties
  import Values

  // ---- Values -------------------------------------------------------------------------------

  /** The text of a value without white space, and with every string literal replaced by one quotation mark. */
  function Shape(v: Json): string
    requires Printable(v)
  {
    match v
    case Null => "null"
    case Bool(b) => if b then "true" else "false"
    case Smi(n) => IntegerText(n as int)
    case Str(_) => "\""
    case Arr(elements) => "[" + (ElementShapes(elements) + "]")
    case Obj(members) => "{" + (MemberShapes(members) + "}")
  }

  function ElementShapes(elements: seq<Json>): string
    requires forall e :: e in elements ==> Printable(e)
  {
    if elements == [] then ""
    else if |elements| == 1 then Shape(elements[0])
    else Shape(elements[0]) + ("," + ElementShapes(elements[1..]))
  }

  function MemberShapes(members: seq<Property<Json>>): string
    requires forall m :: m in members ==> Printable(m.value)
  {
    if members == [] then ""
    else
      assert members[0] in members;
      if |members| == 1 then "\":" + Shape(members[0].value)
      else ("\":" + Shape(members[0].value)) + ("," + MemberShapes(members[1..]))
  }

  lemma QuotedIsItem(s: string, spaced: bool)
    ensures IsItem(Quoted(s), "\"", spaced)
  {
    OutlineOfQuoted(s);
    assert HasOutline(Quoted(s), "\"") && Squeezed("\"") == "\"";
  }

  lemma IntegerIsItem(n: int, spaced: bool)
    ensures IsItem(IntegerText(n), IntegerText(n), spaced)
  {
    var digits := IntegerWritten(n);
    NumeralIsPositional(digits);
    PlainIsItem(IntegerText(n), spaced);
  }

  /** The colon and the value behind it. */
  lemma ColonThenItem(text: string, shape: string, indent: Option<string>)
    requires IsItem(text, shape, indent.Some?)
    ensures IsLaidOut(Colon(indent) + text, ":" + shape, indent.Some?)
  {
    var spaced := indent.Some?;
    var out :| HasOutline(text, out) && Tidy(out, spaced) && Squeezed(out) == shape && out != "" && !IsSpace(out[0]);
    OutlineOfPlain(Colon(indent));
    OutlineOfTwo(Colon(indent), Colon(indent), text, out);
    SqueezedTwo(Colon(indent), out);
    ColonIsSqueezed(indent);
    assert Tidy(Colon(indent) + out, spaced);
    assert HasOutline(Colon(indent) + text, Colon(indent) + out);
  }

  lemma ColonIsSqueezed(indent: Option<string>)
    ensures Squeezed(Colon(indent)) == ":"
  {
    assert Squeezed(" ") == "" && Colon(indent)[1..] == if indent.Some? then " " else "";
  }

  lemma EntryIsItem(name: string, text: string, shape: string, indent: Option<string>)
    requires IsItem(text, shape, indent.Some?)
    ensures IsItem(Entry(name, text, indent), "\":" + shape, indent.Some?)
  {
    hide IsItem, IsLaidOut;
    QuotedIsItem(name, indent.Some?);
    ColonThenItem(text, shape, indent);
    ItemThenRest(Quoted(name), "\"", Colon(indent) + text, ":" + shape, indent.Some?);
    assert "\"" + (":" + shape) == "\":" + shape;
  }

  // ---- Lists --------------------------------------------------------------------------------

  ghost predicate AllItems(items: seq<string>, shapes: seq<string>, spaced: bool) {
    |items| == |shapes| && forall i :: 0 <= i < |items| ==> IsItem(items[i], shapes[i], spaced)
  }

  function Listed(shapes: seq<string>): string {
    if shapes == [] then ""
    else if |shapes| == 1 then shapes[0]
    else shapes[0] + ("," + Listed(shapes[1..]))
  }

  /** A comma, white space and the items that follow. */
  lemma CommaThenRest(rest: string, shape: string, indent: Option<string>, depth: nat)
    requires SpaceIndent(indent) && IsLaidOut(rest, shape, indent.Some?)
    ensures IsLaidOut("," + Gap(indent, depth) + rest, "," + shape, indent.Some?)
  {
    hide IsItem, IsLaidOut;
    PlainIsLaidOut(",", indent.Some?);
    GapIsLaidOut(indent, depth);
    LaidOutBehind(Gap(indent, depth), rest, shape, indent.Some?);
    LaidOutTwo(",", ",", Gap(indent, depth) + rest, shape, indent.Some?);
    assert "," + (Gap(indent, depth) + rest) == "," + Gap(indent, depth) + rest;
  }

  lemma {:induction false} JoinIsLaidOut(items: seq<string>, shapes: seq<string>, indent: Option<string>, depth: nat)
    requires SpaceIndent(indent) && items != [] && AllItems(items, shapes, indent.Some?)
    ensures IsLaidOut(Join(items, "," + Gap(indent, depth)), Listed(shapes), indent.Some?)
  {
    hide IsItem, IsLaidOut;
    var comma, spaced := "," + Gap(indent, depth), indent.Some?;
    ItemIsLaidOut(items[0], shapes[0], spaced);
    if |items| > 1 {
      var rest := Join(items[1..], comma);
      JoinIsLaidOut(items[1..], shapes[1..], indent, depth);
      CommaThenRest(rest, Listed(shapes[1..]), indent, depth);
      LaidOutTwo(items[0], shapes[0], comma + rest, "," + Listed(shapes[1..]), spaced);
      Regroup3(items[0], comma, rest);
    }
  }

  lemma EnclosedIsItem(open: char, items: seq<string>, shapes: seq<string>, close: char, indent: Option<string>,
                       depth: nat)
    requires SpaceIndent(indent) && items != [] && AllItems(items, shapes, indent.Some?)
    requires open in {'[', '{'} && close in {']', '}'}
    ensures IsItem(Enclosed(open, items, close, indent, depth), [open] + (Listed(shapes) + [close]), indent.Some?)
  {
    hide IsItem, IsLaidOut;
    var spaced := indent.Some?;
    var before, after := Gap(indent, depth + 1), Gap(indent, depth);
    var list := Join(items, "," + before);
    PlainIsItem([open], spaced);
    PlainIsLaidOut([close], spaced);
    GapIsLaidOut(indent, depth);
    GapIsLaidOut(indent, depth + 1);
    JoinIsLaidOut(items, shapes, indent, depth + 1);
    LaidOutBehind(after, [close], [close], spaced);
    LaidOutTwo(list, Listed(shapes), after + [close], [close], spaced);
    LaidOutBehind(before, list + (after + [close]), Listed(shapes) + [close], spaced);
    ItemThenRest([open], [open], before + (list + (after + [close])), Listed(shapes) + [close], spaced);
  }

  lemma {:induction false} ElementsAreItems(elements: seq<Json>, indent: Option<string>, depth: nat)
      returns (shapes: seq<string>)
    requires SpaceIndent(indent) && forall e :: e in elements ==> Printable(e)
    ensures AllItems(Items(elements, indent, depth), shapes, indent.Some?)
    ensures |shapes| == |elements| && Listed(shapes) == ElementShapes(elements)
    decreases elements, 0
  {
    hide IsItem, AllItems;
    shapes := [];
    if elements == [] {
      NoItems(indent.Some?);
    } else {
      ValueIsItem(elements[0], indent, depth);
      var rest := ElementsAreItems(elements[1..], indent, depth);
      shapes := [Shape(elements[0])] + rest;
      assert shapes[1..] == rest;
      OneMoreItem(Stringify(elements[0], indent, depth), Shape(elements[0]), Items(elements[1..], indent, depth), rest,
                  indent.Some?);
    }
  }

  lemma NoItems(spaced: bool)
    ensures AllItems([], [], spaced)
  {
  }

  lemma OneMoreItem(item: string, shape: string, items: seq<string>, shapes: seq<string>, spaced: bool)
    requires IsItem(item, shape, spaced) && AllItems(items, shapes, spaced)
    ensures AllItems([item] + items, [shape] + shapes, spaced)
  {
    hide IsItem;
  }

  lemma {:induction false} MembersAreItems(members: seq<Property<Json>>, indent: Option<string>, depth: nat)
      returns (shapes: seq<string>)
    requires SpaceIndent(indent) && forall m :: m in members ==> Printable(m.value)
    ensures AllItems(Entries(members, indent, depth), shapes, indent.Some?)
    ensures |shapes| == |members| && Listed(shapes) == MemberShapes(members)
    decreases members, 0
  {
    hide IsItem, AllItems;
    shapes := [];
    if members == [] {
      NoItems(indent.Some?);
    } else {
      var m := members[0];
      assert m in members;
      ValueIsItem(m.value, indent, depth);
      EntryIsItem(m.name, Stringify(m.value, indent, depth), Shape(m.value), indent);
      var rest := MembersAreItems(members[1..], indent, depth);
      shapes := ["\":" + Shape(m.value)] + rest;
      assert shapes[1..] == rest;
      OneMoreItem(Entry(m.name, Stringify(m.value, indent, depth), indent), "\":" + Shape(m.value),
                  Entries(members[1..], indent, depth), rest, indent.Some?);
    }
  }

  lemma {:induction false} ValueIsItem(v: Json, indent: Option<string>, depth: nat)
    requires Printable(v) && SpaceIndent(indent)
    ensures IsItem(Stringify(v, indent, depth), Shape(v), indent.Some?)
    decreases v, 1
  {
    hide IsItem, IsLaidOut;
    match v
    case Null => PlainIsItem("null", indent.Some?);
    case Bool(b) => PlainIsItem(if b then "true" else "false", indent.Some?);
    case Smi(n) => IntegerIsItem(n as int, indent.Some?);
    case Str(s) => QuotedIsItem(s, indent.Some?);
    case Arr(elements) =>
      if elements == [] {
        PlainIsItem("[]", indent.Some?);
        assert Shape(v) == "[]";
      } else {
        var shapes := ElementsAreItems(elements, indent, depth + 1);
        EnclosedIsItem('[', Items(elements, indent, depth + 1), shapes, ']', indent, depth);
      }
    case Obj(members) =>
      if members == [] {
        PlainIsItem("{}", indent.Some?);
        assert Shape(v) == "{}";
      } else {
        var shapes := MembersAreItems(members, indent, depth + 1);
        EnclosedIsItem('{', Entries(members, indent, depth + 1), shapes, '}', indent, depth);
      }
  }

  // ---- The layout of printed text -----------------------------------------------------------

  lemma OutlineOfAll(text: string, out: string)
    requires HasOutline(text, out)
    ensures Outline(text) == out
  {
    OutlineOfPart(text, out, "");
    assert text + "" == text && out + Outline("") == out;
  }

  /** Compact text has no white space outside its strings: its outline is the shape of the value. */
  lemma CompactHasNoSpace(v: Json)
    requires Printable(v)
    ensures Outline(Stringify(v, None, 0)) == Shape(v)
    ensures HasNoSpace(Outline(Stringify(v, None, 0)))
  {
    ValueIsItem(v, None, 0);
    var out :| HasOutline(Stringify(v, None, 0), out) && Tidy(out, false) && Squeezed(out) == Shape(v);
    OutlineOfAll(Stringify(v, None, 0), out);
    SqueezedNoSpace(out);
  }

  /** Indented text has exactly one space behind each colon outside its strings, and but for white space it is
      the compact text. */
  lemma IndentedHasSpacedColons(v: Json, step: string)
    requires Printable(v) && AllSpace(step)
    ensures ColonsAreSpaced(Outline(Stringify(v, Some(step), 0)))
    ensures Squeezed(Outline(Stringify(v, Some(step), 0))) == Outline(Stringify(v, None, 0))
  {
    ValueIsItem(v, Some(step), 0);
    var out :| HasOutline(Stringify(v, Some(step), 0), out) && Tidy(out, true) && Squeezed(out) == Shape(v);
    OutlineOfAll(Stringify(v, Some(step), 0), out);
    CompactHasNoSpace(v);
  }

  /** Every item on a line of its own behind the margin, with commas at the line ends. */
  function Lines(items: seq<string>, margin: string): string {
    if items == [] then ""
    else if |items| == 1 then "\n" + (margin + items[0])
    else "\n" + (margin + (items[0] + ("," + Lines(items[1..], margin))))
  }

  lemma {:induction false} JoinIsLines(items: seq<string>, margin: string)
    requires items != []
    ensures ("\n" + margin) + Join(items, "," + ("\n" + margin)) == Lines(items, margin)
  {
    var line := "\n" + margin;
    if |items| == 1 {
      Regroup3("\n", margin, items[0]);
    } else {
      var rest := Join(items[1..], "," + line);
      JoinIsLines(items[1..], margin);
      Regroup3(items[0], "," + line, rest);
      Regroup3(",", line, rest);
      Regroup3("\n", margin, items[0] + ("," + (line + rest)));
    }
  }

  lemma EnclosedIsLines(open: char, items: seq<string>, close: char, step: string, depth: nat)
    requires items != []
    ensures Enclosed(open, items, close, Some(step), depth)
         == [open] + (Lines(items, Repeat(step, depth + 1)) + ("\n" + Repeat(step, depth) + [close]))
  {
    var margin := Repeat(step, depth + 1);
    JoinIsLines(items, margin);
    Regroup3("\n" + margin, Join(items, "," + ("\n" + margin)), "\n" + Repeat(step, depth) + [close]);
  }

  /** Indented, an array or object puts every item on its own line, one step further in than its brackets. */
  lemma IndentedLines(v: Json, step: string, depth: nat)
    requires Printable(v)
    ensures v.Arr? && v.elements != [] ==>
      Stringify(v, Some(step), depth)
        == "[" + (Lines(Items(v.elements, Some(step), depth + 1), Repeat(step, depth + 1))
                  + ("\n" + Repeat(step, depth) + "]"))
    ensures v.Obj? && v.members != [] ==>
      Stringify(v, Some(step), depth)
        == "{" + (Lines(Entries(v.members, Some(step), depth + 1), Repeat(step, depth + 1))
                  + ("\n" + Repeat(step, depth) + "}"))
  {
    if v.Arr? && v.elements != [] {
      EnclosedIsLines('[', Items(v.elements, Some(step), depth + 1), ']', step, depth);
    }
    if v.Obj? && v.members != [] {
      EnclosedIsLines('{', Entries(v.members, Some(step), depth + 1), '}', step, depth);
    }
  }

  lemma {:induction false} MarginLength(step: string, n: nat)
    ensures |Repeat(step, n)| == n * |step|
  {
    if n > 0 { MarginLength(step, n - 1); }
  }

  lemma {:induction false} AllSpaces(n: nat, i: nat)
    requires i < n
    ensures |Repeat(" ", n)| == n && Repeat(" ", n)[i] == ' '
  {
    MarginLength(" ", n);
    if i > 0 { AllSpaces(n - 1, i - 1); }
  }

  /** An integer as the third argument: that many spaces, ten at most, and the compact form for none. */
  lemma SpacesAreClamped(n: Values.int32)
    ensures n <= 0 ==> SpaceArgument(n) == None
    ensures n > 0 ==>
      && SpaceArgument(n).Some? && |SpaceArgument(n).value| == (if n > 10 then 10 else n as int)
      && forall i :: 0 <= i < |SpaceArgument(n).value| ==> SpaceArgument(n).value[i] == ' '
  {
    if n > 0 {
      var count: nat := if n > 10 then 10 else n as nat;
      MarginLength(" ", count);
      forall i | 0 <= i < count ensures Repeat(" ", count)[i] == ' ' { AllSpaces(count, i); }
    }
  }
}
