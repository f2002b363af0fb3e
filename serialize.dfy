/**
 * The line-based serializer: a tree is first turned into lines, each with
 * an indent level, and the lines are then either concatenated (compact
 * output) or prefixed with the indent and joined with '\n'.
 */
module Serialize {
  import opened Strings
  import opened Markup

  /**
   * What the serializer walks: an element class with its tag, attributes and
   * children, a text, or an `E` instance whose sub-elements stand in its
   * place with no tag of their own.
   */
  datatype Node =
    | Elem(tag: string, attrs: seq<(string, string)>, kids: seq<Node>)
    | Text(s: string)
    | Group(members: seq<Node>)

  /** `IndentedLine`: one line of output and its indent level. */
  datatype IndentedLine = IndentedLine(text: string, level: nat)

  /**
   * A serialization either succeeds or stops with `NotImplementedError`,
   * naming the `pre` element it does not know how to write.
   */
  datatype Outcome<T> = Ok(value: T) | NotImplemented(tag: string)

  /**
   * `_build_tag_opening`: `<tag`, the attributes, then `/>` for a leaf and
   * `>` otherwise; a space separates tag and attributes only when there
   * are attributes.
   */
  function TagOpening(tag: string, isLeaf: bool, attrs: seq<(string, string)>): (r: string)
    ensures StartsWith(r, "<" + tag)
    ensures EndsWith(r, if isLeaf then "/>" else ">")
    ensures attrs == [] <==> r == "<" + tag + (if isLeaf then "/>" else ">")
    ensures attrs != [] ==> StartsWith(r, "<" + tag + " ")
  {
    AttrsStringEmpty(attrs);
    "<" + tag + AttrsString(attrs) + (if isLeaf then "/>" else ">")
  }

  /** `_build_tag_closing`: a leaf has no closing tag. */
  function TagClosing(tag: string, isLeaf: bool): (r: string)
    ensures r == "" <==> isLeaf
    ensures !isLeaf ==> StartsWith(r, "</") && EndsWith(r, tag + ">")
  {
    if isLeaf then "" else "</" + tag + ">"
  }

  /** A tag names a `pre` element whatever the case of its ASCII letters. */
  predicate IsPre(tag: string) {
    LowerAscii(tag) == "pre"
  }

  /**
   * `_handle_pre`: a `pre` element is written on one line, its only text
   * escaped but its line breaks kept; anything but no children or a single
   * text child is refused.
   */
  function HandlePre(tag: string, kids: seq<Node>, opening: string, closing: string): (r: Outcome<string>)
    ensures r.Ok? <==> kids == [] || (|kids| == 1 && kids[0].Text?)
    ensures r.NotImplemented? ==> r.tag == tag
  {
    if kids == [] || kids == [Text("")] then Ok(opening + closing)
    else if |kids| != 1 || !kids[0].Text? then NotImplemented(tag)
    else Ok(opening + Escape(kids[0].s) + closing)
  }

  /** The lines of a text: one escaped line per line of the string. */
  function TextLines(s: string, level: nat): (ls: seq<IndentedLine>)
    ensures |ls| == |SplitLines(s)|
  {
    var lines := SplitLines(s);
    seq(|lines|, i requires 0 <= i < |lines| => IndentedLine(Escape(lines[i]), level))
  }

  /**
   * The lines of several generators one after another; the first failure
   * stops them all, and is what the whole reports.
   */
  function Concat(rs: seq<Outcome<seq<IndentedLine>>>): (r: Outcome<seq<IndentedLine>>)
    ensures r.Ok? <==> forall i | 0 <= i < |rs| :: rs[i].Ok?
    ensures r.NotImplemented? ==> exists i | 0 <= i < |rs| :: rs[i] == r && forall j | 0 <= j < i :: rs[j].Ok?
  {
    if rs == [] then Ok([])
    else match rs[0]
      case NotImplemented(t) => NotImplemented(t)
      case Ok(first) =>
        var rest := Concat(rs[1..]);
        assert forall i | 1 <= i < |rs| :: rs[1..][i - 1] == rs[i];
        match rest
        case NotImplemented(t) =>
          var i :| 0 <= i < |rs[1..]| && rs[1..][i] == rest && forall j | 0 <= j < i :: rs[1..][j].Ok?;
          assert rs[i + 1] == rest && forall j | 0 <= j < i + 1 :: rs[j].Ok?;
          rest
        case Ok(more) => Ok(first + more)
  }

  /** Lines placed before and after the lines of a successful generator. */
  function Surround(before: seq<IndentedLine>, r: Outcome<seq<IndentedLine>>, after: seq<IndentedLine>): Outcome<seq<IndentedLine>> {
    match r
    case Ok(ls) => Ok(before + ls + after)
    case NotImplemented(t) => NotImplemented(t)
  }

  /** The children of an element, or the sub-elements of an `E` instance. */
  function Children(n: Node): seq<Node> {
    match n
    case Elem(_, _, kids) => kids
    case Group(members) => members
    case Text(_) => []
  }

  /**
   * The lines of an element at indentation level `level`: the doctype line
   * if asked for, then the lines of the element itself.
   */
  function Lines(n: Node, level: nat, doctype: bool): Outcome<seq<IndentedLine>>
    decreases n, 2
  {
    var head := if doctype then [IndentedLine(DOCTYPE, level)] else [];
    Surround(head, NodeLines(n, level), [])
  }

  /**
   * The lines `_lines` yields after the doctype: those of a text, of the
   * sub-elements of an `E` instance at the same level, of a `pre` element on
   * one line, or of an element: its opening at `level`, its children at
   * `level + 1`, and its closing at `level` unless it is a leaf.
   */
  function NodeLines(n: Node, level: nat): Outcome<seq<IndentedLine>>
    decreases n, 1
  {
    match n
    case Text(s) => Ok(TextLines(s, level))
    case Group(_) => ChildLines(n, level)
    case Elem(tag, attrs, kids) =>
      var isLeaf := kids == [];
      var opening := TagOpening(tag, isLeaf, attrs);
      var closing := TagClosing(tag, isLeaf);
      if IsPre(tag) then
        match HandlePre(tag, kids, opening, closing)
        case Ok(line) => Ok([IndentedLine(line, level)])
        case NotImplemented(t) => NotImplemented(t)
      else
        var closingLines := if closing != "" then [IndentedLine(closing, level)] else [];
        Surround([IndentedLine(opening, level)], ChildLines(n, level + 1), closingLines)
  }

  /** The lines of every child in order, each child at `level`. */
  function ChildLines(n: Node, level: nat): Outcome<seq<IndentedLine>>
    decreases n, 0
  {
    var kids := Children(n);
    Concat(seq(|kids|, i requires 0 <= i < |kids| => Lines(kids[i], level, false)))
  }

  /** The line texts, in order. */
  function Texts(lines: seq<IndentedLine>): (ts: seq<string>)
    ensures |ts| == |lines|
  {
    seq(|lines|, i requires 0 <= i < |lines| => lines[i].text)
  }

  /** Every line behind `indent` repeated as many times as its level. */
  function IndentedTexts(lines: seq<IndentedLine>, indent: string): (ts: seq<string>)
    ensures |ts| == |lines|
  {
    seq(|lines|, i requires 0 <= i < |lines| => Repeat(indent, lines[i].level) + lines[i].text)
  }

  /** The output of `to_string` for a list of lines. */
  function Assemble(lines: seq<IndentedLine>, indent: string): string {
    if indent != "" then Join("\n", IndentedTexts(lines, indent)) else Join("", Texts(lines))
  }

  /** The serialized element: its lines joined, or the first unsupported case met. */
  function ToString(n: Node, indent: string, htmlDoctype: bool): Outcome<string> {
    match Lines(n, 0, htmlDoctype)
    case Ok(lines) => Ok(Assemble(lines, indent))
    case NotImplemented(t) => NotImplemented(t)
  }

  /**
   * Every `pre` element in the tree has no children or a single text child;
   * the children of other elements and of `E` instances are checked in turn.
   */
  predicate PreOk(n: Node)
    decreases n
  {
    match n
    case Text(_) => true
    case Group(members) => forall i | 0 <= i < |members| :: PreOk(members[i])
    case Elem(tag, _, kids) =>
      if IsPre(tag) then kids == [] || (|kids| == 1 && kids[0].Text?)
      else forall i | 0 <= i < |kids| :: PreOk(kids[i])
  }

  /** Without a doctype, `_lines` yields the lines of the element and nothing else. */
  lemma NoDoctype(n: Node, level: nat)
    ensures Lines(n, level, false) == NodeLines(n, level)
  {
    match NodeLines(n, level)
    case Ok(ls) => assert [] + ls + [] == ls;
    case NotImplemented(_) =>
  }

  /** A single line at level 0 is written as it is in both modes. */
  lemma AssembleOne(line: string, indent: string)
    ensures Assemble([IndentedLine(line, 0)], indent) == line
  {
    assert Repeat(indent, 0) + line == line;
  }

  /** Serializing a tree fails exactly when one of its `pre` elements cannot be written. */
  lemma {:induction false} NodeLinesOk(n: Node, level: nat)
    ensures NodeLines(n, level).Ok? <==> PreOk(n)
    decreases n, 1
  {
    match n
    case Text(_) =>
    case Group(_) =>
      ChildLinesOk(n, level);
    case Elem(tag, _, _) =>
      if !IsPre(tag) {
        ChildLinesOk(n, level + 1);
      }
  }

  lemma {:induction false} ChildLinesOk(n: Node, level: nat)
    requires !n.Text?
    ensures ChildLines(n, level).Ok? <==> forall i | 0 <= i < |Children(n)| :: PreOk(Children(n)[i])
    decreases n, 0
  {
    var kids := Children(n);
    var rs := seq(|kids|, i requires 0 <= i < |kids| => Lines(kids[i], level, false));
    assert ChildLines(n, level) == Concat(rs);
    forall i | 0 <= i < |kids| ensures rs[i].Ok? <==> PreOk(kids[i]) {
      NoDoctype(kids[i], level);
      NodeLinesOk(kids[i], level);
    }
  }

  /** `to_string` gives a string exactly when every `pre` element can be written. */
  lemma ToStringOk(n: Node, indent: string, htmlDoctype: bool)
    ensures ToString(n, indent, htmlDoctype).Ok? <==> PreOk(n)
  {
    NodeLinesOk(n, 0);
  }

  /** No line of a tree is indented less than the tree itself. */
  lemma {:induction false} NodeLinesLevels(n: Node, level: nat)
    ensures NodeLines(n, level).Ok? ==>
      forall j | 0 <= j < |NodeLines(n, level).value| :: NodeLines(n, level).value[j].level >= level
    decreases n, 1
  {
    match n
    case Text(_) =>
    case Group(_) =>
      ChildLinesLevels(n, level);
    case Elem(tag, attrs, kids) =>
      if !IsPre(tag) {
        ChildLinesLevels(n, level + 1);
        var closing := TagClosing(tag, kids == []);
        var closingLines := if closing != "" then [IndentedLine(closing, level)] else [];
        SurroundLevels([IndentedLine(TagOpening(tag, kids == [], attrs), level)], ChildLines(n, level + 1), closingLines, level);
      }
  }

  lemma SurroundLevels(before: seq<IndentedLine>, r: Outcome<seq<IndentedLine>>, after: seq<IndentedLine>, level: nat)
    requires forall j | 0 <= j < |before| :: before[j].level >= level
    requires forall j | 0 <= j < |after| :: after[j].level >= level
    requires r.Ok? ==> forall j | 0 <= j < |r.value| :: r.value[j].level >= level
    ensures Surround(before, r, after).Ok? ==>
      forall j | 0 <= j < |Surround(before, r, after).value| :: Surround(before, r, after).value[j].level >= level
  {
  }

  lemma {:induction false} ChildLinesLevels(n: Node, level: nat)
    requires !n.Text?
    ensures ChildLines(n, level).Ok? ==>
      forall j | 0 <= j < |ChildLines(n, level).value| :: ChildLines(n, level).value[j].level >= level
    decreases n, 0
  {
    var kids := Children(n);
    var rs := seq(|kids|, i requires 0 <= i < |kids| => Lines(kids[i], level, false));
    assert ChildLines(n, level) == Concat(rs);
    forall i | 0 <= i < |kids|
      ensures rs[i].Ok? ==> forall j | 0 <= j < |rs[i].value| :: rs[i].value[j].level >= level
    {
      NoDoctype(kids[i], level);
      NodeLinesLevels(kids[i], level);
    }
    ConcatLevels(rs, level);
  }

  lemma {:induction false} ConcatLevels(rs: seq<Outcome<seq<IndentedLine>>>, level: nat)
    requires forall i | 0 <= i < |rs| :: rs[i].Ok? ==> forall j | 0 <= j < |rs[i].value| :: rs[i].value[j].level >= level
    ensures Concat(rs).Ok? ==> forall j | 0 <= j < |Concat(rs).value| :: Concat(rs).value[j].level >= level
  {
    if rs != [] && rs[0].Ok? {
      assert forall i | 1 <= i < |rs| :: rs[1..][i - 1] == rs[i];
      ConcatLevels(rs[1..], level);
    }
  }

  /**
   * An element that is not `pre` and has children: its opening tag at its
   * own level, the lines of its children, all indented deeper, and its
   * closing tag back at its own level.
   */
  lemma ElementLines(tag: string, attrs: seq<(string, string)>, kids: seq<Node>, level: nat)
    requires !IsPre(tag) && kids != []
    ensures var n := Elem(tag, attrs, kids);
      match ChildLines(n, level + 1)
      case Ok(inner) =>
        && Lines(n, level, false) == Ok([IndentedLine("<" + tag + AttrsString(attrs) + ">", level)] + inner + [IndentedLine("</" + tag + ">", level)])
        && forall j | 0 <= j < |inner| :: inner[j].level > level
      case NotImplemented(t) => Lines(n, level, false) == NotImplemented(t)
  {
    var n := Elem(tag, attrs, kids);
    NoDoctype(n, level);
    ChildLinesLevels(n, level + 1);
  }

  /** An element without children is a single self-closing line, `pre` or not, in every mode. */
  lemma LeafLine(tag: string, attrs: seq<(string, string)>, level: nat, indent: string)
    ensures Lines(Elem(tag, attrs, []), level, false) == Ok([IndentedLine("<" + tag + AttrsString(attrs) + "/>", level)])
    ensures ToString(Elem(tag, attrs, []), indent, false) == Ok("<" + tag + AttrsString(attrs) + "/>")
  {
    var n := Elem(tag, attrs, []);
    var line := "<" + tag + AttrsString(attrs) + "/>";
    LeafNodeLines(tag, attrs, level);
    LeafNodeLines(tag, attrs, 0);
    NoDoctype(n, level);
    NoDoctype(n, 0);
    AssembleOne(line, indent);
  }

  lemma LeafNodeLines(tag: string, attrs: seq<(string, string)>, level: nat)
    ensures NodeLines(Elem(tag, attrs, []), level) == Ok([IndentedLine("<" + tag + AttrsString(attrs) + "/>", level)])
  {
    var line := "<" + tag + AttrsString(attrs) + "/>";
    if IsPre(tag) {
      assert line + "" == line;
    } else {
      assert ChildLines(Elem(tag, attrs, []), level + 1) == Ok([]);
      assert [IndentedLine(line, level)] + [] + [] == [IndentedLine(line, level)];
    }
  }

  /**
   * A text is one line per line of the string, all at the text's level,
   * escaped and without line breaks; an empty string gives no lines, and
   * unescaping the lines and joining them with '\n' gives the string back
   * less a final newline.
   */
  lemma TextLinesRoundTrip(s: string, level: nat)
    ensures Lines(Text(s), level, false).Ok?
    ensures var ls := Lines(Text(s), level, false).value;
      && (ls == [] <==> s == "")
      && (forall j | 0 <= j < |ls| :: ls[j].level == level && '\n' !in ls[j].text)
      && Join("\n", seq(|ls|, j requires 0 <= j < |ls| => Unescape(ls[j].text))) + FinalNewline(s) == s
  {
    var ls := TextLines(s, level);
    NoDoctype(Text(s), level);
    var lines := SplitLines(s);
    var back := seq(|ls|, j requires 0 <= j < |ls| => Unescape(ls[j].text));
    forall j | 0 <= j < |ls| ensures back[j] == lines[j] && ls[j].level == level && '\n' !in ls[j].text {
      UnescapeEscape(lines[j]);
    }
    assert back == lines;
    SplitLinesJoin(s);
  }

  /** In compact mode a text loses its line breaks and is escaped. */
  lemma CompactText(s: string)
    ensures ToString(Text(s), "", false) == Ok(Escape(RemoveNewlines(s)))
  {
    var ls := TextLines(s, 0);
    NoDoctype(Text(s), 0);
    var lines := SplitLines(s);
    assert Texts(ls) == EscapeEach(lines);
    EscapeConcat(lines);
    SplitLinesConcat(s);
  }

  /**
   * A `pre` element with a single text child is one line whatever the
   * indent: the text escaped, its line breaks kept, between the tags.
   */
  lemma PreText(tag: string, attrs: seq<(string, string)>, s: string, level: nat, indent: string)
    requires IsPre(tag)
    ensures var line := "<" + tag + AttrsString(attrs) + ">" + Escape(s) + ("</" + tag + ">");
      && Lines(Elem(tag, attrs, [Text(s)]), level, false) == Ok([IndentedLine(line, level)])
      && ToString(Elem(tag, attrs, [Text(s)]), indent, false) == Ok(line)
  {
    var n := Elem(tag, attrs, [Text(s)]);
    var line := "<" + tag + AttrsString(attrs) + ">" + Escape(s) + ("</" + tag + ">");
    PreNodeLines(tag, attrs, s, level);
    PreNodeLines(tag, attrs, s, 0);
    NoDoctype(n, level);
    NoDoctype(n, 0);
    AssembleOne(line, indent);
  }

  lemma PreNodeLines(tag: string, attrs: seq<(string, string)>, s: string, level: nat)
    requires IsPre(tag)
    ensures NodeLines(Elem(tag, attrs, [Text(s)]), level)
      == Ok([IndentedLine("<" + tag + AttrsString(attrs) + ">" + Escape(s) + ("</" + tag + ">"), level)])
  {
    var opening := "<" + tag + AttrsString(attrs) + ">";
    var closing := "</" + tag + ">";
    assert TagOpening(tag, false, attrs) == opening;
    if s == "" {
      assert opening + Escape(s) + closing == opening + closing;
    }
    assert HandlePre(tag, [Text(s)], opening, closing) == Ok(opening + Escape(s) + closing);
  }

  /**
   * A `pre` element with several children, or with one that is not a text,
   * stops the serialization: no output at all, whatever the options.
   */
  lemma PreRefused(tag: string, attrs: seq<(string, string)>, kids: seq<Node>, indent: string, htmlDoctype: bool)
    requires IsPre(tag)
    requires |kids| > 1 || (|kids| == 1 && !kids[0].Text?)
    ensures ToString(Elem(tag, attrs, kids), indent, htmlDoctype) == NotImplemented(tag)
  {
    assert kids != [] && kids != [Text("")];
    var n := Elem(tag, attrs, kids);
    assert HandlePre(tag, kids, TagOpening(tag, false, attrs), TagClosing(tag, false)) == NotImplemented(tag);
    assert NodeLines(n, 0) == NotImplemented(tag);
  }

  /** Writing the doctype line first puts `<!DOCTYPE html>` before the rest of the output. */
  lemma AssembleDoctype(ls: seq<IndentedLine>, indent: string)
    ensures Assemble([IndentedLine(DOCTYPE, 0)] + ls, indent)
      == DOCTYPE + (if indent != "" && ls != [] then "\n" else "") + Assemble(ls, indent)
  {
    var doc := IndentedLine(DOCTYPE, 0);
    if indent != "" {
      var rest := IndentedTexts(ls, indent);
      assert Repeat(indent, 0) + DOCTYPE == DOCTYPE;
      assert IndentedTexts([doc] + ls, indent) == [DOCTYPE] + rest;
      if ls == [] {
        assert [DOCTYPE] + rest == [DOCTYPE];
        assert DOCTYPE + "" + "" == DOCTYPE;
      } else {
        JoinCons("\n", DOCTYPE, rest);
      }
    } else {
      assert Texts([doc] + ls) == [DOCTYPE] + Texts(ls);
      ConcatCons(DOCTYPE, Texts(ls));
      assert DOCTYPE + "" == DOCTYPE;
    }
  }

  /**
   * The doctype comes first, on a line of its own in indented mode and
   * directly before the markup in compact mode; it changes nothing else.
   */
  lemma DoctypeFirst(n: Node, indent: string)
    ensures ToString(n, indent, true).Ok? <==> ToString(n, indent, false).Ok?
    ensures ToString(n, indent, false).Ok? ==>
      var sep := if indent != "" && Lines(n, 0, false).value != [] then "\n" else "";
      ToString(n, indent, true).value == DOCTYPE + sep + ToString(n, indent, false).value
  {
    NoDoctype(n, 0);
    match NodeLines(n, 0)
    case Ok(ls) =>
      assert Lines(n, 0, true) == Ok([IndentedLine(DOCTYPE, 0)] + ls + []);
      assert [IndentedLine(DOCTYPE, 0)] + ls + [] == [IndentedLine(DOCTYPE, 0)] + ls;
      AssembleDoctype(ls, indent);
    case NotImplemented(_) =>
  }

  /**
   * In indented mode, when no line holds a line break and the last is not
   * empty, the output has exactly one physical line per `IndentedLine`: its
   * text behind `indent` repeated as many times as its level.
   */
  lemma IndentedPhysicalLines(n: Node, indent: string, htmlDoctype: bool, ls: seq<IndentedLine>)
    requires indent != "" && '\n' !in indent
    requires Lines(n, 0, htmlDoctype) == Ok(ls)
    requires forall j | 0 <= j < |ls| :: '\n' !in ls[j].text
    requires ls == [] || ls[|ls| - 1].text != ""
    ensures ToString(n, indent, htmlDoctype).Ok?
    ensures SplitLines(ToString(n, indent, htmlDoctype).value) == IndentedTexts(ls, indent)
  {
    AssembleLines(ls, indent);
  }

  lemma AssembleLines(ls: seq<IndentedLine>, indent: string)
    requires indent != "" && '\n' !in indent
    requires forall j | 0 <= j < |ls| :: '\n' !in ls[j].text
    requires ls == [] || ls[|ls| - 1].text != ""
    ensures SplitLines(Assemble(ls, indent)) == IndentedTexts(ls, indent)
  {
    var parts := IndentedTexts(ls, indent);
    forall j | 0 <= j < |parts| ensures '\n' !in parts[j] {
      RepeatNoNewline(indent, ls[j].level);
    }
    SplitLinesOfJoin(parts);
  }
}
