/**
 * Both serializers on the element trees of the repository's tests and of
 * its README example: `to_string` of htmlclasses.py on blueprints, and
 * `to_string` of serialize.py on nodes.  Each example is derived from
 * general lemmas about the shapes involved.
 */
module Renderings {
  import opened Strings
  import opened OrderedMap
  import opened Markup
  import opened Blueprints
  import Old = ElementString
  import opened Serialize

  // ------------------------------------------------------ attribute parts

  /** One attribute: a space, then `k="v"`. */
  lemma AttrsOne(k: string, v: string)
    ensures AttrsString([(k, v)]) == " " + k + "=\"" + v + "\""
  {
    var attrs := [(k, v)];
    var pairs := seq(|attrs|, i requires 0 <= i < |attrs| => AttrPair(attrs[i]));
    assert pairs == [AttrPair((k, v))];
  }

  /** Each further attribute adds a space and its `k="v"`, in order. */
  lemma AttrsCons(k: string, v: string, rest: seq<(string, string)>)
    requires rest != []
    ensures AttrsString([(k, v)] + rest) == " " + k + "=\"" + v + "\"" + AttrsString(rest)
  {
    var tail := seq(|rest|, i requires 0 <= i < |rest| => AttrPair(rest[i]));
    PairsCons(k, v, rest);
    JoinCons(" ", AttrPair((k, v)), tail);
    AttrsStringEmpty(rest);
    ConsShape(k, v, Join(" ", tail));
  }

  lemma PairsCons(k: string, v: string, rest: seq<(string, string)>)
    ensures var attrs := [(k, v)] + rest;
      seq(|attrs|, i requires 0 <= i < |attrs| => AttrPair(attrs[i]))
      == [AttrPair((k, v))] + seq(|rest|, i requires 0 <= i < |rest| => AttrPair(rest[i]))
  {
    var attrs := [(k, v)] + rest;
    var pairs := seq(|attrs|, i requires 0 <= i < |attrs| => AttrPair(attrs[i]));
    var tail := seq(|rest|, i requires 0 <= i < |rest| => AttrPair(rest[i]));
    assert forall i | 1 <= i < |pairs| :: pairs[i] == tail[i - 1];
  }

  lemma ConsShape(k: string, v: string, joined: string)
    ensures " " + (AttrPair((k, v)) + " " + joined) == " " + k + "=\"" + v + "\"" + (" " + joined)
  {
  }

  /** Two attributes, in order. */
  lemma AttrsTwo(k1: string, v1: string, k2: string, v2: string)
    ensures AttrsString([(k1, v1), (k2, v2)]) == " " + k1 + "=\"" + v1 + "\" " + k2 + "=\"" + v2 + "\""
  {
    assert [(k1, v1), (k2, v2)] == [(k1, v1)] + [(k2, v2)];
    AttrsCons(k1, v1, [(k2, v2)]);
    AttrsOne(k2, v2);
  }

  // ------------------------------------- to_string of htmlclasses.py: shapes

  /** An element class with attributes only closes itself; the cumulative indent plays no part without `indent`. */
  lemma OldLeaf(tag: string, attrs: seq<(string, string)>, cumulative: string)
    ensures Old.ToString(Blueprint(tag, attrs, [], ""), None, false, cumulative) == "<" + tag + AttrsString(attrs) + "/>"
  {
    Old.SelfClosing(Blueprint(tag, attrs, [], ""), None, cumulative);
    assert Old.Lead(None, cumulative) == "";
    NoLead(tag, AttrsString(attrs));
  }

  lemma NoLead(tag: string, attrs: string)
    ensures "" + "<" + tag + attrs + "/>" == "<" + tag + attrs + "/>"
  {
  }

  /** In the line form, an element class with text only is one line at its indent. */
  lemma OldTextLine(tag: string, attrs: seq<(string, string)>, text: string, ind: string, cumulative: string)
    requires text != ""
    ensures Old.ToString(Blueprint(tag, attrs, [], text), Some(ind), false, cumulative)
         == cumulative + "<" + tag + AttrsString(attrs) + ">" + text + "</" + tag + ">"
  {
    Old.ClosingTagPlacement(Blueprint(tag, attrs, [], text), ind, cumulative);
  }

  /**
   * In the line form under a truthy indent, an element class holding one
   * element: its opening tag, the element one indent deeper on the next
   * line, and its closing tag on a line of its own.
   */
  lemma OldWrapper(tag: string, child: Blueprint, ind: string, cumulative: string)
    requires ind != ""
    ensures Old.ToString(Blueprint(tag, [], [child], ""), Some(ind), false, cumulative)
         == cumulative + "<" + tag + ">" + "\n" + Old.ToString(child, Some(ind), false, cumulative + ind)
          + "\n" + cumulative + "</" + tag + ">"
  {
    var bp := Blueprint(tag, [], [child], "");
    var inner := Old.ToString(child, Some(ind), false, cumulative + ind);
    Old.ToStringTrimmed(bp, Some(ind), false, cumulative);
    WrapperChildren(tag, child, ind, cumulative);
    Old.ToStringNonEmpty(child, Some(ind), false, cumulative + ind);
    AttrsStringEmpty([]);
    WrapperBody(ind, cumulative, inner, tag);
    assert Old.Doctype(Some(ind), false) == "";
  }

  lemma WrapperChildren(tag: string, child: Blueprint, ind: string, cumulative: string)
    requires ind != ""
    ensures Old.Children(Blueprint(tag, [], [child], ""), Some(ind), cumulative)
         == Old.ToString(child, Some(ind), false, cumulative + ind)
  {
    var bp := Blueprint(tag, [], [child], "");
    var cs := Old.ChildStrings(bp, Some(ind), cumulative);
    assert Old.IndentOr(Some(ind)) == ind;
    assert |cs| == 1 && cs[0] == Old.ToString(child, Some(ind), false, cumulative + ind);
    assert Join("\n", cs) == cs[0];
  }

  lemma WrapperBody(ind: string, cumulative: string, inner: string, tag: string)
    requires inner != ""
    ensures Old.ElementBody(Some(ind), cumulative, "", inner, "", tag)
         == cumulative + "<" + tag + ">" + "\n" + inner + "\n" + cumulative + "</" + tag + ">"
  {
  }

  // ---------------------------------- to_string of htmlclasses.py: examples

  /**
   * An element class with two attributes closes itself after them, in
   * their order: `<Y foo="bar" baz="qux"/>` for the subclass of
   * test_adding_attributes_with_subclass.
   */
  lemma LeafTwoAttrs(tag: string, k1: string, v1: string, k2: string, v2: string)
    ensures Old.ToString(Blueprint(tag, [(k1, v1), (k2, v2)], [], ""), None, false, "")
         == "<" + tag + (" " + k1 + "=\"" + v1 + "\" " + k2 + "=\"" + v2 + "\"") + "/>"
  {
    OldLeaf(tag, [(k1, v1), (k2, v2)], "");
    AttrsTwo(k1, v1, k2, v2);
  }

  /**
   * The indentation example, for any names and at any indent `cum`: `foo`
   * holding `bar` holding `baz`, which has attributes and a text.  Each
   * element is on a line of its own, one more indent per level, and `baz`
   * keeps its text and closing tag on its opening line.
   */
  lemma IndentedNest(ind: string, cum: string, a: string, b: string, c: string, attrs: seq<(string, string)>, text: string)
    requires ind != "" && text != ""
    ensures var bazLine := cum + ind + ind + "<" + c + AttrsString(attrs) + ">" + text + "</" + c + ">";
      var barLines := cum + ind + "<" + b + ">" + "\n" + bazLine + "\n" + (cum + ind) + "</" + b + ">";
      Old.ToString(Blueprint(a, [], [Blueprint(b, [], [Blueprint(c, attrs, [], text)], "")], ""), Some(ind), false, cum)
        == cum + "<" + a + ">" + "\n" + barLines + "\n" + cum + "</" + a + ">"
  {
    var baz := Blueprint(c, attrs, [], text);
    var bar := Blueprint(b, [], [baz], "");
    OldTextLine(c, attrs, text, ind, cum + ind + ind);
    OldWrapper(b, baz, ind, cum + ind);
    OldWrapper(a, bar, ind, cum);
  }

  /** An element class with nothing in it closes itself, in every form, at no indent. */
  lemma EmptyLeaf(tag: string, indent: Option<string>)
    ensures Old.ToString(Blueprint(tag, [], [], ""), indent, false, "") == "<" + tag + "/>"
  {
    Old.SelfClosing(Blueprint(tag, [], [], ""), indent, "");
    AttrsStringEmpty([]);
    assert Old.Lead(indent, "") == "";
    NoLeadNoAttrs(tag);
  }

  lemma NoLeadNoAttrs(tag: string)
    ensures "" + "<" + tag + "" + "/>" == "<" + tag + "/>"
  {
  }

  /**
   * The doctype goes straight before the element: a newline follows it only
   * under a truthy indent.
   */
  lemma DoctypeLeaf(tag: string, indent: Option<string>)
    ensures Old.ToString(Blueprint(tag, [], [], ""), indent, true, "")
         == DOCTYPE + (if Old.Truthy(indent) then "\n" else "") + ("<" + tag + "/>")
  {
    Old.DoctypeFirst(Blueprint(tag, [], [], ""), indent, "");
    EmptyLeaf(tag, indent);
  }

  /** An element class with a text only, without an indent. */
  lemma CompactTextLeaf(tag: string, text: string)
    requires text != ""
    ensures Old.ToString(Blueprint(tag, [], [], text), None, false, "") == CompactP(tag, text)
  {
    Old.CompactMatches(Blueprint(tag, [], [], text), "");
    CompactTextOnly(tag, text);
  }

  /** `html` with a text and no indent: the doctype, then the element on the same line. */
  lemma DoctypeText(tag: string, text: string)
    requires text != ""
    ensures Old.ToString(Blueprint(tag, [], [], text), None, true, "") == DOCTYPE + CompactP(tag, text)
  {
    Old.DoctypeFirst(Blueprint(tag, [], [], text), None, "");
    CompactTextLeaf(tag, text);
    assert DOCTYPE + "" == DOCTYPE;
  }

  /**
   * `html` holding `head` and `body` under a falsy indent such as `False`:
   * no newline after the doctype, but each owned element on a line of its
   * own, without indentation.
   */
  lemma FalsyIndentHeadAndBody(a: string, h: string, b: string)
    ensures Old.ToString(Blueprint(a, [], [Blueprint(h, [], [], ""), Blueprint(b, [], [], "")], ""), Some(""), true, "")
         == DOCTYPE + ("<" + a + ">" + "\n" + ("<" + h + "/>" + "\n" + "<" + b + "/>") + "\n" + "</" + a + ">")
  {
    var bp := Blueprint(a, [], [Blueprint(h, [], [], ""), Blueprint(b, [], [], "")], "");
    var children := "<" + h + "/>" + "\n" + "<" + b + "/>";
    Old.DoctypeFirst(bp, Some(""), "");
    Old.ToStringTrimmed(bp, Some(""), false, "");
    FalsyChildren(a, h, b);
    AttrsStringEmpty([]);
    assert Old.Doctype(Some(""), false) == "";
    FalsyBody(a, children);
    assert DOCTYPE + "" == DOCTYPE;
  }

  lemma FalsyBody(a: string, children: string)
    requires children != ""
    ensures Old.ElementBody(Some(""), "", "", children, "", a)
         == "<" + a + ">" + "\n" + children + "\n" + "</" + a + ">"
  {
    assert Old.ElementBody(Some(""), "", "", children, "", a)
        == "" + "<" + a + "" + ">" + ("" + "\n" + children) + ("\n" + "" + "</" + a + ">");
  }

  lemma FalsyChildren(a: string, h: string, b: string)
    ensures Old.Children(Blueprint(a, [], [Blueprint(h, [], [], ""), Blueprint(b, [], [], "")], ""), Some(""), "")
         == "<" + h + "/>" + "\n" + "<" + b + "/>"
  {
    var bp := Blueprint(a, [], [Blueprint(h, [], [], ""), Blueprint(b, [], [], "")], "");
    EmptyLeaf(h, Some(""));
    EmptyLeaf(b, Some(""));
    var kids := Old.ChildStrings(bp, Some(""), "");
    assert "" + Old.IndentOr(Some("")) == "";
    assert kids == ["<" + h + "/>", "<" + b + "/>"];
    JoinCons("\n", kids[0], [kids[1]]);
    assert [kids[0]] + [kids[1]] == kids;
  }

  /**
   * Repeated tags without an indent: three `p` elements with texts, one
   * after the other inside `body`, in order.
   */
  lemma CompactThree(tag: string, p: string, x: string, y: string, z: string)
    requires x != "" && y != "" && z != ""
    ensures Old.ToString(Blueprint(tag, [], [Blueprint(p, [], [], x), Blueprint(p, [], [], y), Blueprint(p, [], [], z)], ""), None, false, "")
         == "<" + tag + ">" + (CompactP(p, x) + (CompactP(p, y) + CompactP(p, z))) + "</" + tag + ">"
  {
    var kids := [Blueprint(p, [], [], x), Blueprint(p, [], [], y), Blueprint(p, [], [], z)];
    var bp := Blueprint(tag, [], kids, "");
    Old.CompactMatches(bp, "");
    AttrsStringEmpty([]);
    CompactThreeChildren(tag, p, x, y, z);
    var inner := CompactP(p, x) + (CompactP(p, y) + CompactP(p, z));
    assert bp.text == "" && bp.owned != [] && AttrsString(bp.attrs) == "";
    assert Old.Compact(bp) == "<" + tag + "" + ">" + ("" + inner) + ("</" + tag + ">");
    NoAttrsNoText(tag, inner);
  }

  lemma NoAttrsNoText(tag: string, inner: string)
    ensures "<" + tag + "" + ">" + ("" + inner) + ("</" + tag + ">") == "<" + tag + ">" + inner + "</" + tag + ">"
  {
  }

  lemma CompactThreeChildren(tag: string, p: string, x: string, y: string, z: string)
    requires x != "" && y != "" && z != ""
    ensures Old.CompactChildren(Blueprint(tag, [], [Blueprint(p, [], [], x), Blueprint(p, [], [], y), Blueprint(p, [], [], z)], ""))
         == CompactP(p, x) + (CompactP(p, y) + CompactP(p, z))
  {
    var bp := Blueprint(tag, [], [Blueprint(p, [], [], x), Blueprint(p, [], [], y), Blueprint(p, [], [], z)], "");
    CompactTextOnly(p, x);
    CompactTextOnly(p, y);
    CompactTextOnly(p, z);
    var parts := seq(|bp.owned|, i requires 0 <= i < |bp.owned| => Old.Compact(bp.owned[i]));
    assert parts == [CompactP(p, x)] + ([CompactP(p, y)] + [CompactP(p, z)]);
    ConcatCons(CompactP(p, x), [CompactP(p, y)] + [CompactP(p, z)]);
    ConcatCons(CompactP(p, y), [CompactP(p, z)]);
    assert Join("", [CompactP(p, z)]) == CompactP(p, z);
  }

  /** `<p>x</p>` */
  function CompactP(p: string, x: string): string {
    "<" + p + ">" + x + "</" + p + ">"
  }

  lemma CompactTextOnly(p: string, x: string)
    requires x != ""
    ensures Old.Compact(Blueprint(p, [], [], x)) == CompactP(p, x)
  {
    AttrsStringEmpty([]);
    assert Old.CompactChildren(Blueprint(p, [], [], x)) == "";
  }

  // ---------------------------------------- to_string of serialize.py: shapes

  /** Only a three-letter tag can be `pre`. */
  lemma NotPre(tag: string)
    requires |tag| != 3
    ensures !IsPre(tag)
  {
  }

  /** A text without line breaks is one escaped line. */
  lemma TextLine(s: string, level: nat)
    requires s != "" && '\n' !in s
    ensures Lines(Text(s), level, false) == Ok([IndentedLine(Escape(s), level)])
  {
    NoDoctype(Text(s), level);
    assert forall j | 0 <= j < |s| :: s[j] != '\n';
    assert SplitLines(s) == [s];
    assert TextLines(s, level) == [IndentedLine(Escape(s), level)];
    assert NodeLines(Text(s), level) == Ok(TextLines(s, level));
  }

  /** The lines of one child. */
  lemma ChildLinesOfOne(n: Node, level: nat, a: seq<IndentedLine>)
    requires |Children(n)| == 1 && Lines(Children(n)[0], level, false) == Ok(a)
    ensures ChildLines(n, level) == Ok(a)
  {
    var kids := Children(n);
    var rs := seq(|kids|, i requires 0 <= i < |kids| => Lines(kids[i], level, false));
    assert ChildLines(n, level) == Concat(rs);
    assert rs == [Ok(a)];
    assert rs[1..] == [];
    assert a + [] == a;
  }

  /** The lines of two children, the first child's first. */
  lemma ChildLinesOfTwo(n: Node, level: nat, a: seq<IndentedLine>, b: seq<IndentedLine>)
    requires |Children(n)| == 2
    requires Lines(Children(n)[0], level, false) == Ok(a) && Lines(Children(n)[1], level, false) == Ok(b)
    ensures ChildLines(n, level) == Ok(a + b)
  {
    var kids := Children(n);
    var rs := seq(|kids|, i requires 0 <= i < |kids| => Lines(kids[i], level, false));
    assert ChildLines(n, level) == Concat(rs);
    assert rs == [Ok(a), Ok(b)];
    assert rs[1..] == [Ok(b)];
    assert rs[1..][1..] == [];
    assert b + [] == b;
    assert Concat(rs[1..]) == Ok(b);
  }

  /** A child-bearing element other than `pre`: opening line, the children's lines, closing line. */
  lemma ElemLines(tag: string, attrs: seq<(string, string)>, kids: seq<Node>, level: nat, inner: seq<IndentedLine>)
    requires !IsPre(tag) && kids != []
    requires ChildLines(Elem(tag, attrs, kids), level + 1) == Ok(inner)
    ensures Lines(Elem(tag, attrs, kids), level, false)
         == Ok([IndentedLine("<" + tag + AttrsString(attrs) + ">", level)] + inner + [IndentedLine("</" + tag + ">", level)])
  {
    ElementLines(tag, attrs, kids, level);
  }

  /** An element other than `pre`, without attributes, holding one child. */
  lemma OneKidLines(tag: string, kid: Node, level: nat, inner: seq<IndentedLine>)
    requires !IsPre(tag) && Lines(kid, level + 1, false) == Ok(inner)
    ensures Lines(Elem(tag, [], [kid]), level, false)
         == Ok([IndentedLine("<" + tag + ">", level)] + inner + [IndentedLine("</" + tag + ">", level)])
  {
    ChildLinesOfOne(Elem(tag, [], [kid]), level + 1, inner);
    AttrsStringEmpty([]);
    ElemLines(tag, [], [kid], level, inner);
    assert "<" + tag + "" + ">" == "<" + tag + ">";
  }

  /** An element other than `pre`, without attributes, holding two children. */
  lemma TwoKidLines(tag: string, kid1: Node, kid2: Node, level: nat, a: seq<IndentedLine>, b: seq<IndentedLine>)
    requires !IsPre(tag) && Lines(kid1, level + 1, false) == Ok(a) && Lines(kid2, level + 1, false) == Ok(b)
    ensures Lines(Elem(tag, [], [kid1, kid2]), level, false)
         == Ok([IndentedLine("<" + tag + ">", level)] + (a + b) + [IndentedLine("</" + tag + ">", level)])
  {
    ChildLinesOfTwo(Elem(tag, [], [kid1, kid2]), level + 1, a, b);
    AttrsStringEmpty([]);
    ElemLines(tag, [], [kid1, kid2], level, a + b);
    assert "<" + tag + "" + ">" == "<" + tag + ">";
  }

  /** An element other than `pre` with a one-line text: three lines, the text one level deeper. */
  lemma TextChildLines(tag: string, t: string, level: nat)
    requires !IsPre(tag) && t != "" && '\n' !in t
    ensures Lines(Elem(tag, [], [Text(t)]), level, false)
         == Ok([IndentedLine("<" + tag + ">", level), IndentedLine(Escape(t), level + 1), IndentedLine("</" + tag + ">", level)])
  {
    var text := [IndentedLine(Escape(t), level + 1)];
    var open, close := IndentedLine("<" + tag + ">", level), IndentedLine("</" + tag + ">", level);
    assert [open] + text + [close] == [open, text[0], close];
    TextChildInner(tag, t, level);
    TextChildOuter(tag, t, level, text);
  }

  lemma TextChildInner(tag: string, t: string, level: nat)
    requires t != "" && '\n' !in t
    ensures ChildLines(Elem(tag, [], [Text(t)]), level + 1) == Ok([IndentedLine(Escape(t), level + 1)])
  {
    TextLine(t, level + 1);
    ChildLinesOfOne(Elem(tag, [], [Text(t)]), level + 1, [IndentedLine(Escape(t), level + 1)]);
  }

  lemma TextChildOuter(tag: string, t: string, level: nat, text: seq<IndentedLine>)
    requires !IsPre(tag)
    requires ChildLines(Elem(tag, [], [Text(t)]), level + 1) == Ok(text)
    ensures Lines(Elem(tag, [], [Text(t)]), level, false)
         == Ok([IndentedLine("<" + tag + ">", level)] + text + [IndentedLine("</" + tag + ">", level)])
  {
    AttrsStringEmpty([]);
    ElemLines(tag, [], [Text(t)], level, text);
    assert "<" + tag + "" + ">" == "<" + tag + ">";
  }

  // -------------------------------------- to_string of serialize.py: examples

  /**
   * The README example, for any tags other than `pre`: `html` holding
   * `head`, with two `meta` leaves, and `body`, holding a `p` with a text.
   */
  function Example(html: string, head: string, meta: string, body: string, p: string,
                   meta1: seq<(string, string)>, meta2: seq<(string, string)>, t: string): Node
  {
    Elem(html, [], [
      Elem(head, [], [Elem(meta, meta1, []), Elem(meta, meta2, [])]),
      Elem(body, [], [Elem(p, [], [Text(t)])])])
  }

  /** Its lines: the doctype, then one line per tag and text, one level deeper per nesting. */
  function ExampleLines(html: string, head: string, meta: string, body: string, p: string,
                        meta1: seq<(string, string)>, meta2: seq<(string, string)>, t: string): seq<IndentedLine>
  {
    [IndentedLine(DOCTYPE, 0)] + [IndentedLine("<" + html + ">", 0)]
    + HeadPart(head, meta, meta1, meta2) + BodyPart(body, p, t)
    + [IndentedLine("</" + html + ">", 0)]
  }

  function HeadPart(head: string, meta: string, meta1: seq<(string, string)>, meta2: seq<(string, string)>): seq<IndentedLine> {
    [IndentedLine("<" + head + ">", 1),
     IndentedLine("<" + meta + AttrsString(meta1) + "/>", 2),
     IndentedLine("<" + meta + AttrsString(meta2) + "/>", 2),
     IndentedLine("</" + head + ">", 1)]
  }

  function BodyPart(body: string, p: string, t: string): seq<IndentedLine> {
    [IndentedLine("<" + body + ">", 1), IndentedLine("<" + p + ">", 2), IndentedLine(Escape(t), 3),
     IndentedLine("</" + p + ">", 2), IndentedLine("</" + body + ">", 1)]
  }

  /** `head` with two leaves, at level 1. */
  lemma HeadLines(head: string, meta: string, meta1: seq<(string, string)>, meta2: seq<(string, string)>)
    requires !IsPre(head)
    ensures Lines(Elem(head, [], [Elem(meta, meta1, []), Elem(meta, meta2, [])]), 1, false)
         == Ok(HeadPart(head, meta, meta1, meta2))
  {
    var a := [IndentedLine("<" + meta + AttrsString(meta1) + "/>", 2)];
    var b := [IndentedLine("<" + meta + AttrsString(meta2) + "/>", 2)];
    var open, close := IndentedLine("<" + head + ">", 1), IndentedLine("</" + head + ">", 1);
    assert [open] + (a + b) + [close] == [open, a[0], b[0], close];
    LeafLine(meta, meta1, 2, "");
    LeafLine(meta, meta2, 2, "");
    TwoKidLines(head, Elem(meta, meta1, []), Elem(meta, meta2, []), 1, a, b);
  }

  /** `body` holding `p` with a one-line text, at level 1. */
  lemma BodyLines(body: string, p: string, t: string)
    requires !IsPre(body) && !IsPre(p) && t != "" && '\n' !in t
    ensures Lines(Elem(body, [], [Elem(p, [], [Text(t)])]), 1, false) == Ok(BodyPart(body, p, t))
  {
    var innerLines := [IndentedLine("<" + p + ">", 2), IndentedLine(Escape(t), 3), IndentedLine("</" + p + ">", 2)];
    var open, close := IndentedLine("<" + body + ">", 1), IndentedLine("</" + body + ">", 1);
    assert [open] + innerLines + [close] == BodyPart(body, p, t);
    TextChildLines(p, t, 2);
    OneKidLines(body, Elem(p, [], [Text(t)]), 1, innerLines);
  }

  /** The README example yields the doctype and then one line per tag and per line of text. */
  lemma ExampleYieldsLines(html: string, head: string, meta: string, body: string, p: string,
                           meta1: seq<(string, string)>, meta2: seq<(string, string)>, t: string)
    requires !IsPre(html) && !IsPre(head) && !IsPre(body) && !IsPre(p)
    requires t != "" && '\n' !in t
    ensures Lines(Example(html, head, meta, body, p, meta1, meta2, t), 0, true)
         == Ok(ExampleLines(html, head, meta, body, p, meta1, meta2, t))
  {
    var n := Example(html, head, meta, body, p, meta1, meta2, t);
    var hs, bs := HeadPart(head, meta, meta1, meta2), BodyPart(body, p, t);
    HeadLines(head, meta, meta1, meta2);
    BodyLines(body, p, t);
    TwoKidLines(html, n.kids[0], n.kids[1], 0, hs, bs);
    NoDoctype(n, 0);
    Regroup(IndentedLine(DOCTYPE, 0), IndentedLine("<" + html + ">", 0), IndentedLine("</" + html + ">", 0), hs, bs);
  }

  lemma Regroup(d: IndentedLine, open: IndentedLine, close: IndentedLine, hs: seq<IndentedLine>, bs: seq<IndentedLine>)
    ensures [d] + ([open] + (hs + bs) + [close]) + [] == [d] + [open] + hs + bs + [close]
  {
  }

  /** The tags of the README example are not `pre`. */
  lemma ExampleTagsNotPre()
    ensures !IsPre("html") && !IsPre("head") && !IsPre("body") && !IsPre("p")
  {
    NotPre("html");
    NotPre("head");
    NotPre("body");
    NotPre("p");
  }

  /** Indent levels 0 to 3. */
  lemma RepeatUpToThree(indent: string)
    ensures Repeat(indent, 0) == "" && Repeat(indent, 1) == indent
    ensures Repeat(indent, 2) == indent + indent && Repeat(indent, 3) == indent + indent + indent
  {
    assert indent + "" == indent;
  }

  /** The tags, attributes and text of the README example hold no line break. */
  predicate ExampleOneLine(html: string, head: string, meta: string, body: string, p: string,
                           meta1: seq<(string, string)>, meta2: seq<(string, string)>, t: string)
  {
    && '\n' !in html && '\n' !in head && '\n' !in meta && '\n' !in body && '\n' !in p && '\n' !in t
    && (forall kv | kv in meta1 :: '\n' !in kv.0 && '\n' !in kv.1)
    && (forall kv | kv in meta2 :: '\n' !in kv.0 && '\n' !in kv.1)
  }

  /**
   * Written with an indent, the README example is exactly its expected
   * lines joined by newlines, with no trailing newline, and it has one
   * physical line per yielded line: the doctype, then each tag and the text
   * behind the indent repeated once per level.
   */
  lemma ExampleOutput(html: string, head: string, meta: string, body: string, p: string,
                      meta1: seq<(string, string)>, meta2: seq<(string, string)>, t: string, indent: string)
    requires !IsPre(html) && !IsPre(head) && !IsPre(body) && !IsPre(p)
    requires ExampleOneLine(html, head, meta, body, p, meta1, meta2, t)
    requires t != "" && indent != "" && '\n' !in indent
    ensures var r := ToString(Example(html, head, meta, body, p, meta1, meta2, t), indent, true);
      && r == Ok(Join("\n", ExampleText(html, head, meta, body, p, meta1, meta2, t, indent)))
      && SplitLines(r.value) == ExampleText(html, head, meta, body, p, meta1, meta2, t, indent)
  {
    var n := Example(html, head, meta, body, p, meta1, meta2, t);
    var ls := ExampleLines(html, head, meta, body, p, meta1, meta2, t);
    ExampleYieldsLines(html, head, meta, body, p, meta1, meta2, t);
    ExampleLinesSingle(html, head, meta, body, p, meta1, meta2, t);
    IndentedPhysicalLines(n, indent, true, ls);
    ExampleTexts(html, head, meta, body, p, meta1, meta2, t, indent);
  }

  /** The physical lines of the README example, as its expected output lists them. */
  function ExampleText(html: string, head: string, meta: string, body: string, p: string,
                       meta1: seq<(string, string)>, meta2: seq<(string, string)>, t: string, indent: string): seq<string>
  {
    [DOCTYPE, "<" + html + ">"] + HeadTexts(head, meta, meta1, meta2, indent) + BodyTexts(body, p, t, indent) + ["</" + html + ">"]
  }

  lemma ExampleTexts(html: string, head: string, meta: string, body: string, p: string,
                     meta1: seq<(string, string)>, meta2: seq<(string, string)>, t: string, indent: string)
    ensures IndentedTexts(ExampleLines(html, head, meta, body, p, meta1, meta2, t), indent)
         == ExampleText(html, head, meta, body, p, meta1, meta2, t, indent)
  {
    var hs, bs := HeadPart(head, meta, meta1, meta2), BodyPart(body, p, t);
    var first := [IndentedLine(DOCTYPE, 0)] + [IndentedLine("<" + html + ">", 0)];
    var last := [IndentedLine("</" + html + ">", 0)];
    assert first == [IndentedLine(DOCTYPE, 0), IndentedLine("<" + html + ">", 0)];
    IndentedTextsAppend(first + hs + bs, last, indent);
    IndentedTextsAppend(first + hs, bs, indent);
    IndentedTextsAppend(first, hs, indent);
    OuterIndented(html, indent);
    HeadIndented(head, meta, meta1, meta2, indent);
    BodyIndented(body, p, t, indent);
  }

  lemma OuterIndented(html: string, indent: string)
    ensures IndentedTexts([IndentedLine(DOCTYPE, 0), IndentedLine("<" + html + ">", 0)], indent) == [DOCTYPE, "<" + html + ">"]
    ensures IndentedTexts([IndentedLine("</" + html + ">", 0)], indent) == ["</" + html + ">"]
  {
    var first := [IndentedLine(DOCTYPE, 0), IndentedLine("<" + html + ">", 0)];
    var last := [IndentedLine("</" + html + ">", 0)];
    assert Repeat(indent, 0) == "";
    assert IndentedTexts(first, indent)[0] == "" + DOCTYPE == DOCTYPE;
    assert IndentedTexts(first, indent)[1] == "" + ("<" + html + ">") == "<" + html + ">";
    assert IndentedTexts(last, indent)[0] == "" + ("</" + html + ">") == "</" + html + ">";
  }

  function HeadTexts(head: string, meta: string, meta1: seq<(string, string)>, meta2: seq<(string, string)>, indent: string): seq<string> {
    [indent + "<" + head + ">",
     indent + indent + ("<" + meta + AttrsString(meta1) + "/>"),
     indent + indent + ("<" + meta + AttrsString(meta2) + "/>"),
     indent + "</" + head + ">"]
  }

  function BodyTexts(body: string, p: string, t: string, indent: string): seq<string> {
    [indent + "<" + body + ">",
     indent + indent + "<" + p + ">",
     indent + indent + indent + Escape(t),
     indent + indent + "</" + p + ">",
     indent + "</" + body + ">"]
  }

  lemma HeadIndented(head: string, meta: string, meta1: seq<(string, string)>, meta2: seq<(string, string)>, indent: string)
    ensures IndentedTexts(HeadPart(head, meta, meta1, meta2), indent) == HeadTexts(head, meta, meta1, meta2, indent)
  {
    var ts := IndentedTexts(HeadPart(head, meta, meta1, meta2), indent);
    RepeatUpToThree(indent);
    assert ts[0] == indent + ("<" + head + ">") == indent + "<" + head + ">";
    assert ts[3] == indent + ("</" + head + ">") == indent + "</" + head + ">";
  }

  lemma BodyIndented(body: string, p: string, t: string, indent: string)
    ensures IndentedTexts(BodyPart(body, p, t), indent) == BodyTexts(body, p, t, indent)
  {
    var ts := IndentedTexts(BodyPart(body, p, t), indent);
    RepeatUpToThree(indent);
    assert ts[0] == indent + ("<" + body + ">") == indent + "<" + body + ">";
    assert ts[1] == indent + indent + ("<" + p + ">") == indent + indent + "<" + p + ">";
    assert ts[3] == indent + indent + ("</" + p + ">") == indent + indent + "</" + p + ">";
    assert ts[4] == indent + ("</" + body + ">") == indent + "</" + body + ">";
  }

  lemma IndentedTextsAppend(a: seq<IndentedLine>, b: seq<IndentedLine>, indent: string)
    ensures IndentedTexts(a + b, indent) == IndentedTexts(a, indent) + IndentedTexts(b, indent)
  {
  }

  /** No line of the README example holds a line break, and the last is not empty. */
  lemma ExampleLinesSingle(html: string, head: string, meta: string, body: string, p: string,
                           meta1: seq<(string, string)>, meta2: seq<(string, string)>, t: string)
    requires ExampleOneLine(html, head, meta, body, p, meta1, meta2, t)
    ensures var ls := ExampleLines(html, head, meta, body, p, meta1, meta2, t);
      && (forall j | 0 <= j < |ls| :: '\n' !in ls[j].text)
      && ls[|ls| - 1].text != ""
  {
    var hs, bs := HeadPart(head, meta, meta1, meta2), BodyPart(body, p, t);
    var first := [IndentedLine(DOCTYPE, 0), IndentedLine("<" + html + ">", 0)];
    var last := [IndentedLine("</" + html + ">", 0)];
    assert ExampleLines(html, head, meta, body, p, meta1, meta2, t) == first + hs + bs + last;
    OuterOneLine(html);
    HeadOneLine(head, meta, meta1, meta2);
    BodyOneLine(body, p, t);
    OneLineEachAppend(first, hs);
    OneLineEachAppend(first + hs, bs);
    OneLineEachAppend(first + hs + bs, last);
    assert (first + hs + bs + last)[|first + hs + bs + last| - 1] == last[0];
  }

  lemma OuterOneLine(html: string)
    requires '\n' !in html
    ensures OneLineEach([IndentedLine(DOCTYPE, 0), IndentedLine("<" + html + ">", 0)])
    ensures OneLineEach([IndentedLine("</" + html + ">", 0)])
  {
    DoctypeOneLine();
    TagOneLine("<", html, ">");
    TagOneLine("</", html, ">");
    TwoOneLine(DOCTYPE, "<" + html + ">");
    OneOneLine("</" + html + ">");
  }

  lemma OneOneLine(a: string)
    requires '\n' !in a
    ensures OneLineEach([IndentedLine(a, 0)])
  {
  }

  lemma TagOneLine(a: string, b: string, c: string)
    requires '\n' !in a && '\n' !in b && '\n' !in c
    ensures '\n' !in a + b + c
  {
  }

  lemma TwoOneLine(a: string, b: string)
    requires '\n' !in a && '\n' !in b
    ensures OneLineEach([IndentedLine(a, 0), IndentedLine(b, 0)])
  {
  }

  lemma HeadOneLine(head: string, meta: string, meta1: seq<(string, string)>, meta2: seq<(string, string)>)
    requires '\n' !in head && '\n' !in meta
    requires forall kv | kv in meta1 :: '\n' !in kv.0 && '\n' !in kv.1
    requires forall kv | kv in meta2 :: '\n' !in kv.0 && '\n' !in kv.1
    ensures OneLineEach(HeadPart(head, meta, meta1, meta2))
  {
    AttrsNoNewline(meta1);
    AttrsNoNewline(meta2);
  }

  lemma BodyOneLine(body: string, p: string, t: string)
    requires '\n' !in body && '\n' !in p && '\n' !in t
    ensures OneLineEach(BodyPart(body, p, t))
  {
  }

  predicate OneLineEach(ls: seq<IndentedLine>) {
    forall j | 0 <= j < |ls| :: '\n' !in ls[j].text
  }

  lemma OneLineEachAppend(a: seq<IndentedLine>, b: seq<IndentedLine>)
    requires OneLineEach(a) && OneLineEach(b)
    ensures OneLineEach(a + b)
  {
    assert forall j | |a| <= j < |a + b| :: (a + b)[j] == b[j - |a|];
  }
}
