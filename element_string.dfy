/**
 * `to_string` of htmlclasses.py: renders an element class (an instance of
 * it, whose class holds everything) straight from its owned elements,
 * attributes and `TEXT`.
 *
 * `indent` is `None` for the compact form; any other value selects the
 * line-per-element form.  Python tells `None` apart from a falsy value
 * such as `''` or `False`: both select the line form, but a falsy indent
 * adds no indentation and no line break after the doctype.  `Some("")`
 * stands for every falsy value here.
 */
module ElementString {
  import opened Strings
  import opened OrderedMap
  import opened Blueprints
  import opened Markup

  /** Python truthiness of the `indent` argument. */
  predicate Truthy(indent: Option<string>) {
    indent.Some? && indent.value != ""
  }

  /** `indent or ''` */
  function IndentOr(indent: Option<string>): string {
    if Truthy(indent) then indent.value else ""
  }

  /**
   * `_calculate_element_str`: one element around its already rendered
   * children; the line form ends it with a newline.
   */
  function CalculateElementStr(indent: Option<string>, cumulative: string, text: string,
                               children: string, attrs: string, tag: string): string
  {
    ElementBody(indent, cumulative, text, children, attrs, tag) + (if indent.None? then "" else "\n")
  }

  /** Where the line form puts an element: at its cumulative indent. */
  function Lead(indent: Option<string>, cumulative: string): string {
    if indent.None? then "" else cumulative
  }

  /**
   * The element without its final newline: self-closing when it has neither
   * text nor children.  In the line form the children go on lines of their
   * own, and then the closing tag too, at the element's indent.
   */
  function ElementBody(indent: Option<string>, cumulative: string, text: string,
                       children: string, attrs: string, tag: string): (r: string)
    ensures r != [] && r[|r| - 1] == '>'
  {
    var open := Lead(indent, cumulative) + "<" + tag + attrs;
    if text == "" && children == "" then open + "/>"
    else
      var brokenLines := indent.Some? && children != "";
      var middle := if brokenLines then text + "\n" + children else text + children;
      var close := "</" + tag + ">";
      var closing := if brokenLines then "\n" + cumulative + close else close;
      open + ">" + middle + closing
  }

  /** Every element opens with its tag and attributes, at its indent in the line form. */
  lemma ElementBodyOpens(indent: Option<string>, cumulative: string, text: string,
                         children: string, attrs: string, tag: string)
    ensures StartsWith(ElementBody(indent, cumulative, text, children, attrs, tag),
                       Lead(indent, cumulative) + "<" + tag + attrs)
  {
    var open := Lead(indent, cumulative) + "<" + tag + attrs;
    var r := ElementBody(indent, cumulative, text, children, attrs, tag);
    if text == "" && children == "" {
      OpenMidClose(open, "", "/>");
    } else {
      var brokenLines := indent.Some? && children != "";
      var middle := if brokenLines then text + "\n" + children else text + children;
      var closing := if brokenLines then "\n" + cumulative + ("</" + tag + ">") else "</" + tag + ">";
      assert r == open + ">" + middle + closing;
      assert forall i | 0 <= i < |open| :: r[i] == open[i];
      assert r[..|open|] == open;
    }
  }

  lemma OpenMidClose(open: string, mid: string, close: string)
    ensures StartsWith(open + mid + close, open) && EndsWith(open + mid + close, close)
  {
    var r := open + mid + close;
    assert r[..|open|] == open;
    assert r[|r| - |close|..] == close;
  }

  /** The doctype prefix: a line of its own only under a truthy indent. */
  function Doctype(indent: Option<string>, prependDoctype: bool): string {
    if !prependDoctype then "" else if Truthy(indent) then DOCTYPE + "\n" else DOCTYPE
  }

  /** The separator between rendered children. */
  function ChildSeparator(indent: Option<string>): string {
    if indent.None? then "" else "\n"
  }

  /** The string of an element, with an optional indent, an optional doctype and the indentation already accumulated. */
  function ToString(bp: Blueprint, indent: Option<string>, prependDoctype: bool, cumulative: string): (r: string)
    decreases bp, 1
  {
    var children := Join(ChildSeparator(indent), ChildStrings(bp, indent, cumulative));
    var elementStr := CalculateElementStr(indent, cumulative, bp.text, children, AttrsString(bp.attrs), bp.tag);
    RStrip(Doctype(indent, prependDoctype) + elementStr, '\n')
  }

  /** The rendered owned elements of `bp`, in order, one indent step deeper. */
  function ChildStrings(bp: Blueprint, indent: Option<string>, cumulative: string): (r: seq<string>)
    decreases bp, 0
    ensures |r| == |bp.owned|
  {
    seq(|bp.owned|, i requires 0 <= i < |bp.owned| =>
      ToString(bp.owned[i], indent, false, cumulative + IndentOr(indent)))
  }

  // ------------------------------------------------------------- properties

  /** The rendered children of `bp`, joined as `to_string` joins them. */
  function Children(bp: Blueprint, indent: Option<string>, cumulative: string): string {
    Join(ChildSeparator(indent), ChildStrings(bp, indent, cumulative))
  }

  /**
   * A rendering is the doctype, if asked for, and then the element: the
   * stripping only removes the newline the line form puts after it.
   */
  lemma ToStringTrimmed(bp: Blueprint, indent: Option<string>, prependDoctype: bool, cumulative: string)
    ensures ToString(bp, indent, prependDoctype, cumulative)
         == Doctype(indent, prependDoctype)
          + ElementBody(indent, cumulative, bp.text, Children(bp, indent, cumulative), AttrsString(bp.attrs), bp.tag)
  {
    var t := ElementBody(indent, cumulative, bp.text, Children(bp, indent, cumulative), AttrsString(bp.attrs), bp.tag);
    if indent.None? {
      assert t + "" == t;
      RStripNone(t, '\n');
      RStripAppend(Doctype(indent, prependDoctype), t, '\n');
    } else {
      RStripOne(t, '\n');
      RStripAppend(Doctype(indent, prependDoctype), t + "\n", '\n');
    }
  }

  /**
   * The doctype comes first, and on a line of its own only under a truthy
   * indent; the element after it is rendered as without it.
   */
  lemma DoctypeFirst(bp: Blueprint, indent: Option<string>, cumulative: string)
    ensures ToString(bp, indent, true, cumulative)
         == DOCTYPE + (if Truthy(indent) then "\n" else "") + ToString(bp, indent, false, cumulative)
  {
    ToStringTrimmed(bp, indent, true, cumulative);
    ToStringTrimmed(bp, indent, false, cumulative);
  }

  /** No rendering is empty. */
  lemma ToStringNonEmpty(bp: Blueprint, indent: Option<string>, prependDoctype: bool, cumulative: string)
    ensures ToString(bp, indent, prependDoctype, cumulative) != ""
  {
    ToStringTrimmed(bp, indent, prependDoctype, cumulative);
  }

  /** The children render to nothing exactly when there are no owned elements. */
  lemma ChildrenEmpty(bp: Blueprint, indent: Option<string>, cumulative: string)
    ensures Children(bp, indent, cumulative) == "" <==> bp.owned == []
  {
    var kids := ChildStrings(bp, indent, cumulative);
    forall i | 0 <= i < |kids| ensures kids[i] != "" {
      ToStringNonEmpty(bp.owned[i], indent, false, cumulative + IndentOr(indent));
    }
    JoinEmpty(ChildSeparator(indent), kids);
  }

  /**
   * An element is self-closing exactly when it has neither text nor owned
   * elements; otherwise it opens with its tag and ends with its closing tag.
   */
  lemma SelfClosing(bp: Blueprint, indent: Option<string>, cumulative: string)
    ensures var r := ToString(bp, indent, false, cumulative);
      var open := Lead(indent, cumulative) + "<" + bp.tag + AttrsString(bp.attrs);
      if bp.text == "" && bp.owned == [] then r == open + "/>"
      else StartsWith(r, open + ">") && EndsWith(r, "</" + bp.tag + ">")
  {
    ToStringTrimmed(bp, indent, false, cumulative);
    ChildrenEmpty(bp, indent, cumulative);
    var body := ElementBody(indent, cumulative, bp.text, Children(bp, indent, cumulative), AttrsString(bp.attrs), bp.tag);
    assert Doctype(indent, false) + body == body;
    if bp.text != "" || bp.owned != [] {
      ElementBodyCloses(indent, cumulative, bp.text, Children(bp, indent, cumulative), AttrsString(bp.attrs), bp.tag);
    }
  }

  lemma ElementBodyCloses(indent: Option<string>, cumulative: string, text: string,
                          children: string, attrs: string, tag: string)
    requires text != "" || children != ""
    ensures var r := ElementBody(indent, cumulative, text, children, attrs, tag);
      StartsWith(r, Lead(indent, cumulative) + "<" + tag + attrs + ">") && EndsWith(r, "</" + tag + ">")
  {
    var open := Lead(indent, cumulative) + "<" + tag + attrs + ">";
    var close := "</" + tag + ">";
    var brokenLines := indent.Some? && children != "";
    var middle := if brokenLines then text + "\n" + children else text + children;
    if brokenLines {
      OpenMidClose(open, middle, "\n" + cumulative + close);
      OpenMidClose("\n", cumulative, close);
      EndsWithTrans(open + middle + ("\n" + cumulative + close), "\n" + cumulative + close, close);
    } else {
      OpenMidClose(open, middle, close);
    }
  }

  /**
   * In the line form an element with owned elements ends with its closing
   * tag on a line of its own at its indent; one with text only keeps the
   * closing tag on its opening line.
   */
  lemma ClosingTagPlacement(bp: Blueprint, ind: string, cumulative: string)
    ensures var r := ToString(bp, Some(ind), false, cumulative);
      var close := "</" + bp.tag + ">";
      (bp.owned != [] ==> EndsWith(r, "\n" + cumulative + close)) &&
      (bp.owned == [] && bp.text != "" ==>
        r == cumulative + "<" + bp.tag + AttrsString(bp.attrs) + ">" + bp.text + close)
  {
    var children := Children(bp, Some(ind), cumulative);
    ToStringTrimmed(bp, Some(ind), false, cumulative);
    ChildrenEmpty(bp, Some(ind), cumulative);
    var open := cumulative + "<" + bp.tag + AttrsString(bp.attrs) + ">";
    var close := "</" + bp.tag + ">";
    if bp.owned != [] {
      OpenMidClose(open, bp.text + "\n" + children, "\n" + cumulative + close);
    } else if bp.text != "" {
      assert bp.text + children == bp.text;
    }
  }

  /**
   * In the line form every owned element starts at the parent's indent
   * plus one more `indent`.
   */
  lemma ChildIndent(bp: Blueprint, ind: string, cumulative: string, i: nat)
    requires i < |bp.owned|
    ensures StartsWith(ChildStrings(bp, Some(ind), cumulative)[i],
                       cumulative + IndentOr(Some(ind)) + "<" + bp.owned[i].tag)
  {
    var child := bp.owned[i];
    var cum := cumulative + IndentOr(Some(ind));
    ToStringTrimmed(child, Some(ind), false, cum);
    ElementBodyOpens(Some(ind), cum, child.text, Children(child, Some(ind), cum), AttrsString(child.attrs), child.tag);
  }

  /** Under a falsy indent every child is rendered at no indent at all. */
  lemma ChildStringAt(bp: Blueprint, indent: Option<string>, cumulative: string, i: nat)
    requires i < |bp.owned|
    requires cumulative == "" && !Truthy(indent)
    ensures ChildStrings(bp, indent, cumulative)[i] == ToString(bp.owned[i], indent, false, "")
  {
    assert cumulative + IndentOr(indent) == "";
  }

  /** No tag, attribute or text anywhere in the tree holds a line break. */
  predicate NoNewlines(bp: Blueprint)
    decreases bp
  {
    '\n' !in bp.tag && '\n' !in bp.text &&
    (forall p | p in bp.attrs :: '\n' !in p.0 && '\n' !in p.1) &&
    forall i | 0 <= i < |bp.owned| :: NoNewlines(bp.owned[i])
  }

  /**
   * A falsy indent other than `None` only breaks lines: with the line
   * breaks removed, its output is the compact output.
   */
  lemma {:induction false} FalsyIndentBreaksLines(bp: Blueprint)
    requires NoNewlines(bp)
    ensures RemoveNewlines(ToString(bp, Some(""), false, "")) == ToString(bp, None, false, "")
    decreases bp
  {
    forall i | 0 <= i < |bp.owned|
      ensures RemoveNewlines(ToString(bp.owned[i], Some(""), false, "")) == ToString(bp.owned[i], None, false, "")
    {
      FalsyIndentBreaksLines(bp.owned[i]);
    }
    ChildrenBreakLines(bp);
    ElementBreaksLines(bp);
  }

  lemma ChildrenBreakLines(bp: Blueprint)
    requires forall i | 0 <= i < |bp.owned| ::
      RemoveNewlines(ToString(bp.owned[i], Some(""), false, "")) == ToString(bp.owned[i], None, false, "")
    ensures RemoveNewlines(Children(bp, Some(""), "")) == Children(bp, None, "")
  {
    var lines := ChildStrings(bp, Some(""), "");
    var compact := ChildStrings(bp, None, "");
    forall i | 0 <= i < |bp.owned| ensures RemoveNewlinesEach(lines)[i] == compact[i] {
      ChildStringAt(bp, Some(""), "", i);
      ChildStringAt(bp, None, "", i);
    }
    assert RemoveNewlinesEach(lines) == compact;
    RemoveNewlinesJoin(lines);
  }

  lemma ElementBreaksLines(bp: Blueprint)
    requires NoNewlines(bp)
    requires RemoveNewlines(Children(bp, Some(""), "")) == Children(bp, None, "")
    ensures RemoveNewlines(ToString(bp, Some(""), false, "")) == ToString(bp, None, false, "")
  {
    ChildrenEmpty(bp, Some(""), "");
    ChildrenEmpty(bp, None, "");
    ToStringTrimmed(bp, Some(""), false, "");
    ToStringTrimmed(bp, None, false, "");
    AttrsNoNewline(bp.attrs);
    var lines, compact := Children(bp, Some(""), ""), Children(bp, None, "");
    assert lines == "" <==> compact == "";
    LineBodyBreaksLines(bp.text, lines, compact, AttrsString(bp.attrs), bp.tag);
    assert Doctype(Some(""), false) == "";
    assert ToString(bp, Some(""), false, "") == ElementBody(Some(""), "", bp.text, lines, AttrsString(bp.attrs), bp.tag);
    assert ToString(bp, None, false, "") == ElementBody(None, "", bp.text, compact, AttrsString(bp.attrs), bp.tag);
  }

  lemma LineBodyBreaksLines(text: string, lines: string, compact: string, attrs: string, tag: string)
    requires '\n' !in text && '\n' !in attrs && '\n' !in tag
    requires RemoveNewlines(lines) == compact
    requires lines == "" <==> compact == ""
    ensures RemoveNewlines(ElementBody(Some(""), "", text, lines, attrs, tag))
         == ElementBody(None, "", text, compact, attrs, tag)
  {
    var o := "<" + tag + attrs + ">";
    var close := "</" + tag + ">";
    if lines == "" {
      RemoveNewlinesIdentity(ElementBody(None, "", text, compact, attrs, tag));
    } else {
      var m := text + "\n" + lines;
      assert ElementBody(Some(""), "", text, lines, attrs, tag) == o + m + ("\n" + close);
      assert ElementBody(None, "", text, compact, attrs, tag) == o + (text + compact) + close;
      RemoveNewlinesAppend(o + m, "\n" + close);
      RemoveNewlinesAppend(o, m);
      RemoveNewlinesIdentity(o);
      RemoveNewlinesAfterLine(text, lines);
      RemoveNewlinesDropsNewline(close);
      RemoveNewlinesIdentity(close);
    }
  }

  /** The same holds with the doctype in front. */
  lemma FalsyIndentBreaksLinesDoctype(bp: Blueprint, prependDoctype: bool)
    requires NoNewlines(bp)
    ensures RemoveNewlines(ToString(bp, Some(""), prependDoctype, "")) == ToString(bp, None, prependDoctype, "")
  {
    FalsyIndentBreaksLines(bp);
    if prependDoctype {
      var lines := ToString(bp, Some(""), false, "");
      DoctypeFirst(bp, Some(""), "");
      DoctypeFirst(bp, None, "");
      assert DOCTYPE + "" == DOCTYPE;
      RemoveNewlinesAppend(DOCTYPE, lines);
      DoctypeOneLine();
    }
  }

  /** Without line breaks in the tree, the compact output is a single line. */
  lemma CompactSingleLine(bp: Blueprint, prependDoctype: bool)
    requires NoNewlines(bp)
    ensures '\n' !in ToString(bp, None, prependDoctype, "")
  {
    FalsyIndentBreaksLinesDoctype(bp, prependDoctype);
  }

  // ------------------------------------------------- the compact form, directly

  /**
   * The compact form as a plain recursive definition: an element with
   * neither text nor owned elements closes itself; any other is its opening
   * tag, its text, its owned elements one after the other, and its closing tag.
   */
  function Compact(bp: Blueprint): string
    decreases bp, 1
  {
    var open := "<" + bp.tag + AttrsString(bp.attrs);
    if bp.text == "" && bp.owned == [] then open + "/>"
    else open + ">" + (bp.text + CompactChildren(bp)) + ("</" + bp.tag + ">")
  }

  /** The owned elements' compact forms, one after the other. */
  function CompactChildren(bp: Blueprint): string
    decreases bp, 0
  {
    Join("", seq(|bp.owned|, i requires 0 <= i < |bp.owned| => Compact(bp.owned[i])))
  }

  /** `to_string` with `indent=None` is the compact form, at any depth. */
  lemma {:induction false} CompactMatches(bp: Blueprint, cumulative: string)
    ensures ToString(bp, None, false, cumulative) == Compact(bp)
    decreases bp
  {
    forall i | 0 <= i < |bp.owned| ensures ToString(bp.owned[i], None, false, cumulative) == Compact(bp.owned[i]) {
      CompactMatches(bp.owned[i], cumulative);
    }
    CompactChildrenMatch(bp, cumulative);
    CompactElementMatches(bp, cumulative);
  }

  lemma CompactChildrenMatch(bp: Blueprint, cumulative: string)
    requires forall i | 0 <= i < |bp.owned| :: ToString(bp.owned[i], None, false, cumulative) == Compact(bp.owned[i])
    ensures Children(bp, None, cumulative) == CompactChildren(bp)
  {
    var kids := ChildStrings(bp, None, cumulative);
    assert cumulative + IndentOr(None) == cumulative;
    assert kids == seq(|bp.owned|, i requires 0 <= i < |bp.owned| => Compact(bp.owned[i]));
  }

  lemma CompactElementMatches(bp: Blueprint, cumulative: string)
    requires Children(bp, None, cumulative) == CompactChildren(bp)
    ensures ToString(bp, None, false, cumulative) == Compact(bp)
  {
    ChildrenEmpty(bp, None, cumulative);
    ToStringTrimmed(bp, None, false, cumulative);
    var children := Children(bp, None, cumulative);
    var body := ElementBody(None, cumulative, bp.text, children, AttrsString(bp.attrs), bp.tag);
    assert Doctype(None, false) + body == body;
    var open := "<" + bp.tag + AttrsString(bp.attrs);
    assert Lead(None, cumulative) + "<" + bp.tag + AttrsString(bp.attrs) == open;
  }
}
