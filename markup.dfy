/**
 * Pieces of markup both serializers write the same way: the doctype
 * declaration and the attribute part of an opening tag.
 */
module Markup {
  import opened Strings

  const DOCTYPE: string := "<!DOCTYPE html>"

  /** `k="v"`: the value is written as it is, without escaping. */
  function AttrPair(p: (string, string)): string {
    p.0 + "=\"" + p.1 + "\""
  }

  /**
   * The attribute part of an opening tag: the `k="v"` pairs in order,
   * separated by single spaces, after one leading space, or nothing at all.
   */
  function AttrsString(attrs: seq<(string, string)>): string {
    var joined := Join(" ", seq(|attrs|, i requires 0 <= i < |attrs| => AttrPair(attrs[i])));
    if joined != "" then " " + joined else ""
  }

  /** The attribute part is empty exactly when there are no attributes, and opens with a space otherwise. */
  lemma AttrsStringEmpty(attrs: seq<(string, string)>)
    ensures AttrsString(attrs) == "" <==> attrs == []
    ensures attrs != [] ==> AttrsString(attrs)[0] == ' '
  {
    var pairs := seq(|attrs|, i requires 0 <= i < |attrs| => AttrPair(attrs[i]));
    forall i | 0 <= i < |pairs| ensures pairs[i] != "" {
      assert |pairs[i]| >= 3;
    }
    JoinEmpty(" ", pairs);
  }

  /** Attributes without line breaks give an attribute part without line breaks. */
  lemma AttrsNoNewline(attrs: seq<(string, string)>)
    requires forall p | p in attrs :: '\n' !in p.0 && '\n' !in p.1
    ensures '\n' !in AttrsString(attrs)
  {
    var pairs := seq(|attrs|, i requires 0 <= i < |attrs| => AttrPair(attrs[i]));
    forall i | 0 <= i < |pairs| ensures '\n' !in pairs[i] {
      assert attrs[i] in attrs;
    }
    JoinNoNewline(" ", pairs);
  }

  /** The doctype is a single line. */
  lemma DoctypeOneLine()
    ensures RemoveNewlines(DOCTYPE) == DOCTYPE
    ensures '\n' !in DOCTYPE
  {
    assert forall i | 0 <= i < |DOCTYPE| :: DOCTYPE[i] != '\n';
    RemoveNewlinesIdentity(DOCTYPE);
  }
}
