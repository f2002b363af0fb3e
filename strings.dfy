/**
 * The string helpers the library borrows from Python: `str.rstrip` of one
 * character, `str.replace` of one character, `sep.join(parts)`, `s * n`,
 * `str.startswith`, `str.splitlines`, `str.lower` and `html.escape`.
 */
module Strings {

  /** `s.startswith(p)` */
  predicate StartsWith(s: string, p: string) {
    |p| <= |s| && s[..|p|] == p
  }

  /** `s.endswith(p)` */
  predicate EndsWith(s: string, p: string) {
    |p| <= |s| && s[|s| - |p|..] == p
  }

  lemma EndsWithTrans(s: string, t: string, u: string)
    requires EndsWith(s, t) && EndsWith(t, u)
    ensures EndsWith(s, u)
  {
    assert s[|s| - |u|..] == t[|t| - |u|..];
  }

  /** `s.rstrip(c)` for a single character `c`: every trailing `c` is removed. */
  function RStrip(s: string, c: char): (r: string)
    ensures |r| <= |s| && r == s[..|r|]
    ensures forall i | |r| <= i < |s| :: s[i] == c
    ensures r == [] || r[|r| - 1] != c
  {
    if s == [] || s[|s| - 1] != c then s else RStrip(s[..|s| - 1], c)
  }

  /** A text that does not end in `c` is left as it is. */
  lemma RStripNone(s: string, c: char)
    requires s == [] || s[|s| - 1] != c
    ensures RStrip(s, c) == s
  {
  }

  /** One `c` after a text that does not end in `c` is all that is stripped. */
  lemma RStripOne(s: string, c: char)
    requires s != [] && s[|s| - 1] != c
    ensures RStrip(s + [c], c) == s
  {
    assert (s + [c])[..|s + [c]| - 1] == s;
  }

  /** Stripping never reaches a character other than `c`. */
  lemma RStripKeeps(s: string, c: char, i: nat)
    requires i < |s| && s[i] != c
    ensures i < |RStrip(s, c)|
  {
  }

  /** Stripping a text that does not strip to nothing leaves a prefix alone. */
  lemma {:induction false} RStripAppend(d: string, e: string, c: char)
    requires RStrip(e, c) != []
    ensures RStrip(d + e, c) == d + RStrip(e, c)
    decreases |e|
  {
    if e[|e| - 1] == c {
      assert (d + e)[..|d + e| - 1] == d + e[..|e| - 1];
      RStripAppend(d, e[..|e| - 1], c);
    }
  }

  /** `s.replace(from, to)` for single characters. */
  function ReplaceChar(s: string, from: char, to: char): (r: string)
    ensures |r| == |s|
    ensures forall i | 0 <= i < |s| :: r[i] == if s[i] == from then to else s[i]
  {
    if s == [] then [] else [if s[0] == from then to else s[0]] + ReplaceChar(s[1..], from, to)
  }

  /** `sep.join(parts)` */
  function Join(sep: string, parts: seq<string>): string {
    if |parts| == 0 then ""
    else if |parts| == 1 then parts[0]
    else parts[0] + sep + Join(sep, parts[1..])
  }

  /** A join of non-empty parts is empty exactly when there are no parts. */
  lemma {:induction false} JoinEmpty(sep: string, parts: seq<string>)
    requires forall i | 0 <= i < |parts| :: parts[i] != ""
    ensures Join(sep, parts) == "" <==> parts == []
  {
    if |parts| > 1 {
      assert |Join(sep, parts)| >= |parts[0]| > 0;
    }
  }

  /** Joining `a + [p]` appends the separator and `p` to the join of `a`. */
  lemma {:induction false} JoinSnoc(sep: string, a: seq<string>, p: string)
    requires a != []
    ensures Join(sep, a + [p]) == Join(sep, a) + sep + p
  {
    if |a| > 1 {
      assert (a + [p])[1..] == a[1..] + [p];
      JoinSnoc(sep, a[1..], p);
    } else {
      assert (a + [p])[1..] == [p];
    }
  }

  lemma JoinCons(sep: string, p: string, tail: seq<string>)
    requires tail != []
    ensures Join(sep, [p] + tail) == p + sep + Join(sep, tail)
  {
    assert ([p] + tail)[1..] == tail;
  }

  /** With no separator, joining `[p] + tail` puts `p` before the join of `tail`. */
  lemma ConcatCons(p: string, tail: seq<string>)
    ensures Join("", [p] + tail) == p + Join("", tail)
  {
    if tail == [] {
      assert [p] + tail == [p];
    } else {
      JoinCons("", p, tail);
    }
  }

  /** `s * n` */
  function Repeat(s: string, n: nat): (r: string)
    ensures |r| == |s| * n
  {
    if n == 0 then "" else s + Repeat(s, n - 1)
  }

  /** `s.lower()` restricted to ASCII letters. */
  function LowerAscii(s: string): (r: string)
    ensures |r| == |s|
    ensures forall i | 0 <= i < |s| ::
      r[i] == if 'A' <= s[i] <= 'Z' then (s[i] as int + 32) as char else s[i]
  {
    if s == [] then []
    else [if 'A' <= s[0] <= 'Z' then (s[0] as int + 32) as char else s[0]] + LowerAscii(s[1..])
  }

  /** Index of the first `c` in `s`, or `|s|` when there is none. */
  function IndexOf(s: string, c: char): (i: nat)
    ensures i <= |s|
    ensures i < |s| ==> s[i] == c
    ensures forall j | 0 <= j < i :: s[j] != c
  {
    if s == [] then 0 else if s[0] == c then 0 else 1 + IndexOf(s[1..], c)
  }

  /**
   * `s.splitlines()` where only '\n' ends a line: an empty string has no
   * lines, and a final '\n' does not start an empty last line.
   */
  function SplitLines(s: string): (lines: seq<string>)
    ensures forall i | 0 <= i < |lines| :: '\n' !in lines[i]
    ensures lines == [] <==> s == []
    decreases |s|
  {
    if s == [] then []
    else
      var i := IndexOf(s, '\n');
      if i == |s| then [s] else [s[..i]] + SplitLines(s[i + 1..])
  }

  /** The lines of a text that holds a '\n': the first line, then the lines after it. */
  lemma SplitLinesCons(s: string, i: nat)
    requires i == IndexOf(s, '\n') < |s|
    ensures SplitLines(s) == [s[..i]] + SplitLines(s[i + 1..])
  {
  }

  /** The final newline of a text, if it has one: the part `splitlines` drops. */
  function FinalNewline(s: string): string {
    if s != [] && s[|s| - 1] == '\n' then "\n" else ""
  }

  /** A text that holds a '\n' at `i` is its first line, the '\n', and the rest. */
  lemma SplitAround(s: string, i: nat)
    requires i < |s| && s[i] == '\n'
    ensures s == s[..i] + "\n" + s[i + 1..]
    ensures FinalNewline(s) == if i + 1 == |s| then "\n" else FinalNewline(s[i + 1..])
  {
  }

  lemma PrependLine(line: string, rest: string, joined: string, fin: string)
    requires joined + fin == rest
    ensures line + "\n" + joined + fin == line + "\n" + rest
  {
  }

  /**
   * Joining the lines with '\n' gives the text back, less its final newline:
   * `splitlines` loses nothing else.
   */
  lemma {:induction false} SplitLinesJoin(s: string)
    ensures Join("\n", SplitLines(s)) + FinalNewline(s) == s
  {
    var i := IndexOf(s, '\n');
    if s != [] && i < |s| {
      var line, rest := s[..i], s[i + 1..];
      SplitLinesCons(s, i);
      SplitAround(s, i);
      if rest != [] {
        SplitLinesJoin(rest);
        JoinCons("\n", line, SplitLines(rest));
        PrependLine(line, rest, Join("\n", SplitLines(rest)), FinalNewline(rest));
      }
    }
  }

  /** `s` with every '\n' removed. */
  function RemoveNewlines(s: string): (r: string)
    ensures '\n' !in r
    ensures |r| <= |s|
  {
    if s == [] then [] else (if s[0] == '\n' then [] else [s[0]]) + RemoveNewlines(s[1..])
  }

  lemma {:induction false} RemoveNewlinesAppend(a: string, b: string)
    ensures RemoveNewlines(a + b) == RemoveNewlines(a) + RemoveNewlines(b)
  {
    if a != [] {
      assert (a + b)[1..] == a[1..] + b;
      RemoveNewlinesAppend(a[1..], b);
    } else {
      assert a + b == b;
    }
  }

  lemma {:induction false} RemoveNewlinesIdentity(s: string)
    requires '\n' !in s
    ensures RemoveNewlines(s) == s
  {
    if s != [] {
      RemoveNewlinesIdentity(s[1..]);
    }
  }

  /** Removing the newlines of one line, a '\n' and the rest keeps the line whole. */
  lemma RemoveNewlinesAfterLine(line: string, rest: string)
    requires '\n' !in line
    ensures RemoveNewlines(line + "\n" + rest) == line + RemoveNewlines(rest)
  {
    RemoveNewlinesIdentity(line);
    RemoveNewlinesAppend(line, "\n" + rest);
    RemoveNewlinesDropsNewline(rest);
    AppendAssoc(line, "\n", rest);
  }

  lemma RemoveNewlinesDropsNewline(rest: string)
    ensures RemoveNewlines("\n" + rest) == RemoveNewlines(rest)
  {
    assert ("\n" + rest)[1..] == rest;
  }

  lemma AppendAssoc<T>(a: seq<T>, b: seq<T>, c: seq<T>)
    ensures a + b + c == a + (b + c)
  {
  }

  /** Trailing newlines are among those `RemoveNewlines` drops anyway. */
  lemma RemoveNewlinesRStrip(s: string)
    ensures RemoveNewlines(RStrip(s, '\n')) == RemoveNewlines(s)
  {
    var r := RStrip(s, '\n');
    assert s == r + s[|r|..];
    RemoveNewlinesAppend(r, s[|r|..]);
    RemoveNewlinesAll(s[|r|..]);
  }

  lemma {:induction false} RemoveNewlinesAll(s: string)
    requires forall i | 0 <= i < |s| :: s[i] == '\n'
    ensures RemoveNewlines(s) == ""
  {
    if s != [] {
      RemoveNewlinesAll(s[1..]);
    }
  }

  /** `RemoveNewlines` of every part. */
  function RemoveNewlinesEach(parts: seq<string>): (r: seq<string>)
    ensures |r| == |parts|
    ensures forall i | 0 <= i < |parts| :: r[i] == RemoveNewlines(parts[i])
  {
    if parts == [] then [] else [RemoveNewlines(parts[0])] + RemoveNewlinesEach(parts[1..])
  }

  /** Removing the newlines of lines joined by '\n' concatenates the lines' remains. */
  lemma {:induction false} RemoveNewlinesJoin(parts: seq<string>)
    ensures RemoveNewlines(Join("\n", parts)) == Join("", RemoveNewlinesEach(parts))
  {
    if |parts| == 1 {
      assert RemoveNewlinesEach(parts) == [RemoveNewlines(parts[0])];
    } else if |parts| > 1 {
      var p, tail := parts[0], parts[1..];
      assert parts == [p] + tail;
      JoinCons("\n", p, tail);
      RemoveNewlinesAppend(p, "\n" + Join("\n", tail));
      AppendAssoc(p, "\n", Join("\n", tail));
      RemoveNewlinesDropsNewline(Join("\n", tail));
      RemoveNewlinesJoin(tail);
      assert RemoveNewlinesEach(parts) == [RemoveNewlines(p)] + RemoveNewlinesEach(tail);
      ConcatCons(RemoveNewlines(p), RemoveNewlinesEach(tail));
    }
  }

  /** No part and no separator holds '\n', so neither does their join. */
  lemma {:induction false} JoinNoNewline(sep: string, parts: seq<string>)
    requires '\n' !in sep
    requires forall i | 0 <= i < |parts| :: '\n' !in parts[i]
    ensures '\n' !in Join(sep, parts)
  {
    if |parts| > 1 {
      JoinNoNewline(sep, parts[1..]);
    }
  }

  /** Concatenating the lines drops every newline of the text and nothing else. */
  lemma {:induction false} SplitLinesConcat(s: string)
    ensures Join("", SplitLines(s)) == RemoveNewlines(s)
  {
    var i := IndexOf(s, '\n');
    if i == |s| {
      RemoveNewlinesIdentity(s);
    } else {
      var line, rest := s[..i], s[i + 1..];
      SplitLinesCons(s, i);
      SplitAround(s, i);
      RemoveNewlinesAfterLine(line, rest);
      SplitLinesConcat(rest);
      ConcatCons(line, SplitLines(rest));
    }
  }

  /** `html.escape` (with `quote=True`) of one character. */
  function EscapeChar(c: char): string {
    match c
    case '&' => "&amp;"
    case '<' => "&lt;"
    case '>' => "&gt;"
    case '"' => "&quot;"
    case '\'' => "&#x27;"
    case _ => [c]
  }

  /** `html.escape(s)`: `& < > " '` become `&amp; &lt; &gt; &quot; &#x27;`. */
  function Escape(s: string): (r: string)
    ensures forall i | 0 <= i < |r| :: r[i] != '<' && r[i] != '>' && r[i] != '"' && r[i] != '\''
    ensures '\n' in r <==> '\n' in s
  {
    if s == [] then [] else EscapeChar(s[0]) + Escape(s[1..])
  }

  lemma {:induction false} EscapeAppend(a: string, b: string)
    ensures Escape(a + b) == Escape(a) + Escape(b)
  {
    if a != [] {
      assert (a + b)[1..] == a[1..] + b;
      EscapeAppend(a[1..], b);
    } else {
      assert a + b == b;
    }
  }

  /** The character whose `Escape` entity has `k` as its second character. */
  function EntityFor(k: char): char {
    match k
    case 'a' => '&'
    case 'l' => '<'
    case 'g' => '>'
    case 'q' => '"'
    case _ => '\''
  }

  /** Reverses `Escape`: each entity it writes is read back as its character. */
  function Unescape(s: string): string {
    if s == [] then []
    else if |s| > 1 && s[0] == '&' && s[1] in "algq#" && StartsWith(s, EscapeChar(EntityFor(s[1]))) then
      [EntityFor(s[1])] + Unescape(s[|EscapeChar(EntityFor(s[1]))|..])
    else [s[0]] + Unescape(s[1..])
  }

  /** `Unescape` reads a character that `Escape` keeps as it is back as itself. */
  lemma UnescapePlain(c: char, rest: string)
    requires c != '&'
    ensures Unescape([c] + rest) == [c] + Unescape(rest)
  {
    var e := [c] + rest;
    assert e[0] == c && e[1..] == rest;
  }

  /** `Unescape` reads an entity back as its character and carries on after it. */
  lemma UnescapeEntity(c: char, rest: string)
    requires c in "&<>\"'"
    ensures Unescape(EscapeChar(c) + rest) == [c] + Unescape(rest)
  {
    var ent := EscapeChar(c);
    var e := ent + rest;
    assert e[..|ent|] == ent && e[|ent|..] == rest;
    assert e[0] == '&' && e[1] == ent[1] && EntityFor(ent[1]) == c;
  }

  /** `Unescape` reads an escaped character back and carries on after it. */
  lemma UnescapeEscapeChar(c: char, rest: string)
    ensures Unescape(EscapeChar(c) + rest) == [c] + Unescape(rest)
  {
    if c in "&<>\"'" {
      UnescapeEntity(c, rest);
    } else {
      UnescapePlain(c, rest);
    }
  }

  /** Escaping loses no information. */
  lemma {:induction false} UnescapeEscape(s: string)
    ensures Unescape(Escape(s)) == s
  {
    if s != [] {
      UnescapeEscape(s[1..]);
      UnescapeEscapeChar(s[0], Escape(s[1..]));
    }
  }

  /** `html.escape` of every part. */
  function EscapeEach(parts: seq<string>): (r: seq<string>)
    ensures |r| == |parts|
    ensures forall i | 0 <= i < |parts| :: r[i] == Escape(parts[i])
  {
    if parts == [] then [] else [Escape(parts[0])] + EscapeEach(parts[1..])
  }

  /** Escaping the parts one by one and concatenating them escapes the concatenation. */
  lemma {:induction false} EscapeConcat(parts: seq<string>)
    ensures Join("", EscapeEach(parts)) == Escape(Join("", parts))
  {
    if parts != [] {
      var p, tail := parts[0], parts[1..];
      assert parts == [p] + tail;
      assert EscapeEach(parts) == [Escape(p)] + EscapeEach(tail);
      EscapeConcat(tail);
      ConcatCons(p, tail);
      ConcatCons(Escape(p), EscapeEach(tail));
      EscapeAppend(p, Join("", tail));
    }
  }

  /** The first '\n' of a line, a '\n' and a rest is the one after the line. */
  lemma IndexAfterLine(line: string, rest: string)
    requires '\n' !in line
    ensures IndexOf(line + "\n" + rest, '\n') == |line|
  {
    var s := line + "\n" + rest;
    var i := IndexOf(s, '\n');
    assert s[|line|] == '\n';
    assert forall j | 0 <= j < |line| :: s[j] == line[j];
  }

  /**
   * Splitting lines joined by '\n' gives them back, as long as none holds a
   * '\n' and the last is not empty (`splitlines` drops a final empty line).
   */
  lemma {:induction false} SplitLinesOfJoin(parts: seq<string>)
    requires forall i | 0 <= i < |parts| :: '\n' !in parts[i]
    requires parts == [] || parts[|parts| - 1] != ""
    ensures SplitLines(Join("\n", parts)) == parts
  {
    if |parts| == 1 {
      assert IndexOf(parts[0], '\n') == |parts[0]|;
    } else if |parts| > 1 {
      var p, tail := parts[0], parts[1..];
      var rest := Join("\n", tail);
      var s := p + "\n" + rest;
      assert Join("\n", parts) == s;
      SplitLinesOfJoin(tail);
      IndexAfterLine(p, rest);
      assert s[..|p|] == p && s[|p| + 1..] == rest;
      assert rest != [];
      SplitLinesCons(s, |p|);
      assert parts == [p] + tail;
    }
  }

  /** An indent without a line break repeated is still without one. */
  lemma {:induction false} RepeatNoNewline(s: string, n: nat)
    requires '\n' !in s
    ensures '\n' !in Repeat(s, n)
  {
    if n > 0 {
      RepeatNoNewline(s, n - 1);
    }
  }
}
