# htmlclasses in Dafny

htmlclasses writes HTML as nested Python classes. Each class that subclasses
`E` is an element; its name is the tag; its `TEXT` constant is the text; its
other public constants are the attributes; and the element classes nested in
its body are its children. This project models the two halves of the
library and proves what they promise.

- **Class creation** (`htmlclasses/htmlclasses.py`). The metaclass `Meta`
  hands each class body a collecting dictionary. The dictionary's
  `__setitem__` sorts every assignment of the body:
  - an element class is appended to the owned elements, so same-named
    siblings are all kept;
  - a plain nested class under a public name is first turned into an element
    class named after its binding;
  - a public name other than `TEXT` sets an attribute, named by dropping
    trailing underscores and writing the other underscores as hyphens;
  - everything else goes to the ordinary class namespace.

  `__prepare__` seeds the dictionary with the bases' owned elements and
  attributes. The result of a class statement is a `Blueprint`: tag,
  attributes in insertion order, owned elements in order, and text.
  - Module `Blueprints` holds the functional specification.
  - Module `Collecting` holds the imperative dictionary, a class whose
    methods are proved to compute it.
  - Module `OrderedMap` models a Python `dict` as a list of pairs that keeps
    insertion order.
- **The first serializer** (`to_string` and `_calculate_element_str` of
  `htmlclasses.py`). It renders a blueprint directly: compactly under
  `indent=None`, one element per line otherwise. Module `ElementString`
  models it.
- **The line serializer** (`htmlclasses/serialize.py`). It turns a tree into
  `IndentedLine`s and either concatenates them or joins them with `'\n'`
  behind the indent. Module `Serialize` models it over a `Node` tree:
  - an element class, with its tag, attributes and children;
  - a text;
  - an `E` instance, whose sub-elements stand in its place.

Other modules:
- `Strings`: the Python string operations the library relies on.
- `Markup`: the doctype and the attribute part that both serializers share.
- `Scenarios` and `Renderings`: the library's test cases and README examples,
  stated over arbitrary names where the shape allows it.

## Model

| member | source | states |
|---|---|---|
| Strings.RStrip | htmlclasses/htmlclasses.py:20 | `rstrip` of one character removes exactly the trailing run of that character and keeps the rest as a prefix |
| Strings.RStripNone | htmlclasses/htmlclasses.py:164 | a string that does not end in the character is left unchanged |
| Strings.RStripOne | htmlclasses/htmlclasses.py:164 | one trailing character after a string not ending in it is all that is stripped |
| Strings.RStripKeeps | htmlclasses/htmlclasses.py:164 | stripping never removes a character other than the one stripped |
| Strings.RStripAppend | htmlclasses/htmlclasses.py:164 | stripping a concatenation whose tail does not strip to nothing leaves the head alone |
| Strings.ReplaceChar | htmlclasses/htmlclasses.py:20 | one-character `replace` changes exactly the occurrences of that character, position by position |
| Strings.Join | htmlclasses/serialize.py:28-31 | definition of `sep.join(parts)`; properties in Strings.JoinEmpty, Strings.JoinSnoc, Strings.ConcatCons, Strings.SplitLinesOfJoin |
| Strings.JoinEmpty | htmlclasses/htmlclasses.py:134-142 | a join of non-empty parts is empty exactly when there are no parts |
| Strings.JoinSnoc | htmlclasses/serialize.py:28-31 | joining `a + [p]` appends the separator and `p` to the join of `a` |
| Strings.ConcatCons | htmlclasses/serialize.py:33 | joining with no separator puts the first part before the rest |
| Strings.Repeat | htmlclasses/serialize.py:29 | `s * n` has `n` times the length of `s` (what it holds is stated through Strings.RepeatNoNewline and the indented-output lemmas) |
| Strings.LowerAscii | htmlclasses/serialize.py:72 | `lower()` keeps the length and lower-cases every ASCII capital |
| Strings.IndexOf | htmlclasses/serialize.py:55 | the index of the first line break, or the length when there is none |
| Strings.SplitLines | htmlclasses/serialize.py:55 | no line holds a '\n', and there are no lines exactly when the string is empty |
| Strings.SplitLinesCons | htmlclasses/serialize.py:55 | the lines of a text with a '\n' are the first line, then the lines after it |
| Strings.SplitLinesJoin | htmlclasses/serialize.py:55 | joining the lines with '\n' gives the text back, less a final '\n' |
| Strings.SplitLinesOfJoin | htmlclasses/serialize.py:27-31 | splitting lines joined by '\n' gives them back when none holds a '\n' and the last is not empty |
| Strings.SplitLinesConcat | htmlclasses/serialize.py:33 | concatenating the lines of a text drops its line breaks and nothing else |
| Strings.RemoveNewlinesJoin | htmlclasses/htmlclasses.py:134 | removing the line breaks of parts joined by '\n' concatenates the parts' remains |
| Strings.Escape | htmlclasses/serialize.py:56 | the escaped text holds none of `< > " '`, and holds a '\n' exactly when the text does (Strings.UnescapeEscape states that nothing is lost) |
| Strings.EscapeConcat | htmlclasses/serialize.py:55-56 | escaping parts one by one and concatenating them escapes the concatenation |
| Strings.UnescapeEscape | htmlclasses/serialize.py:56 | escaping loses no information: unescaping gives the text back |
| Strings.RepeatNoNewline | htmlclasses/serialize.py:29 | an indent without a line break, repeated, has none either |
| OrderedMap.Keys | htmlclasses/htmlclasses.py:78 | the keys of a dictionary, in insertion order |
| OrderedMap.Get | htmlclasses/htmlclasses.py:44 | `d.get(k)` is missing exactly when `k` is not a key |
| OrderedMap.Put | htmlclasses/htmlclasses.py:78 | definition of `d[k] = v`; properties in OrderedMap.PutKeys, OrderedMap.PutGet, OrderedMap.PutUnique, OrderedMap.PutMembers, OrderedMap.PutNew |
| OrderedMap.PutKeys | htmlclasses/htmlclasses.py:78 | re-assigning a key keeps the key order; a new key is appended |
| OrderedMap.PutGet | htmlclasses/htmlclasses.py:78 | after `d[k] = v`, `k` reads `v` and every other key reads what it did |
| OrderedMap.PutUnique | htmlclasses/htmlclasses.py:78 | assignment keeps keys unique |
| OrderedMap.PutMembers | htmlclasses/htmlclasses.py:78 | every entry after `d[k] = v` is `(k, v)` or an old entry |
| OrderedMap.PutAll | htmlclasses/htmlclasses.py:94-98 | definition of `for k, v in pairs: d[k] = v`; properties in OrderedMap.PutAllGet, OrderedMap.PutAllKeys and the lemmas below |
| OrderedMap.LastIn | htmlclasses/htmlclasses.py:78 | definition: the value of the last pair for a key; used by OrderedMap.PutAllGet |
| OrderedMap.NewKeys | htmlclasses/htmlclasses.py:78 | definition: the keys not seen before, each once, in order of first occurrence; properties in OrderedMap.NewKeysMembers |
| OrderedMap.NewKeysMembers | htmlclasses/htmlclasses.py:78 | a key is among the new keys exactly when some pair has it and it was not seen before |
| OrderedMap.PutAllGet | htmlclasses/htmlclasses.py:78 | after a sequence of assignments a key reads the value of its last assignment, and a key never assigned reads what it did before |
| OrderedMap.PutAllKeys | htmlclasses/htmlclasses.py:78 | after a sequence of assignments the keys are the old keys in order, then the new keys in order of first assignment: a re-assigned key keeps its first position |
| OrderedMap.LastInAppend | htmlclasses/htmlclasses.py:94-98 | the last assignment of a key in `a + b` is `b`'s if `b` assigns it, and `a`'s otherwise |
| OrderedMap.PutAllMembers | htmlclasses/htmlclasses.py:94-98 | every entry after a sequence of assignments comes from the old dictionary or the assignments |
| OrderedMap.PutAllAppend | htmlclasses/htmlclasses.py:94-98 | assigning `a + b` is assigning `a`, then `b` |
| OrderedMap.PutNew | htmlclasses/htmlclasses.py:78 | assigning a new key appends the entry |
| OrderedMap.PutAllNew | htmlclasses/htmlclasses.py:94-98 | assigning distinct new keys appends them in order |
| Blueprints.ToElemAttrName | htmlclasses/htmlclasses.py:19-20 | the attribute name drops the trailing underscores, writes every other underscore as a hyphen, keeps every other character, and contains no underscore |
| Blueprints.IsElemAttribute | htmlclasses/htmlclasses.py:15-16 | definition; properties in Blueprints.PrivateNamesSetNoAttribute and Scenarios.TextUnderscore |
| Blueprints.AttrNameIdempotent | htmlclasses/htmlclasses.py:19-20 | an attribute name is its own attribute name |
| Blueprints.CanBeConvertedToElementClass | htmlclasses/htmlclasses.py:27-37 | definition: a plain class under a name not starting with `_`; properties in Blueprints.DefineOwned and Scenarios.PlainText |
| Blueprints.Assigned | htmlclasses/htmlclasses.py:72-80 | definition of one `__setitem__`; properties in Blueprints.DefineOwned, Blueprints.DefineAttrs, Blueprints.DefineText; Collecting.Collector.SetItem is proved to compute it |
| Blueprints.Collect | htmlclasses/htmlclasses.py:72-80 | definition: a class body's assignments applied in order; Collecting.DefineClass is proved to compute it |
| Blueprints.OwnedOfBases | htmlclasses/htmlclasses.py:88-92 | definition of the bases' owned elements summed in base order; used by Blueprints.DefineOwned |
| Blueprints.AttrsOfBases | htmlclasses/htmlclasses.py:94-99 | definition of the bases' attributes merged left to right; properties in Blueprints.AttrsOfBasesFlat and Blueprints.PreparedLaterBaseWins |
| Blueprints.Prepared | htmlclasses/htmlclasses.py:85-101 | definition of `__prepare__`'s dictionary; Collecting.Prepare is proved to compute it |
| Blueprints.ResolvedText | htmlclasses/htmlclasses.py:104-106 | definition of the class's `TEXT`; properties in Blueprints.DefineText |
| Blueprints.Define | htmlclasses/htmlclasses.py:83-106 | definition of a class statement under `Meta`; properties in Blueprints.DefineOwned, Blueprints.DefineAttrGet, Blueprints.DefineAttrKeys, Blueprints.DefineText, Blueprints.DefineWF |
| Blueprints.PlainNamespace | htmlclasses/htmlclasses.py:45-46 | definition of a plain class's `__dict__`: first position, last value |
| Blueprints.Converted | htmlclasses/htmlclasses.py:40-55 | definition of `_create_element_class`; properties in Blueprints.ConvertedOwned, Blueprints.ConvertedText, Blueprints.ConvertedWF |
| Blueprints.DefineOwned | htmlclasses/htmlclasses.py:72-92 | a class owns every element class of its bases, in base order, then every element class its body declares (plain classes converted), duplicates kept |
| Blueprints.DefineAttrs | htmlclasses/htmlclasses.py:72-99 | a class's attributes are its bases' attributes merged left to right, then overridden and extended by its body's public assignments |
| Blueprints.BaseAttrs | htmlclasses/htmlclasses.py:94-98 | definition: every base's attributes, base after base |
| Blueprints.AttrsOfBasesFlat | htmlclasses/htmlclasses.py:94-99 | merging the bases one by one is assigning all their attributes in turn |
| Blueprints.BaseAttrsSnoc | htmlclasses/htmlclasses.py:94-98 | a base added last contributes its attributes last |
| Blueprints.PreparedLaterBaseWins | htmlclasses/htmlclasses.py:94-99 | with one more base, an attribute that base has takes its value whatever the earlier bases said; every other attribute keeps its value |
| Blueprints.DefineAttrsFlat | htmlclasses/htmlclasses.py:72-99 | a class's attributes are the result of assigning the bases' attributes left to right, then the body's attribute assignments |
| Blueprints.DefineAttrGet | htmlclasses/htmlclasses.py:72-99 | an attribute's value is the body's last assignment to it, else the value of the last base that has it, else absent |
| Blueprints.DefineAttrKeys | htmlclasses/htmlclasses.py:72-99 | the attribute order is every attribute name of the bases and then of the body at its first occurrence: overriding or re-assigning keeps the first position |
| Blueprints.PrivateNamesSetNoAttribute | htmlclasses/htmlclasses.py:15-16 | names starting with `_` and `TEXT` never set an attribute, whatever their value |
| Blueprints.ConvertedOwned | htmlclasses/htmlclasses.py:40-55 | a converted plain class owns exactly the element classes its body declares |
| Blueprints.DefineText | htmlclasses/htmlclasses.py:79-106 | a class's `TEXT` is the last `TEXT` its body assigns, or its first base's |
| Blueprints.ConvertedText | htmlclasses/htmlclasses.py:43-46 | a converted plain class takes its namespace's `TEXT`, or `''` |
| Blueprints.DefineWF | htmlclasses/htmlclasses.py:72-80 | with well-formed bases and body, a new class has unique attribute names without `_`, at every depth |
| Blueprints.ConvertedWF | htmlclasses/htmlclasses.py:40-55 | a converted plain class is well formed at every depth |
| Collecting.Collector.constructor | htmlclasses/htmlclasses.py:60-70 | a fresh dictionary has no owned elements, no attributes, and an empty namespace |
| Collecting.Collector.SetItem | htmlclasses/htmlclasses.py:72-80 | the new dictionary is the old one after the specified assignment, in each of the four branches |
| Collecting.Prepare | htmlclasses/htmlclasses.py:85-101 | a fresh dictionary whose owned elements are the bases' in order, and whose attributes merge the bases' attributes left to right |
| Collecting.DefineClass | htmlclasses/htmlclasses.py:83-106 | running a body against the prepared dictionary, one assignment at a time, builds the specified class |
| Collecting.CreateElementClass | htmlclasses/htmlclasses.py:40-55 | the plain class is defined with no element bases, `TEXT = ''`, and then its `__dict__` |
| Markup.AttrsStringEmpty | htmlclasses/htmlclasses.py:146-151 | the attribute part is empty exactly when there are no attributes, and starts with a space otherwise |
| Markup.AttrsString | htmlclasses/htmlclasses.py:146-151 | definition: a space, then `k="v"` pairs joined by spaces, or nothing; properties in Markup.AttrsStringEmpty, Renderings.AttrsOne, Renderings.AttrsCons |
| Markup.AttrsNoNewline | htmlclasses/serialize.py:88-100 | attributes without line breaks give an attribute part without line breaks |
| ElementString.ElementBody | htmlclasses/htmlclasses.py:167-199 | the element string, before the line form's final newline, is never empty and ends with `>` |
| ElementString.CalculateElementStr | htmlclasses/htmlclasses.py:167-199 | definition: the element body, plus a final newline in the line form; properties in ElementString.SelfClosing, ElementString.ClosingTagPlacement |
| ElementString.Doctype | htmlclasses/htmlclasses.py:130-131 | definition; properties in ElementString.DoctypeFirst |
| ElementString.ChildSeparator | htmlclasses/htmlclasses.py:133-134 | definition: '' for `indent=None`, '\n' otherwise |
| ElementString.ToString | htmlclasses/htmlclasses.py:109-164 | definition of `to_string`; properties in ElementString.ToStringTrimmed, ElementString.DoctypeFirst, ElementString.CompactMatches, ElementString.FalsyIndentBreaksLines |
| ElementString.Children | htmlclasses/htmlclasses.py:134-142 | definition of the joined children; properties in ElementString.ChildrenEmpty |
| ElementString.Compact | htmlclasses/htmlclasses.py:177-181 | an independent recursive definition of the compact form, which ElementString.CompactMatches proves `to_string` equal to |
| ElementString.ElementBodyOpens | htmlclasses/htmlclasses.py:179-199 | every element opens with its tag and attributes, preceded by its indent in the line form |
| ElementString.ChildStrings | htmlclasses/htmlclasses.py:134-142 | one rendering per owned element (where each one starts is stated by ElementString.ChildIndent) |
| ElementString.ToStringTrimmed | htmlclasses/htmlclasses.py:162-164 | a rendering is the doctype part and then the element: stripping removes only the line form's final newline |
| ElementString.DoctypeFirst | htmlclasses/htmlclasses.py:130-131 | the doctype comes first, followed by a newline only under a truthy indent; the rest renders as without it |
| ElementString.ToStringNonEmpty | htmlclasses/htmlclasses.py:109-164 | no rendering is empty |
| ElementString.ChildrenEmpty | htmlclasses/htmlclasses.py:134-142 | the children render to nothing exactly when there are no owned elements |
| ElementString.SelfClosing | htmlclasses/htmlclasses.py:178-199 | an element is self-closing exactly when it has neither text nor owned elements; otherwise it ends with its closing tag |
| ElementString.ClosingTagPlacement | htmlclasses/htmlclasses.py:185-197 | in the line form a parent's closing tag is on a line of its own at its indent; a text-only element closes on its opening line |
| ElementString.ChildIndent | htmlclasses/htmlclasses.py:139 | in the line form every owned element starts at the parent's indent plus one more indent |
| ElementString.ChildStringAt | htmlclasses/htmlclasses.py:139 | under a falsy indent every child renders at no indent |
| ElementString.FalsyIndentBreaksLines | htmlclasses/htmlclasses.py:177-199 | under a falsy indent other than `None`, removing the line breaks gives the compact output |
| ElementString.FalsyIndentBreaksLinesDoctype | htmlclasses/htmlclasses.py:130-131 | the same holds with the doctype in front |
| ElementString.CompactSingleLine | htmlclasses/htmlclasses.py:177-181 | with no line breaks in the tree, the compact output is one line |
| ElementString.CompactMatches | htmlclasses/htmlclasses.py:177-181 | under `indent=None` the output is the independent compact rendering, at any depth |
| Serialize.TagOpening | htmlclasses/serialize.py:88-100 | `<tag`, then ` ` and the attributes only when there are some, then `/>` for a leaf and `>` otherwise |
| Serialize.TagClosing | htmlclasses/serialize.py:103-107 | a leaf has no closing tag; any other element has `</tag>` |
| Serialize.IsPre | htmlclasses/serialize.py:72 | definition of `tag_name.lower() == 'pre'`; properties in Renderings.NotPre |
| Serialize.HandlePre | htmlclasses/serialize.py:110-122 | a `pre` succeeds exactly when it has no children or a single text child, and a refusal names the tag |
| Serialize.TextLines | htmlclasses/serialize.py:54-57 | one line per line of the text (Serialize.TextLinesRoundTrip states what each holds) |
| Serialize.Concat | htmlclasses/serialize.py:80-83 | the lines succeed exactly when every part does, and a failure is that of the first failing part, every part before it having succeeded |
| Serialize.Texts | htmlclasses/serialize.py:33 | one text per `IndentedLine` |
| Serialize.IndentedTexts | htmlclasses/serialize.py:29-30 | one indented text per `IndentedLine` (Serialize.IndentedPhysicalLines states what each holds) |
| Serialize.Lines | htmlclasses/serialize.py:42-57 | definition of `_lines`: the doctype line if asked for, then the node's lines; properties in Serialize.NoDoctype, Serialize.DoctypeFirst |
| Serialize.NodeLines | htmlclasses/serialize.py:54-85 | definition of `_lines` after the doctype; properties in Serialize.NodeLinesOk, Serialize.NodeLinesLevels, Serialize.ElementLines, Serialize.LeafLine, Serialize.PreText |
| Serialize.ChildLines | htmlclasses/serialize.py:59-63 | definition: the lines of each child or sub-element in order; properties in Serialize.NodeLinesOk, Serialize.NodeLinesLevels |
| Serialize.Assemble | htmlclasses/serialize.py:27-33 | definition of how the lines are written; properties in Serialize.AssembleDoctype, Serialize.IndentedPhysicalLines |
| Serialize.ToString | htmlclasses/serialize.py:7-33 | definition of `to_string`; properties in Serialize.ToStringOk, Serialize.DoctypeFirst, Serialize.IndentedPhysicalLines, Serialize.PreRefused |
| Serialize.PreOk | htmlclasses/serialize.py:110-122 | an independent recursive predicate: every `pre` has no children or one text; Serialize.ToStringOk proves success equivalent to it |
| Serialize.NoDoctype | htmlclasses/serialize.py:51-52 | without a doctype, only the element's own lines are yielded |
| Serialize.AssembleOne | htmlclasses/serialize.py:27-33 | a single line at level 0 is written as it is in both modes |
| Serialize.NodeLinesOk | htmlclasses/serialize.py:72-77 | serializing a tree fails exactly when one of its `pre` elements cannot be written |
| Serialize.ToStringOk | htmlclasses/serialize.py:7-33 | `to_string` gives a string exactly when every `pre` element can be written |
| Serialize.NodeLinesLevels | htmlclasses/serialize.py:79-85 | no line of a tree is indented less than the tree itself |
| Serialize.ElementLines | htmlclasses/serialize.py:79-85 | an element other than `pre` with children: its opening at its level, its children's lines one level deeper, its closing back at its level |
| Serialize.LeafLine | htmlclasses/serialize.py:67-85 | an element without children, `pre` or not, is a single self-closing line in every mode |
| Serialize.TextLinesRoundTrip | htmlclasses/serialize.py:54-57 | a text becomes escaped lines without line breaks at the text's level; unescaping and joining them with '\n' gives the text back, less a final '\n' |
| Serialize.CompactText | htmlclasses/serialize.py:33 | in compact mode a text loses its line breaks and is escaped |
| Serialize.PreText | htmlclasses/serialize.py:120-122 | a `pre` with a single text is one line in every mode: the escaped text, line breaks kept, between the tags |
| Serialize.PreRefused | htmlclasses/serialize.py:115-119 | a `pre` with several children, or one non-text child, makes the whole serialization fail with `NotImplementedError`, whatever the options |
| Serialize.AssembleDoctype | htmlclasses/serialize.py:27-33 | writing the doctype line first puts `<!DOCTYPE html>` before the rest, with '\n' only in indented mode |
| Serialize.DoctypeFirst | htmlclasses/serialize.py:26-33 | the doctype comes first, on its own line in indented mode and directly before the markup in compact mode; it changes nothing else |
| Serialize.IndentedPhysicalLines | htmlclasses/serialize.py:27-31 | in indented mode, with single-line texts and a non-empty last line, each `IndentedLine` is exactly one output line: its text behind the indent repeated once per level |
| Scenarios.DefineShape | htmlclasses/htmlclasses.py:83-101 | a defined class, field by field |
| Scenarios.RootElement | htmlclasses/htmlclasses.py:104-106 | `E` has tag `E`, no attributes, no owned elements, and empty `TEXT` |
| Scenarios.TextOnly | tests/test_htmlclasses.py:17-23 | `class p(E): TEXT = t` is a leaf with text `t` |
| Scenarios.ElementsOfOne | htmlclasses/htmlclasses.py:73-74 | one element class in a body is one owned element |
| Scenarios.ElementsOfTwo | htmlclasses/htmlclasses.py:73-74 | two element classes in a body are both owned, in order |
| Scenarios.OwnedOfOne | htmlclasses/htmlclasses.py:88-92 | the owned elements of a single base are that base's |
| Scenarios.DupeTags | tests/test_htmlclasses.py:40-53 | three `p` classes in one body are all kept, in order |
| Scenarios.SingleInheritance | tests/test_htmlclasses.py:56-71 | a subclass keeps its base's elements before its own, under its own name |
| Scenarios.MultipleInheritance | tests/test_htmlclasses.py:74-95 | two bases contribute their elements in base order |
| Scenarios.DeepInheritance | tests/test_htmlclasses.py:98-119 | a chain of subclasses accumulates every ancestor's elements |
| Scenarios.PlainText | htmlclasses/htmlclasses.py:40-55 | `class p: TEXT = t` under a public name becomes the element `p` with text `t` |
| Scenarios.Reuse | tests/test_htmlclasses.py:122-148 | a plain class after an element class of the same name is kept beside it, and a subclass adds its own `p` last |
| Scenarios.ElementThenPlain | htmlclasses/htmlclasses.py:72-76 | an element class, then a plain class under a public name: both owned, in order |
| Scenarios.NameWithoutUnderscore | htmlclasses/htmlclasses.py:19-20 | a name without `_` is its own attribute name |
| Scenarios.ClassUnderscore | tests/test_htmlclasses.py:151-164 | `class_` names the attribute `class` |
| Scenarios.Dashed | htmlclasses/htmlclasses.py:19-20 | an inner `_` between two non-empty parts becomes `-` |
| Scenarios.WithDash | tests/test_htmlclasses.py:151-164 | `with_dash` names `with-dash` |
| Scenarios.SomeAttr | htmlclasses/__init__.py:12-22 | `some_attr` names `some-attr` |
| Scenarios.TextUnderscore | htmlclasses/htmlclasses.py:15-20 | `TEXT_` is an attribute name, and it names the attribute `TEXT` |
| Scenarios.AttrDeclOne | htmlclasses/htmlclasses.py:77-78 | the attributes one public scalar assignment sets |
| Scenarios.AttrDeclsCons | htmlclasses/htmlclasses.py:77-78 | the attributes a body sets: its first assignment's, then the rest's |
| Scenarios.AttrsOfOne | htmlclasses/htmlclasses.py:94-99 | the attributes of a single base are that base's |
| Scenarios.OneAttrClass | htmlclasses/htmlclasses.py:77-78 | a class whose body sets a single attribute has that attribute only |
| Scenarios.OneAttrSubclass | htmlclasses/htmlclasses.py:94-99 | a subclass's new attribute comes after its base's |
| Scenarios.ClassX | tests/test_htmlclasses.py:169-170 | `class X(E): foo = 'bar'` |
| Scenarios.SubclassAttributes | tests/test_htmlclasses.py:167-175 | a subclass keeps its base's attributes first and adds its own after them |
| Scenarios.TwoLevelAttrs | htmlclasses/htmlclasses.py:94-99 | a subclass of a subclass of `E` has both attributes, the base's first |
| Scenarios.ReassignmentDecls | htmlclasses/htmlclasses.py:78 | the attributes a body with a re-assignment sets, in order |
| Scenarios.Reassignment | htmlclasses/htmlclasses.py:78 | re-assigning an attribute keeps its first place and takes the last value |
| Scenarios.ReassignKeepsFirst | htmlclasses/htmlclasses.py:78 | `d[x] = v1; d[y] = v2; d[x] = v3` leaves `x` first with `v3` |
| Scenarios.TextAttribute | htmlclasses/htmlclasses.py:15-20 | `TEXT_ = t` sets the attribute `TEXT` and leaves the text empty |
| Scenarios.ScalarsDeclareNoElements | htmlclasses/htmlclasses.py:72-80 | a body of scalar assignments declares no element |
| Scenarios.TextDeclNoAttr | htmlclasses/htmlclasses.py:15-16 | `TEXT = t` sets no attribute |
| Scenarios.ThreeAttrDecls | htmlclasses/htmlclasses.py:77-78 | three public scalar assignments set three attributes, in order |
| Scenarios.LastTextKeeps | htmlclasses/htmlclasses.py:79-80 | a body that never assigns `TEXT` keeps the text |
| Scenarios.LastTextCons | htmlclasses/htmlclasses.py:79-80 | assigning `TEXT` first sets the text until the next `TEXT` |
| Scenarios.TextAndThreeAttrs | tests/test_htmlclasses.py:156-160 | an element class setting its text and three distinct attributes |
| Scenarios.AttributesThroughConstants | tests/test_htmlclasses.py:151-164 | class constants other than `TEXT` become attributes in order, with `class_` and `with_dash` written `class` and `with-dash` |
| Scenarios.ConvertedDistinct | htmlclasses/htmlclasses.py:43-46 | a plain class with distinct names: its namespace is its body after `TEXT = ''` |
| Scenarios.ConvertedTextAndAttr | tests/test_htmlclasses.py:192-195 | a plain class that sets its text and one attribute |
| Scenarios.ConvertedWrapper | tests/test_htmlclasses.py:190-192 | a plain class holding only another plain class |
| Scenarios.DefineWrapper | tests/test_htmlclasses.py:188-190 | an element class holding only a plain class |
| Scenarios.NoNeedToSubclass | tests/test_htmlclasses.py:186-197 | plain classes in an element class are converted at every depth: `foo` owns `bar`, which owns `baz` |
| Scenarios.ConvertedTwoAttrs | tests/readme_examples/example_10_repeated_elements.py:8-14 | a plain class that sets two distinct attributes |
| Scenarios.TwoAttrDecls | htmlclasses/htmlclasses.py:77-78 | two attribute declarations, in order |
| Scenarios.TwoPlain | tests/readme_examples/example_10_repeated_elements.py:6-14 | two plain classes under one name are both converted and kept, in order |
| Scenarios.MetaConverted | tests/readme_examples/example_10_repeated_elements.py:8-10 | a plain `meta` becomes `meta` with `name` and `content` |
| Scenarios.ExampleHead | tests/readme_examples/example_10_repeated_elements.py:6-14 | the example's `head` owns both `meta` elements, in order |
| Scenarios.ConvertedTextOnly | tests/readme_examples/example_10_repeated_elements.py:18-20 | a plain class holding only `TEXT = t` |
| Scenarios.ExampleHtml | tests/readme_examples/example_10_repeated_elements.py:4-20 | the example's `html` owns `head`, then the converted `body` holding the converted `p` |
| Scenarios.ElementThenPlainNamed | htmlclasses/htmlclasses.py:72-76 | an element class, then a plain class under another name: both owned, in order |
| Renderings.AttrsOne | htmlclasses/htmlclasses.py:146-151 | one attribute is a space, then `k="v"` |
| Renderings.AttrsCons | htmlclasses/serialize.py:89-95 | each further attribute adds a space and its `k="v"`, in order |
| Renderings.AttrsTwo | htmlclasses/serialize.py:89-95 | two attributes, in order |
| Renderings.OldLeaf | htmlclasses/htmlclasses.py:177-181 | an element class with attributes only closes itself |
| Renderings.OldTextLine | htmlclasses/htmlclasses.py:185-197 | in the line form, a text-only element is one line at its indent |
| Renderings.OldWrapper | htmlclasses/htmlclasses.py:185-197 | under a truthy indent, an element holding one element: opening, the child one indent deeper on the next line, closing on its own line |
| Renderings.LeafTwoAttrs | tests/test_htmlclasses.py:167-175 | an element with two attributes closes itself after them, in their order |
| Renderings.IndentedNest | tests/test_htmlclasses.py:200-218 | `foo` holding `bar` holding `baz` with attributes and text: one line per element, one indent per level, closing tags aligned |
| Renderings.EmptyLeaf | tests/test_htmlclasses.py:9-14 | an empty element class closes itself in every form, at no indent |
| Renderings.DoctypeLeaf | htmlclasses/htmlclasses.py:130-131 | the doctype goes straight before the element, followed by a newline only under a truthy indent |
| Renderings.CompactTextLeaf | htmlclasses/htmlclasses.py:177-179 | an element with a text only, without an indent |
| Renderings.DoctypeText | tests/test_htmlclasses.py:17-23 | `html` with a text and no indent: the doctype, then the element, on the same line |
| Renderings.FalsyIndentHeadAndBody | tests/test_htmlclasses.py:26-37 | `html` holding `head` and `body` under a falsy indent: no newline after the doctype, each owned element on an unindented line of its own |
| Renderings.CompactThree | tests/test_htmlclasses.py:40-53 | three `p` elements with texts, one after the other inside `body`, in order |
| Renderings.NotPre | htmlclasses/serialize.py:72 | only a three-letter tag can be `pre` |
| Renderings.TextLine | htmlclasses/serialize.py:54-57 | a text without line breaks is one escaped line |
| Renderings.ChildLinesOfOne | htmlclasses/serialize.py:80-83 | the lines of one child |
| Renderings.ChildLinesOfTwo | htmlclasses/serialize.py:80-83 | the lines of two children, the first child's first |
| Renderings.ElemLines | htmlclasses/serialize.py:79-85 | an element other than `pre` with children: opening line, the children's lines, closing line |
| Renderings.OneKidLines | htmlclasses/serialize.py:79-85 | an element without attributes holding one child |
| Renderings.TwoKidLines | htmlclasses/serialize.py:79-85 | an element without attributes holding two children |
| Renderings.TextChildLines | tests/readme_examples/example_10_repeated_elements.py:31-33 | an element with a one-line text: three lines, the text one level deeper |
| Renderings.HeadLines | tests/readme_examples/example_10_repeated_elements.py:26-29 | `head` with two leaves, at level 1 |
| Renderings.BodyLines | tests/readme_examples/example_10_repeated_elements.py:30-34 | `body` holding `p` with a one-line text, at level 1 |
| Renderings.ExampleYieldsLines | tests/readme_examples/example_10_repeated_elements.py:23-36 | the example yields the doctype, then one line per tag and per line of text, at its nesting level |
| Renderings.ExampleTagsNotPre | tests/readme_examples/example_10_repeated_elements.py:4-20 | the example's tags are not `pre` |
| Renderings.ExampleOutput | tests/readme_examples/test_examples.py:8-11 | written with an indent of four spaces or any other newline-free indent, the example's output is exactly its expected lines joined by newlines, with no trailing newline, so it equals the stripped expected text of example_10_repeated_elements.py:23-36; split at newlines it gives back exactly those lines |
| Renderings.ExampleLinesSingle | tests/readme_examples/example_10_repeated_elements.py:23-36 | no line of the example holds a line break, and the last is not empty |

## Left out

- Python reflection is not modelled: `inspect.isclass`, `issubclass`, `types.new_class` and `getattr` with defaults. A class body is a list of `(name, value)` assignments. A value is an element class, a plain class, or a scalar.
- `Scalar` values stand for the `str()` of any value other than a class. Attribute values are strings from the start, and `str()` of numbers and other objects is not modelled.
- Blueprints.DefineText: a class's inherited `TEXT` is its first base's resolved `TEXT`, not the one the full method resolution order finds. The two differ only when a later base sets `TEXT` and the first base inherits it.
- Blueprints.ResolvedText: for the same reason, it reads a class's own `TEXT` or else its first base's resolved `TEXT`, never a later base's; the full method resolution order is not modelled.
- Strings.SplitLines splits on '\n' only. Python's `splitlines` also breaks at '\r', '\r\n', '\x0b', '\x0c', '\x1c' to '\x1e', '\x85', '\u2028' and '\u2029'.
- Strings.LowerAscii lower-cases ASCII letters only. Python's `lower()` is Unicode-aware, but the only non-ASCII letter it maps into ASCII is the Kelvin sign, so the test against `'pre'` gives the same answer.
- `html.escape` is written out character by character in Strings.Escape, with `quote=True`, as `html.escape` defaults.
- The text of the `NotImplementedError` message is not modelled. A refusal carries the tag of the `pre` element.
- serialize.py reads `_trees_and_leaves`, `_element_attributes` and `_subelements`, which htmlclasses.py does not define. The module serializes the `Node` tree that stands for those attributes. It is not connected to `Blueprints`.
- `Blueprints.Depth` and the lemmas about it (`DepthBound`, `DepthLeast`, `DepthSubset`) are the termination measure for the recursion between class definition and plain-class conversion at htmlclasses/htmlclasses.py:40-55 and 75-76; the source has no counterpart, as Python needs none.
- The build scripts, the checksum tests, `htmlclasses/lib/svg.py` and numpy are not part of this model.
- tests/test_htmlclasses.py passes an `encoding=` argument that `to_string` does not take, and some of its expectations differ from the code. The model follows the code:
  - under `indent=False` the owned elements go on separate lines, and `to_str`'s expected strings are what ElementString.FalsyIndentBreaksLines gives once the line breaks are removed;
  - with the default `indent=None` no '\n' follows the doctype, unlike the expectations of test_html_with_no_data and test_html_with_data (Renderings.DoctypeLeaf, Renderings.DoctypeText);
  - test_bytes expects bytes, which `to_string` never returns.
- The README examples and test classes are stated over arbitrary tag names and attribute lists wherever the shape allows. `tests/test_lib.py:30-42` is covered by the general Renderings.AttrsCons and Serialize.LeafLine, not by its literal values.
