/**
 * The class statements of the repository's tests and README example,
 * written as declarations, and what the model says they define.
 */
module Scenarios {
  import opened Strings
  import opened OrderedMap
  import opened Blueprints

  /** `class p(E): TEXT = t` */
  function P(t: string): Blueprint {
    Define("p", [E], [(TEXT, Scalar(t))])
  }

  /** A defined class, field by field. */
  lemma DefineShape(name: string, bases: seq<Blueprint>, body: seq<Decl>)
    ensures Define(name, bases, body) == Blueprint(
      name,
      PutAll(AttrsOfBases([], bases), AttrDecls(body)),
      OwnedOfBases(bases) + Elements(body),
      match LastText(body, None) {
        case Some(t) => t
        case None => if bases == [] then "" else bases[0].text
      })
  {
    DefineOwned(name, bases, body);
    DefineAttrs(name, bases, body);
    DefineText(name, bases, body);
  }

  /** The root element class `E`, defined with no bases and an empty `TEXT`, is `E` itself. */
  lemma RootElement()
    ensures Define("E", [], [(TEXT, Scalar(""))]) == E
  {
    DefineShape("E", [], [(TEXT, Scalar(""))]);
  }

  /** `class p(E): TEXT = t` is a leaf `p` with text `t` and no attributes. */
  lemma TextOnly(t: string)
    ensures P(t) == Blueprint("p", [], [], t)
  {
    DefineShape("p", [E], [(TEXT, Scalar(t))]);
  }

  /** The elements of a body that declares one element class. */
  lemma ElementsOfOne(name: string, a: Blueprint)
    ensures Elements([(name, Element(a))]) == [a]
  {
    assert [(name, Element(a))][1..] == [];
  }

  /** The elements of a body that declares two element classes. */
  lemma ElementsOfTwo(name: string, a: Blueprint, b: Blueprint)
    ensures Elements([(name, Element(a)), (name, Element(b))]) == [a, b]
  {
    var body := [(name, Element(a)), (name, Element(b))];
    assert body[1..] == [(name, Element(b))];
    ElementsOfOne(name, b);
  }

  /** The owned elements of a class with one base: that base's. */
  lemma OwnedOfOne(b: Blueprint)
    ensures OwnedOfBases([b]) == b.owned
  {
    assert [b][1..] == [];
  }

  /** Three `p` classes in one body are all kept, in order (test_dupe_tags_are_fine). */
  lemma DupeTags()
    ensures Define("body", [E], [("p", Element(P("foo"))), ("p", Element(P("bar"))), ("p", Element(P("baz")))]).owned
      == [P("foo"), P("bar"), P("baz")]
  {
    var body := [("p", Element(P("foo"))), ("p", Element(P("bar"))), ("p", Element(P("baz")))];
    DefineOwned("body", [E], body);
    OwnedOfOne(E);
    assert body[1..] == [("p", Element(P("bar"))), ("p", Element(P("baz")))];
    ElementsOfTwo("p", P("bar"), P("baz"));
  }

  /** Two `p` classes under `E`. */
  lemma TwoPs(name: string, a: string, b: string)
    ensures Define(name, [E], [("p", Element(P(a))), ("p", Element(P(b)))]).owned == [P(a), P(b)]
  {
    DefineOwned(name, [E], [("p", Element(P(a))), ("p", Element(P(b)))]);
    OwnedOfOne(E);
    ElementsOfTwo("p", P(a), P(b));
  }

  /** One `p` class under the given bases. */
  lemma OnePAfter(name: string, bases: seq<Blueprint>, t: string)
    ensures Define(name, bases, [("p", Element(P(t)))]).owned == OwnedOfBases(bases) + [P(t)]
  {
    DefineOwned(name, bases, [("p", Element(P(t)))]);
    ElementsOfOne("p", P(t));
  }

  /** A subclass keeps its base's elements before its own, under its own name. */
  lemma SingleInheritance()
    ensures var base := Define("body_base", [E], [("p", Element(P("foo"))), ("p", Element(P("bar")))]);
      var body := Define("body", [base], [("p", Element(P("baz")))]);
      body.tag == "body" && body.owned == [P("foo"), P("bar"), P("baz")]
  {
    var base := Define("body_base", [E], [("p", Element(P("foo"))), ("p", Element(P("bar")))]);
    TwoPs("body_base", "foo", "bar");
    OnePAfter("body", [base], "baz");
    OwnedOfOne(base);
  }

  /** Two bases contribute their elements in base order (test_multiple_inheritence_preserves_all_elements). */
  lemma MultipleInheritance()
    ensures var base1 := Define("body_base_1", [E], [("p", Element(P("foo"))), ("p", Element(P("bar")))]);
      var base2 := Define("body_base_2", [E], [("p", Element(P("baz")))]);
      Define("body", [base1, base2], [("p", Element(P("qux")))]).owned == [P("foo"), P("bar"), P("baz"), P("qux")]
  {
    var base1 := Define("body_base_1", [E], [("p", Element(P("foo"))), ("p", Element(P("bar")))]);
    var base2 := Define("body_base_2", [E], [("p", Element(P("baz")))]);
    TwoPs("body_base_1", "foo", "bar");
    OnePAfter("body_base_2", [E], "baz");
    OwnedOfOne(E);
    OnePAfter("body", [base1, base2], "qux");
    assert [base1, base2][1..] == [base2];
    OwnedOfOne(base2);
  }

  /** A chain of subclasses accumulates every ancestor's elements (test_deep_inheritence_preserves_all_elements). */
  lemma DeepInheritance()
    ensures var base1 := Define("body_base_1", [E], [("p", Element(P("foo"))), ("p", Element(P("bar")))]);
      var base2 := Define("body_base_2", [base1], [("p", Element(P("baz")))]);
      Define("body", [base2], [("p", Element(P("qux")))]).owned == [P("foo"), P("bar"), P("baz"), P("qux")]
  {
    var base1 := Define("body_base_1", [E], [("p", Element(P("foo"))), ("p", Element(P("bar")))]);
    var base2 := Define("body_base_2", [base1], [("p", Element(P("baz")))]);
    TwoPs("body_base_1", "foo", "bar");
    OnePAfter("body_base_2", [base1], "baz");
    OwnedOfOne(base1);
    OnePAfter("body", [base2], "qux");
    OwnedOfOne(base2);
  }

  /** `class p: TEXT = t` under a public name becomes the element `p` with text `t`. */
  lemma PlainText(t: string)
    ensures Converted("p", [(TEXT, Scalar(t))]) == Blueprint("p", [], [], t)
  {
    var body := [(TEXT, Scalar(t))];
    assert body[1..] == [];
    assert Put([], TEXT, Scalar(t)) == body;
    assert PutAll(body, []) == body;
    assert PlainNamespace(body) == body;
    var ns := [(TEXT, Scalar(""))] + body;
    assert ns[1..] == body;
    DefineShape("p", [], ns);
    PrivateNamesSetNoAttribute(ns);
    assert Elements(body) == [];
    assert Elements(ns) == [];
    assert LastText(body, Some("")) == Some(t);
    assert LastText(ns, None) == Some(t);
  }

  /** The body `get_body(suffix)` of test_reuse: an element `p`, then a plain `p`. */
  function ReusedBody(suffix: string): Blueprint {
    Define("body", [E], [("p", Element(P("foo"))), ("p", PlainClass([(TEXT, Scalar("bar" + suffix))]))])
  }

  /** A plain class after an element class of the same name is kept beside it, in order (test_reuse). */
  lemma Reuse(suffix: string, last: string)
    ensures Define("body", [ReusedBody(suffix)], [("p", Element(P(last)))]).owned
      == [P("foo"), Blueprint("p", [], [], "bar" + suffix), P(last)]
  {
    ReusedOwned(suffix);
    OnePAfter("body", [ReusedBody(suffix)], last);
    OwnedOfOne(ReusedBody(suffix));
  }

  lemma ReusedOwned(suffix: string)
    ensures ReusedBody(suffix).owned == [P("foo"), Blueprint("p", [], [], "bar" + suffix)]
  {
    var plainBody := [(TEXT, Scalar("bar" + suffix))];
    assert "p"[0] != '_';
    ElementThenPlainOwned("body", P("foo"), "p", plainBody);
    PlainText("bar" + suffix);
  }

  lemma ElementThenPlainOwned(name: string, a: Blueprint, child: string, plainBody: seq<Decl>)
    requires !StartsWith(child, "_")
    ensures Define(name, [E], [(child, Element(a)), (child, PlainClass(plainBody))]).owned == [a, Converted(child, plainBody)]
  {
    DefineOwned(name, [E], [(child, Element(a)), (child, PlainClass(plainBody))]);
    OwnedOfOne(E);
    ElementThenPlain(child, a, plainBody);
    assert [] + [a, Converted(child, plainBody)] == [a, Converted(child, plainBody)];
  }

  /** The elements of a body that declares an element class, then a plain class under a public name. */
  lemma ElementThenPlain(name: string, a: Blueprint, plainBody: seq<Decl>)
    requires !StartsWith(name, "_")
    ensures Elements([(name, Element(a)), (name, PlainClass(plainBody))]) == [a, Converted(name, plainBody)]
  {
    var plain := (name, PlainClass(plainBody));
    assert [plain][1..] == [];
    assert Elements([plain]) == [Converted(name, plainBody)] + [];
    assert [(name, Element(a)), plain][1..] == [plain];
  }

  // ------------------------------------------------------------ attributes

  /** A name without `_` is its own attribute name. */
  lemma NameWithoutUnderscore(name: string)
    requires '_' !in name
    ensures ToElemAttrName(name) == name
  {
    RStripNone(name, '_');
    assert ReplaceChar(name, '_', '-') == name;
  }

  /** `class_` names the attribute `class` (test_adding_attributes_through_class_constants). */
  lemma ClassUnderscore()
    ensures ToElemAttrName("class_") == "class"
  {
    assert "class_" == "class" + ['_'];
    RStripOne("class", '_');
    NameWithoutUnderscore("class");
  }

  /** An inner `_` between two parts becomes `-`. */
  lemma Dashed(a: string, b: string)
    requires '_' !in a && '_' !in b && b != ""
    ensures ToElemAttrName(a + "_" + b) == a + "-" + b
  {
    var s := a + "_" + b;
    assert s[|s| - 1] == b[|b| - 1];
    RStripNone(s, '_');
    var r := ReplaceChar(s, '_', '-');
    assert forall i | 0 <= i < |r| :: r[i] == (a + "-" + b)[i];
  }

  /** `with_dash` names `with-dash`. */
  lemma WithDash()
    ensures ToElemAttrName("with_dash") == "with-dash"
  {
    Dashed("with", "dash");
    assert "with" + "_" + "dash" == "with_dash";
    assert "with" + "-" + "dash" == "with-dash";
  }

  /** `some_attr` names `some-attr`. */
  lemma SomeAttr()
    ensures ToElemAttrName("some_attr") == "some-attr"
  {
    Dashed("some", "attr");
    assert "some" + "_" + "attr" == "some_attr";
    assert "some" + "-" + "attr" == "some-attr";
  }

  /** `TEXT_` is an attribute name, and it names the attribute `TEXT`. */
  lemma TextUnderscore()
    ensures IsElemAttribute("TEXT_") && ToElemAttrName("TEXT_") == "TEXT"
  {
    assert "TEXT_" == TEXT + ['_'];
    RStripOne(TEXT, '_');
    NameWithoutUnderscore(TEXT);
  }

  /** The attributes one public scalar assignment sets. */
  lemma AttrDeclOne(name: string, v: string)
    requires IsElemAttribute(name)
    ensures AttrDecl((name, Scalar(v))) == [(ToElemAttrName(name), v)]
  {
  }

  /** The attributes a body sets: those of its first assignment, then the rest's. */
  lemma AttrDeclsCons(d: Decl, rest: seq<Decl>)
    ensures AttrDecls([d] + rest) == AttrDecl(d) + AttrDecls(rest)
  {
    assert ([d] + rest)[1..] == rest;
  }

  /** The attributes of a class with one base: that base's, in order. */
  lemma AttrsOfOne(b: Blueprint)
    requires UniqueKeys(b.attrs)
    ensures AttrsOfBases([], [b]) == b.attrs
  {
    assert [b][1..] == [];
    PutAllNew([], b.attrs);
    assert [] + b.attrs == b.attrs;
  }

  /** A class whose body sets a single attribute. */
  lemma OneAttrClass(name: string, bases: seq<Blueprint>, attr: string, v: string)
    requires IsElemAttribute(attr)
    ensures Define(name, bases, [(attr, Scalar(v))]) == Blueprint(
      name,
      PutAll(AttrsOfBases([], bases), [(ToElemAttrName(attr), v)]),
      OwnedOfBases(bases),
      if bases == [] then "" else bases[0].text)
  {
    var body := [(attr, Scalar(v))];
    DefineShape(name, bases, body);
    assert body[1..] == [];
    assert AttrDecls(body) == AttrDecl(body[0]) + [];
    AttrDeclOne(attr, v);
    assert Elements(body) == [];
    assert LastText(body, None) == None;
  }

  /** A class with one base whose body sets a single attribute that base does not have. */
  lemma OneAttrSubclass(name: string, base: Blueprint, attr: string, v: string)
    requires IsElemAttribute(attr)
    requires UniqueKeys(base.attrs) && ToElemAttrName(attr) !in Keys(base.attrs)
    ensures Define(name, [base], [(attr, Scalar(v))])
      == Blueprint(name, base.attrs + [(ToElemAttrName(attr), v)], base.owned, base.text)
  {
    OneAttrClass(name, [base], attr, v);
    AttrsOfOne(base);
    OwnedOfOne(base);
    PutNew(base.attrs, ToElemAttrName(attr), v);
    assert PutAll(base.attrs, [(ToElemAttrName(attr), v)]) == PutAll(Put(base.attrs, ToElemAttrName(attr), v), []);
  }

  /** `class X(E): foo = 'bar'` */
  lemma ClassX()
    ensures Define("X", [E], [("foo", Scalar("bar"))]) == Blueprint("X", [("foo", "bar")], [], "")
  {
    assert "foo"[0] != '_';
    NameWithoutUnderscore("foo");
    OneAttrSubclass("X", E, "foo", "bar");
    assert [] + [("foo", "bar")] == [("foo", "bar")];
  }

  /**
   * A subclass keeps its base's attributes first and adds its own after
   * them (test_adding_attributes_with_subclass).
   */
  lemma SubclassAttributes()
    ensures var x := Define("X", [E], [("foo", Scalar("bar"))]);
      Define("Y", [x], [("baz", Scalar("qux"))]) == Blueprint("Y", [("foo", "bar"), ("baz", "qux")], [], "")
  {
    TwoLevelAttrs("X", "Y", "foo", "bar", "baz", "qux");
  }

  /** A subclass of a subclass of `E`, each setting one attribute of its own. */
  lemma TwoLevelAttrs(xn: string, yn: string, k1: string, v1: string, k2: string, v2: string)
    requires '_' !in k1 && '_' !in k2 && k1 != "" && k2 != "" && k1 != k2 && k1 != TEXT && k2 != TEXT
    ensures Define(yn, [Define(xn, [E], [(k1, Scalar(v1))])], [(k2, Scalar(v2))])
      == Blueprint(yn, [(k1, v1), (k2, v2)], [], "")
  {
    assert k1[0] in k1 && k2[0] in k2;
    NameWithoutUnderscore(k1);
    NameWithoutUnderscore(k2);
    OneAttrSubclass(xn, E, k1, v1);
    assert [] + [(k1, v1)] == [(k1, v1)];
    var x := Blueprint(xn, [(k1, v1)], [], "");
    assert Keys(x.attrs) == [k1];
    OneAttrSubclass(yn, x, k2, v2);
  }

  /** The attributes the body of `Reassignment` sets, in order. */
  lemma ReassignmentDecls()
    ensures AttrDecls([("x_", Scalar("1")), ("y", Scalar("2")), ("x", Scalar("3"))]) == [("x", "1"), ("y", "2"), ("x", "3")]
  {
    var d1, d2, d3 := ("x_", Scalar("1")), ("y", Scalar("2")), ("x", Scalar("3"));
    assert "x_" == "x" + ['_'];
    RStripOne("x", '_');
    NameWithoutUnderscore("x");
    NameWithoutUnderscore("y");
    assert "x_"[0] != '_' && "y"[0] != '_' && "x"[0] != '_';
    AttrDeclsCons(d1, [d2, d3]);
    AttrDeclsCons(d2, [d3]);
    AttrDeclsCons(d3, []);
    assert [d1, d2, d3] == [d1] + [d2, d3] && [d2, d3] == [d2] + [d3] && [d3] == [d3] + [];
  }

  /** Re-assigning an attribute keeps its first place and takes the last value. */
  lemma Reassignment()
    ensures Define("a", [E], [("x_", Scalar("1")), ("y", Scalar("2")), ("x", Scalar("3"))]).attrs == [("x", "3"), ("y", "2")]
  {
    DefineAttrs("a", [E], [("x_", Scalar("1")), ("y", Scalar("2")), ("x", Scalar("3"))]);
    AttrsOfOne(E);
    ReassignmentDecls();
    ReassignKeepsFirst("x", "y", "1", "2", "3");
  }

  /** `d[x] = v1; d[y] = v2; d[x] = v3` leaves `x` first, with `v3`. */
  lemma ReassignKeepsFirst<V>(x: string, y: string, v1: V, v2: V, v3: V)
    requires x != y
    ensures PutAll([], [(x, v1), (y, v2), (x, v3)]) == [(x, v3), (y, v2)]
  {
    var ps := [(x, v1), (y, v2), (x, v3)];
    assert ps[1..] == [(y, v2), (x, v3)];
    assert [(y, v2), (x, v3)][1..] == [(x, v3)];
    assert Put([], x, v1) == [(x, v1)];
    assert Put([(x, v1)], y, v2) == [(x, v1)] + [(y, v2)] == [(x, v1), (y, v2)];
    assert Put([(x, v1), (y, v2)], x, v3) == [(x, v3)] + [(y, v2)] == [(x, v3), (y, v2)];
    assert PutAll([], ps) == PutAll([(x, v1)], [(y, v2), (x, v3)]);
    assert PutAll([(x, v1)], [(y, v2), (x, v3)]) == PutAll([(x, v1), (y, v2)], [(x, v3)]);
    assert PutAll([(x, v1), (y, v2)], [(x, v3)]) == PutAll([(x, v3), (y, v2)], []);
  }

  /** `TEXT_ = t` sets the attribute `TEXT` and leaves the element's text alone. */
  lemma TextAttribute()
    ensures Define("a", [E], [("TEXT_", Scalar("t"))]) == Blueprint("a", [("TEXT", "t")], [], "")
  {
    TextUnderscore();
    OneAttrSubclass("a", E, "TEXT_", "t");
    assert [] + [("TEXT", "t")] == [("TEXT", "t")];
  }

  /** A body of scalar assignments declares no element class. */
  lemma {:induction false} ScalarsDeclareNoElements(body: seq<Decl>)
    requires forall i | 0 <= i < |body| :: body[i].1.Scalar?
    ensures Elements(body) == []
  {
    if body != [] {
      ScalarsDeclareNoElements(body[1..]);
    }
  }

  /** `TEXT = t` sets no attribute. */
  lemma TextDeclNoAttr(t: string)
    ensures AttrDecl((TEXT, Scalar(t))) == []
  {
  }

  /** The attributes three public scalar assignments set, in order. */
  lemma ThreeAttrDecls(a1: string, v1: string, a2: string, v2: string, a3: string, v3: string)
    requires IsElemAttribute(a1) && IsElemAttribute(a2) && IsElemAttribute(a3)
    ensures AttrDecls([(a1, Scalar(v1)), (a2, Scalar(v2)), (a3, Scalar(v3))])
      == [(ToElemAttrName(a1), v1), (ToElemAttrName(a2), v2), (ToElemAttrName(a3), v3)]
  {
    var d1, d2, d3 := (a1, Scalar(v1)), (a2, Scalar(v2)), (a3, Scalar(v3));
    assert [d1, d2, d3] == [d1] + [d2, d3] && [d2, d3] == [d2] + [d3] && [d3] == [d3] + [];
    AttrDeclsCons(d1, [d2, d3]);
    AttrDeclsCons(d2, [d3]);
    AttrDeclsCons(d3, []);
    AttrDeclOne(a1, v1);
    AttrDeclOne(a2, v2);
    AttrDeclOne(a3, v3);
  }

  /** A blueprint is its four fields. */
  lemma Fields(b: Blueprint, tag: string, attrs: seq<(string, string)>, owned: seq<Blueprint>, text: string)
    requires b.tag == tag && b.attrs == attrs && b.owned == owned && b.text == text
    ensures b == Blueprint(tag, attrs, owned, text)
  {
  }

  /** After a body whose names are all other than `TEXT`, the text is still `t`. */
  lemma {:induction false} LastTextKeeps(body: seq<Decl>, t: Option<string>)
    requires forall i | 0 <= i < |body| :: body[i].0 != TEXT
    ensures LastText(body, t) == t
    decreases |body|
  {
    if body != [] {
      LastTextKeeps(body[1..], t);
    }
  }

  /** An element class whose body sets its text and then three attributes with distinct names. */
  lemma TextAndThreeAttrs(name: string, t: string, a1: string, v1: string, a2: string, v2: string, a3: string, v3: string)
    requires IsElemAttribute(a1) && IsElemAttribute(a2) && IsElemAttribute(a3)
    requires UniqueKeys([(ToElemAttrName(a1), v1), (ToElemAttrName(a2), v2), (ToElemAttrName(a3), v3)])
    ensures Define(name, [E], [(TEXT, Scalar(t)), (a1, Scalar(v1)), (a2, Scalar(v2)), (a3, Scalar(v3))])
      == Blueprint(name, [(ToElemAttrName(a1), v1), (ToElemAttrName(a2), v2), (ToElemAttrName(a3), v3)], [], t)
  {
    var tail := [(a1, Scalar(v1)), (a2, Scalar(v2)), (a3, Scalar(v3))];
    ThreeAttrsAttrs(name, t, a1, v1, a2, v2, a3, v3);
    ThreeScalarsRest(name, t, a1, v1, a2, v2, a3, v3);
    Fields(Define(name, [E], [(TEXT, Scalar(t))] + tail), name,
      [(ToElemAttrName(a1), v1), (ToElemAttrName(a2), v2), (ToElemAttrName(a3), v3)], [], t);
  }

  lemma ThreeAttrsAttrs(name: string, t: string, a1: string, v1: string, a2: string, v2: string, a3: string, v3: string)
    requires IsElemAttribute(a1) && IsElemAttribute(a2) && IsElemAttribute(a3)
    requires UniqueKeys([(ToElemAttrName(a1), v1), (ToElemAttrName(a2), v2), (ToElemAttrName(a3), v3)])
    ensures Define(name, [E], [(TEXT, Scalar(t))] + [(a1, Scalar(v1)), (a2, Scalar(v2)), (a3, Scalar(v3))]).attrs
      == [(ToElemAttrName(a1), v1), (ToElemAttrName(a2), v2), (ToElemAttrName(a3), v3)]
  {
    var pairs := [(ToElemAttrName(a1), v1), (ToElemAttrName(a2), v2), (ToElemAttrName(a3), v3)];
    AttrsOfOne(E);
    TextThenAttrsAttrs(name, [E], t, [(a1, Scalar(v1)), (a2, Scalar(v2)), (a3, Scalar(v3))]);
    ThreeAttrDecls(a1, v1, a2, v2, a3, v3);
    PutAllNew([], pairs);
    assert [] + pairs == pairs;
  }

  lemma ThreeScalarsRest(name: string, t: string, a1: string, v1: string, a2: string, v2: string, a3: string, v3: string)
    requires a1 != TEXT && a2 != TEXT && a3 != TEXT
    ensures var b := Define(name, [E], [(TEXT, Scalar(t))] + [(a1, Scalar(v1)), (a2, Scalar(v2)), (a3, Scalar(v3))]);
      b.owned == [] && b.text == t
  {
    var tail := [(a1, Scalar(v1)), (a2, Scalar(v2)), (a3, Scalar(v3))];
    assert forall i | 0 <= i < |tail| :: tail[i].1.Scalar? && tail[i].0 != TEXT;
    OwnedOfOne(E);
    TextThenScalarsOwned(name, [E], t, tail);
    TextThenAttrsText(name, [E], t, tail);
  }

  /** Assigning `TEXT` first: the body's text is then `t` until the next `TEXT`. */
  lemma LastTextCons(t: string, rest: seq<Decl>, u: Option<string>)
    ensures LastText([(TEXT, Scalar(t))] + rest, u) == LastText(rest, Some(t))
  {
    assert ([(TEXT, Scalar(t))] + rest)[1..] == rest;
  }

  lemma TextThenAttrsAttrs(name: string, bases: seq<Blueprint>, t: string, tail: seq<Decl>)
    requires AttrsOfBases([], bases) == []
    ensures Define(name, bases, [(TEXT, Scalar(t))] + tail).attrs == PutAll([], AttrDecls(tail))
  {
    DefineAttrs(name, bases, [(TEXT, Scalar(t))] + tail);
    AttrDeclsCons((TEXT, Scalar(t)), tail);
    TextDeclNoAttr(t);
    assert [] + AttrDecls(tail) == AttrDecls(tail);
  }

  lemma TextThenScalarsOwned(name: string, bases: seq<Blueprint>, t: string, tail: seq<Decl>)
    requires OwnedOfBases(bases) == []
    requires forall i | 0 <= i < |tail| :: tail[i].1.Scalar?
    ensures Define(name, bases, [(TEXT, Scalar(t))] + tail).owned == []
  {
    var body := [(TEXT, Scalar(t))] + tail;
    DefineOwned(name, bases, body);
    ScalarsDeclareNoElements(body);
  }

  lemma TextThenAttrsText(name: string, bases: seq<Blueprint>, t: string, tail: seq<Decl>)
    requires forall i | 0 <= i < |tail| :: tail[i].0 != TEXT
    ensures Define(name, bases, [(TEXT, Scalar(t))] + tail).text == t
  {
    DefineText(name, bases, [(TEXT, Scalar(t))] + tail);
    LastTextCons(t, tail, None);
    LastTextKeeps(tail, Some(t));
  }

  /** Three distinct keys make a dictionary. */
  lemma UniqueThree(k1: string, v1: string, k2: string, v2: string, k3: string, v3: string)
    requires k1 != k2 && k1 != k3 && k2 != k3
    ensures UniqueKeys([(k1, v1), (k2, v2), (k3, v3)])
  {
  }

  /**
   * Class constants other than `TEXT` become attributes, in order, with
   * `class_` and `with_dash` written `class` and `with-dash`
   * (test_adding_attributes_through_class_constants).
   */
  lemma AttributesThroughConstants()
    ensures Define("p", [E], [(TEXT, Scalar("Hello")), ("attr1", Scalar("Hmm")), ("class_", Scalar("Hi")), ("with_dash", Scalar("H_i"))])
      == Blueprint("p", [("attr1", "Hmm"), ("class", "Hi"), ("with-dash", "H_i")], [], "Hello")
  {
    assert "attr1"[0] != '_' && "class_"[0] != '_' && "with_dash"[0] != '_';
    NameWithoutUnderscore("attr1");
    ClassUnderscore();
    WithDash();
    assert "attr1"[0] != "class"[0] && "attr1"[0] != "with-dash"[0] && "class"[0] != "with-dash"[0];
    UniqueThree("attr1", "Hmm", "class", "Hi", "with-dash", "H_i");
    TextAndThreeAttrs("p", "Hello", "attr1", "Hmm", "class_", "Hi", "with_dash", "H_i");
  }

  // ------------------------------------------------------ plain classes

  /** A plain class whose names are distinct: its namespace is its body, after `TEXT = ''`. */
  lemma ConvertedDistinct(name: string, body: seq<Decl>)
    requires UniqueKeys(body)
    ensures Converted(name, body) == Define(name, [], [(TEXT, Scalar(""))] + body)
  {
    PutAllNew([], body);
    assert [] + body == body;
  }

  /** A plain class that sets its text and one attribute. */
  lemma ConvertedTextAndAttr(name: string, t: string, a: string, v: string)
    requires IsElemAttribute(a)
    ensures Converted(name, [(TEXT, Scalar(t)), (a, Scalar(v))]) == Blueprint(name, [(ToElemAttrName(a), v)], [], t)
  {
    var body := [(TEXT, Scalar(t)), (a, Scalar(v))];
    ConvertedDistinct(name, body);
    TextAttrAttrs(name, t, a, v);
    TextAttrRest(name, t, a, v);
    Fields(Define(name, [], [(TEXT, Scalar(""))] + body), name, [(ToElemAttrName(a), v)], [], t);
  }

  lemma TextAttrAttrs(name: string, t: string, a: string, v: string)
    requires IsElemAttribute(a)
    ensures Define(name, [], [(TEXT, Scalar(""))] + [(TEXT, Scalar(t)), (a, Scalar(v))]).attrs == [(ToElemAttrName(a), v)]
  {
    var rest := [(a, Scalar(v))];
    var body := [(TEXT, Scalar(t))] + rest;
    assert body == [(TEXT, Scalar(t)), (a, Scalar(v))];
    TextThenAttrsAttrs(name, [], "", body);
    AttrDeclsCons((TEXT, Scalar(t)), rest);
    TextDeclNoAttr(t);
    assert rest == [(a, Scalar(v))] + [];
    AttrDeclsCons((a, Scalar(v)), []);
    AttrDeclOne(a, v);
    var pairs := [(ToElemAttrName(a), v)];
    assert AttrDecls(rest) == pairs + [] == pairs;
    assert AttrDecls(body) == [] + pairs == pairs;
    PutAllNew([], pairs);
    assert [] + pairs == pairs;
  }

  lemma TextAttrRest(name: string, t: string, a: string, v: string)
    requires a != TEXT
    ensures var b := Define(name, [], [(TEXT, Scalar(""))] + [(TEXT, Scalar(t)), (a, Scalar(v))]);
      b.owned == [] && b.text == t
  {
    var rest := [(a, Scalar(v))];
    var body := [(TEXT, Scalar(t))] + rest;
    var ns := [(TEXT, Scalar(""))] + body;
    assert body == [(TEXT, Scalar(t)), (a, Scalar(v))];
    TextThenScalarsOwned(name, [], "", body);
    DefineText(name, [], ns);
    LastTextCons("", body, None);
    LastTextCons(t, rest, Some(""));
    LastTextKeeps(rest, Some(t));
  }

  /** A plain class that holds only another plain class under a public name. */
  lemma ConvertedWrapper(name: string, child: string, inner: seq<Decl>)
    requires !StartsWith(child, "_") && child != TEXT
    ensures Converted(name, [(child, PlainClass(inner))]) == Blueprint(name, [], [Converted(child, inner)], "")
  {
    var d := (child, PlainClass(inner));
    ConvertedDistinct(name, [d]);
    var ns := [(TEXT, Scalar(""))] + [d];
    var b := Define(name, [], ns);
    TextThenAttrsAttrs(name, [], "", [d]);
    assert [d][1..] == [];
    assert AttrDecls([d]) == [] + [];
    DefineOwned(name, [], ns);
    assert Elements([d]) == [Converted(child, inner)] + [];
    assert Elements(ns) == [] + Elements([d]);
    TextThenAttrsText(name, [], "", [d]);
    Fields(b, name, [], [Converted(child, inner)], "");
  }

  /** An element class that holds only a plain class under a public name. */
  lemma DefineWrapper(name: string, child: string, inner: seq<Decl>)
    requires !StartsWith(child, "_") && child != TEXT
    ensures Define(name, [E], [(child, PlainClass(inner))]) == Blueprint(name, [], [Converted(child, inner)], "")
  {
    WrapperAttrs(name, child, inner);
    WrapperOwned(name, child, inner);
    WrapperText(name, child, inner);
    Fields(Define(name, [E], [(child, PlainClass(inner))]), name, [], [Converted(child, inner)], "");
  }

  lemma WrapperAttrs(name: string, child: string, inner: seq<Decl>)
    requires !StartsWith(child, "_") && child != TEXT
    ensures Define(name, [E], [(child, PlainClass(inner))]).attrs == []
  {
    var d := (child, PlainClass(inner));
    DefineAttrs(name, [E], [d]);
    AttrsOfOne(E);
    assert [d][1..] == [];
    assert AttrDecls([d]) == [] + [];
  }

  lemma WrapperOwned(name: string, child: string, inner: seq<Decl>)
    requires !StartsWith(child, "_") && child != TEXT
    ensures Define(name, [E], [(child, PlainClass(inner))]).owned == [Converted(child, inner)]
  {
    var d := (child, PlainClass(inner));
    DefineOwned(name, [E], [d]);
    OwnedOfOne(E);
    assert [d][1..] == [];
    assert Elements([d]) == [Converted(child, inner)] + [];
    assert [] + [Converted(child, inner)] == [Converted(child, inner)];
  }

  lemma WrapperText(name: string, child: string, inner: seq<Decl>)
    requires child != TEXT
    ensures Define(name, [E], [(child, PlainClass(inner))]).text == ""
  {
    var d := (child, PlainClass(inner));
    DefineText(name, [E], [d]);
    assert [d][1..] == [];
    assert LastText([d], None) == None;
  }

  /**
   * Plain classes nested in an element class are converted at every
   * depth: `foo` owns `bar`, which owns `baz` (test_no_need_to_subclass).
   */
  lemma NoNeedToSubclass()
    ensures Define("foo", [E], [("bar", PlainClass([("baz", PlainClass([(TEXT, Scalar("qux")), ("quux", Scalar("quz"))]))]))])
      == Blueprint("foo", [], [Blueprint("bar", [], [Blueprint("baz", [("quux", "quz")], [], "qux")], "")], "")
  {
    var bazBody := [(TEXT, Scalar("qux")), ("quux", Scalar("quz"))];
    assert "quux"[0] != '_' && "baz"[0] != '_' && "bar"[0] != '_';
    NameWithoutUnderscore("quux");
    ConvertedTextAndAttr("baz", "qux", "quux", "quz");
    ConvertedWrapper("bar", "baz", bazBody);
    DefineWrapper("foo", "bar", [("baz", PlainClass(bazBody))]);
  }

  // ------------------------------------------------- the README example

  /** A plain class that sets two attributes with distinct names. */
  lemma ConvertedTwoAttrs(name: string, a1: string, v1: string, a2: string, v2: string)
    requires IsElemAttribute(a1) && IsElemAttribute(a2) && ToElemAttrName(a1) != ToElemAttrName(a2)
    requires a1 != a2
    ensures Converted(name, [(a1, Scalar(v1)), (a2, Scalar(v2))])
      == Blueprint(name, [(ToElemAttrName(a1), v1), (ToElemAttrName(a2), v2)], [], "")
  {
    var body := [(a1, Scalar(v1)), (a2, Scalar(v2))];
    UniqueTwo(a1, Scalar(v1), a2, Scalar(v2));
    ConvertedDistinct(name, body);
    TwoAttrsAttrs(name, a1, v1, a2, v2);
    TwoScalarsRest(name, a1, v1, a2, v2);
    Fields(Define(name, [], [(TEXT, Scalar(""))] + body), name, [(ToElemAttrName(a1), v1), (ToElemAttrName(a2), v2)], [], "");
  }

  lemma TwoAttrsAttrs(name: string, a1: string, v1: string, a2: string, v2: string)
    requires IsElemAttribute(a1) && IsElemAttribute(a2) && ToElemAttrName(a1) != ToElemAttrName(a2)
    ensures Define(name, [], [(TEXT, Scalar(""))] + [(a1, Scalar(v1)), (a2, Scalar(v2))]).attrs
      == [(ToElemAttrName(a1), v1), (ToElemAttrName(a2), v2)]
  {
    var pairs := [(ToElemAttrName(a1), v1), (ToElemAttrName(a2), v2)];
    TextThenAttrsAttrs(name, [], "", [(a1, Scalar(v1)), (a2, Scalar(v2))]);
    TwoAttrDecls(a1, v1, a2, v2);
    UniqueTwo(ToElemAttrName(a1), v1, ToElemAttrName(a2), v2);
    PutAllNew([], pairs);
    assert [] + pairs == pairs;
  }

  lemma TwoScalarsRest(name: string, a1: string, v1: string, a2: string, v2: string)
    requires a1 != TEXT && a2 != TEXT
    ensures var b := Define(name, [], [(TEXT, Scalar(""))] + [(a1, Scalar(v1)), (a2, Scalar(v2))]);
      b.owned == [] && b.text == ""
  {
    var body := [(a1, Scalar(v1)), (a2, Scalar(v2))];
    assert forall i | 0 <= i < |body| :: body[i].1.Scalar? && body[i].0 != TEXT;
    TextThenScalarsOwned(name, [], "", body);
    TextThenAttrsText(name, [], "", body);
  }

  lemma UniqueTwo<V>(k1: string, v1: V, k2: string, v2: V)
    requires k1 != k2
    ensures UniqueKeys([(k1, v1), (k2, v2)])
  {
  }

  /** Two attribute declarations, in order. */
  lemma TwoAttrDecls(a1: string, v1: string, a2: string, v2: string)
    requires IsElemAttribute(a1) && IsElemAttribute(a2)
    ensures AttrDecls([(a1, Scalar(v1)), (a2, Scalar(v2))]) == [(ToElemAttrName(a1), v1), (ToElemAttrName(a2), v2)]
  {
    var d1, d2 := (a1, Scalar(v1)), (a2, Scalar(v2));
    assert [d1, d2] == [d1] + [d2] && [d2] == [d2] + [];
    AttrDeclsCons(d1, [d2]);
    AttrDeclsCons(d2, []);
    AttrDeclOne(a1, v1);
    AttrDeclOne(a2, v2);
  }

  /** The elements of a body that declares two plain classes under one public name. */
  lemma TwoPlain(name: string, child: string, b1: seq<Decl>, b2: seq<Decl>)
    requires !StartsWith(child, "_")
    ensures Define(name, [E], [(child, PlainClass(b1)), (child, PlainClass(b2))]).owned
      == [Converted(child, b1), Converted(child, b2)]
  {
    var d1, d2 := (child, PlainClass(b1)), (child, PlainClass(b2));
    DefineOwned(name, [E], [d1, d2]);
    OwnedOfOne(E);
    assert [d2][1..] == [];
    assert Elements([d2]) == [Converted(child, b2)] + [];
    assert [d1, d2][1..] == [d2];
  }

  /** `meta` with the attributes `name` and `content`. */
  function MetaElement(name: string, content: string): Blueprint {
    Blueprint("meta", [("name", name), ("content", content)], [], "")
  }

  /** A plain `meta` class with the attributes `name` and `content`. */
  lemma MetaConverted(name: string, content: string)
    ensures Converted("meta", [("name", Scalar(name)), ("content", Scalar(content))]) == MetaElement(name, content)
  {
    assert "name"[0] != '_' && "content"[0] != '_';
    NameWithoutUnderscore("name");
    NameWithoutUnderscore("content");
    assert "name"[0] != "content"[0];
    ConvertedTwoAttrs("meta", "name", name, "content", content);
  }

  /**
   * The `head` of the README example: two plain `meta` classes under the
   * same name are both converted and both kept, in order.
   */
  lemma ExampleHead()
    ensures Define("head", [E], [
        ("meta", PlainClass([("name", Scalar("description")), ("content", Scalar("Framework usage examples"))])),
        ("meta", PlainClass([("name", Scalar("keywords")), ("content", Scalar("Python, HTML"))]))]).owned
      == [MetaElement("description", "Framework usage examples"), MetaElement("keywords", "Python, HTML")]
  {
    assert "meta"[0] != '_';
    MetaConverted("description", "Framework usage examples");
    MetaConverted("keywords", "Python, HTML");
    TwoPlain("head", "meta",
      [("name", Scalar("description")), ("content", Scalar("Framework usage examples"))],
      [("name", Scalar("keywords")), ("content", Scalar("Python, HTML"))]);
  }

  /** A plain class holding only `TEXT = t`, bound under a public name. */
  lemma ConvertedTextOnly(name: string, t: string)
    ensures Converted(name, [(TEXT, Scalar(t))]) == Blueprint(name, [], [], t)
  {
    var body := [(TEXT, Scalar(t))];
    ConvertedDistinct(name, body);
    var b := Define(name, [], [(TEXT, Scalar(""))] + body);
    TextThenAttrsAttrs(name, [], "", body);
    assert body == [(TEXT, Scalar(t))] + [];
    AttrDeclsCons((TEXT, Scalar(t)), []);
    TextDeclNoAttr(t);
    TextThenScalarsOwned(name, [], "", body);
    DefineText(name, [], [(TEXT, Scalar(""))] + body);
    LastTextCons("", body, None);
    LastTextCons(t, [], Some(""));
    Fields(b, name, [], [], t);
  }

  /**
   * The `html` of the README example: the element class `head`, then the
   * plain `body` holding the plain `p`, both converted.
   */
  lemma ExampleHtml(head: Blueprint)
    ensures Define("html", [E], [("head", Element(head)), ("body", PlainClass([("p", PlainClass([(TEXT, Scalar("Hello, world!"))]))]))]).owned
      == [head, Blueprint("body", [], [Blueprint("p", [], [], "Hello, world!")], "")]
  {
    var pBody := [(TEXT, Scalar("Hello, world!"))];
    assert "body"[0] != '_' && "p"[0] != '_';
    ConvertedTextOnly("p", "Hello, world!");
    ConvertedWrapper("body", "p", pBody);
    DefineOwned("html", [E], [("head", Element(head)), ("body", PlainClass([("p", PlainClass(pBody))]))]);
    OwnedOfOne(E);
    ElementThenPlainNamed("head", head, "body", [("p", PlainClass(pBody))]);
  }

  /** The elements of a body that declares an element class, then a plain class under another public name. */
  lemma ElementThenPlainNamed(name: string, a: Blueprint, child: string, plainBody: seq<Decl>)
    requires !StartsWith(child, "_")
    ensures Elements([(name, Element(a)), (child, PlainClass(plainBody))]) == [a, Converted(child, plainBody)]
  {
    var plain := (child, PlainClass(plainBody));
    assert [plain][1..] == [];
    assert Elements([plain]) == [Converted(child, plainBody)] + [];
    assert [(name, Element(a)), plain][1..] == [plain];
  }
}
