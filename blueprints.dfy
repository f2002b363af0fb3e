/**
 * How htmlclasses turns a class statement into an element blueprint.
 *
 * A class body is an ordered sequence of assignments `name = value`.  The
 * metaclass collects it into a special dictionary whose `__setitem__` sorts
 * each assignment: an element class is appended to the owned elements (so
 * same-named siblings are all kept), a plain nested class is first turned
 * into an element class named after its binding, a public name other than
 * `TEXT` becomes an attribute, and anything else goes to the ordinary class
 * namespace.  `__prepare__` seeds that dictionary from the base classes.
 */
module Blueprints {
  import opened Strings
  import opened OrderedMap

  /** The class attribute that holds an element's text. */
  const TEXT: string := "TEXT"

  /**
   * An element class: its tag (the class name), its attributes in insertion
   * order, its owned element classes in declaration order, and its `TEXT`.
   */
  datatype Blueprint = Blueprint(tag: string, attrs: seq<(string, string)>, owned: seq<Blueprint>, text: string)

  /** The value a class body binds a name to. */
  datatype Value =
    | Element(bp: Blueprint)          // a subclass of `E`
    | PlainClass(body: seq<Decl>)     // a nested `class foo:` that does not subclass `E`
    | Scalar(s: string)               // any other value, by its `str()`

  /** One assignment of a class body, in execution order. */
  type Decl = (string, Value)

  /** The contents of the collecting dictionary. */
  datatype Collected = Collected(owned: seq<Blueprint>, attrs: seq<(string, string)>, namespace: seq<(string, Value)>)

  /** The root element class `E`: tag `E`, nothing owned, no attributes, empty `TEXT`. */
  const E: Blueprint := Blueprint("E", [], [], "")

  // ---------------------------------------------------------------- names

  /** `_is_elem_attribute`: public names other than `TEXT` become attributes. */
  predicate IsElemAttribute(name: string) {
    !StartsWith(name, "_") && name != TEXT
  }

  /**
   * `_to_elem_attr_name`: trailing underscores are dropped and every other
   * underscore becomes a hyphen, so `class_` names `class` and `with_dash`
   * names `with-dash`.
   */
  function ToElemAttrName(name: string): (r: string)
    ensures |r| <= |name|
    ensures forall i | 0 <= i < |r| :: r[i] == if name[i] == '_' then '-' else name[i]
    ensures forall i | |r| <= i < |name| :: name[i] == '_'
    ensures r == [] || name[|r| - 1] != '_'
    ensures '_' !in r
  {
    ReplaceChar(RStrip(name, '_'), '_', '-')
  }

  /** An attribute name is its own attribute name: the transformation is idempotent. */
  lemma AttrNameIdempotent(name: string)
    ensures ToElemAttrName(ToElemAttrName(name)) == ToElemAttrName(name)
  {
    var r := ToElemAttrName(name);
    RStripNone(r, '_');
    assert ReplaceChar(r, '_', '-') == r;
  }

  /** `_can_be_converted_to_element_class`: a plain class bound under a public name. */
  predicate CanBeConvertedToElementClass(name: string, value: Value) {
    value.PlainClass? && !StartsWith(name, "_")
  }

  // ------------------------------------------------- a measure for recursion

  function Max(a: nat, b: nat): nat {
    if a < b then b else a
  }

  /** How deeply plain classes nest inside a class body. */
  function Depth(body: seq<Decl>): nat {
    DepthFrom(body, 0)
  }

  /** The nesting depth of the declarations `body[i..]`. */
  function DepthFrom(body: seq<Decl>, i: nat): nat
    requires i <= |body|
    decreases PlainClass(body), |body| - i
  {
    if i == |body| then 0
    else
      Max(match body[i].1 case PlainClass(b) => 1 + DepthFrom(b, 0) case _ => 0,
          DepthFrom(body, i + 1))
  }

  function ValueDepth(v: Value): nat {
    match v
    case PlainClass(b) => 1 + Depth(b)
    case _ => 0
  }

  lemma {:induction false} DepthFromBound(body: seq<Decl>, i: nat, j: nat)
    requires i <= j < |body|
    ensures ValueDepth(body[j].1) <= DepthFrom(body, i)
    decreases j - i
  {
    if i < j {
      DepthFromBound(body, i + 1, j);
    }
  }

  lemma {:induction false} DepthFromLeast(body: seq<Decl>, i: nat, n: nat)
    requires i <= |body|
    requires forall j | i <= j < |body| :: ValueDepth(body[j].1) <= n
    ensures DepthFrom(body, i) <= n
    decreases |body| - i
  {
    if i < |body| {
      DepthFromLeast(body, i + 1, n);
    }
  }

  /** No declaration is nested deeper than its body. */
  lemma DepthBound(body: seq<Decl>, i: nat)
    requires i < |body|
    ensures ValueDepth(body[i].1) <= Depth(body)
  {
    DepthFromBound(body, 0, i);
  }

  /** A body is nested no deeper than `n` when none of its declarations is. */
  lemma DepthLeast(body: seq<Decl>, n: nat)
    requires forall p | p in body :: ValueDepth(p.1) <= n
    ensures Depth(body) <= n
  {
    forall j | 0 <= j < |body| ensures ValueDepth(body[j].1) <= n {
      assert body[j] in body;
    }
    DepthFromLeast(body, 0, n);
  }

  /** A body nests at least as deeply as every body whose declarations it holds. */
  lemma DepthSubset(small: seq<Decl>, big: seq<Decl>)
    requires forall p | p in small :: p in big
    ensures Depth(small) <= Depth(big)
  {
    forall p | p in small ensures ValueDepth(p.1) <= Depth(big) {
      var j :| 0 <= j < |big| && big[j] == p;
      DepthBound(big, j);
    }
    DepthLeast(small, Depth(big));
  }

  // ------------------------------------------------ collecting a class body

  /**
   * The dictionary after `DictForCollectingElements.__setitem__(name, value)`.
   * A converted plain class is stored back under its name, which lands in the
   * first branch.
   */
  function Assigned(st: Collected, d: Decl): Collected
    decreases ValueDepth(d.1), 1, 0
  {
    var (name, value) := d;
    if value.Element? then
      st.(owned := st.owned + [value.bp])
    else if CanBeConvertedToElementClass(name, value) then
      Assigned(st, (name, Element(Converted(name, value.body))))
    else if IsElemAttribute(name) then
      st.(attrs := Put(st.attrs, ToElemAttrName(name), value.s))
    else
      st.(namespace := Put(st.namespace, name, value))
  }

  /** The dictionary after executing a class body, one assignment at a time. */
  function Collect(st: Collected, body: seq<Decl>): Collected
    decreases Depth(body), 2, |body|
  {
    if body == [] then st
    else
      DepthBound(body, 0);
      DepthSubset(body[1..], body);
      Collect(Assigned(st, body[0]), body[1..])
  }

  /** The owned element classes of every base, base after base, in base order. */
  function OwnedOfBases(bases: seq<Blueprint>): seq<Blueprint> {
    if bases == [] then [] else bases[0].owned + OwnedOfBases(bases[1..])
  }

  /**
   * The attributes of every base merged into `m`, base after base: a later
   * base's value replaces an earlier one, and a key keeps its first position.
   */
  function AttrsOfBases(m: seq<(string, string)>, bases: seq<Blueprint>): seq<(string, string)>
    decreases bases
  {
    if bases == [] then m else AttrsOfBases(PutAll(m, bases[0].attrs), bases[1..])
  }

  /** `Meta.__prepare__`: the dictionary a class body starts from. */
  function Prepared(bases: seq<Blueprint>): Collected {
    Collected(OwnedOfBases(bases), AttrsOfBases([], bases), [])
  }

  /**
   * The class's `TEXT`: its own if the body assigned one, otherwise that of
   * its first base.
   */
  function ResolvedText(namespace: seq<(string, Value)>, bases: seq<Blueprint>): string {
    var own := Get(namespace, TEXT);
    if own.Some? && own.value.Scalar? then own.value.s
    else if bases == [] then ""
    else bases[0].text
  }

  /** The element class that `class name(*bases): body` creates under `Meta`. */
  function Define(name: string, bases: seq<Blueprint>, body: seq<Decl>): Blueprint
    decreases Depth(body), 3, 0
  {
    var st := Collect(Prepared(bases), body);
    Blueprint(name, st.attrs, st.owned, ResolvedText(st.namespace, bases))
  }

  /**
   * A plain class's `__dict__`: Python keeps one entry per name, at the
   * place of its first assignment, holding its last value.
   */
  function PlainNamespace(body: seq<Decl>): seq<Decl> {
    PutAll([], body)
  }

  /**
   * `_create_element_class`: a new element class with no element bases whose
   * namespace gets `TEXT = ''` and then every entry of the plain class.
   */
  function Converted(name: string, body: seq<Decl>): Blueprint
    decreases 1 + Depth(body), 0, 0
  {
    var ns := [(TEXT, Scalar(""))] + PlainNamespace(body);
    PutAllMembers([], body);
    DepthSubset(PlainNamespace(body), body);
    ConvertedDepth(ns, PlainNamespace(body));
    Define(name, [], ns)
  }

  lemma ConvertedDepth(ns: seq<Decl>, plain: seq<Decl>)
    requires ns == [(TEXT, Scalar(""))] + plain
    ensures Depth(ns) <= Depth(plain)
  {
    forall p | p in ns ensures ValueDepth(p.1) <= Depth(plain) {
      if p in plain {
        DepthSubset([p], plain);
        DepthBound([p], 0);
      }
    }
    DepthLeast(ns, Depth(plain));
  }

  // ------------------------------------------------ what a definition holds

  /** The element classes one assignment adds to the owned elements. */
  function Contribution(d: Decl): seq<Blueprint> {
    if d.1.Element? then [d.1.bp]
    else if CanBeConvertedToElementClass(d.0, d.1) then [Converted(d.0, d.1.body)]
    else []
  }

  /** Every element class a body declares, converted plain classes included, in order. */
  function Elements(body: seq<Decl>): (r: seq<Blueprint>) {
    if body == [] then [] else Contribution(body[0]) + Elements(body[1..])
  }

  /** The attribute one assignment sets, if it sets one. */
  function AttrDecl(d: Decl): seq<(string, string)> {
    if !d.1.Element? && !CanBeConvertedToElementClass(d.0, d.1) && IsElemAttribute(d.0) then
      [(ToElemAttrName(d.0), d.1.s)]
    else []
  }

  /** Every attribute assignment of a body, under its attribute name, in order. */
  function AttrDecls(body: seq<Decl>): seq<(string, string)> {
    if body == [] then [] else AttrDecl(body[0]) + AttrDecls(body[1..])
  }

  lemma {:induction false} CollectOwned(st: Collected, body: seq<Decl>)
    ensures Collect(st, body).owned == st.owned + Elements(body)
    decreases |body|
  {
    if body != [] {
      CollectOwned(Assigned(st, body[0]), body[1..]);
      AssignedOwned(st, body[0]);
      AppendAssoc(st.owned, Contribution(body[0]), Elements(body[1..]));
    }
  }

  lemma AssignedOwned(st: Collected, d: Decl)
    ensures Assigned(st, d).owned == st.owned + Contribution(d)
  {
  }

  lemma AssignedAttrs(st: Collected, d: Decl)
    ensures Assigned(st, d).attrs == PutAll(st.attrs, AttrDecl(d))
  {
    if AttrDecl(d) != [] {
      assert AttrDecl(d)[1..] == [];
    }
  }

  lemma {:induction false} CollectAttrs(st: Collected, body: seq<Decl>)
    ensures Collect(st, body).attrs == PutAll(st.attrs, AttrDecls(body))
    decreases |body|
  {
    if body != [] {
      var d := body[0];
      CollectAttrs(Assigned(st, d), body[1..]);
      AssignedAttrs(st, d);
      PutAllAppend(st.attrs, AttrDecl(d), AttrDecls(body[1..]));
    }
  }

  /**
   * A class owns every element class of its bases, in base order, followed
   * by every element class its body declares, duplicates kept.
   */
  lemma DefineOwned(name: string, bases: seq<Blueprint>, body: seq<Decl>)
    ensures Define(name, bases, body).owned == OwnedOfBases(bases) + Elements(body)
  {
    CollectOwned(Prepared(bases), body);
  }

  /**
   * A class's attributes are its bases' attributes merged from left to
   * right, then overridden and extended by its body's attribute assignments.
   */
  lemma DefineAttrs(name: string, bases: seq<Blueprint>, body: seq<Decl>)
    ensures Define(name, bases, body).attrs == PutAll(AttrsOfBases([], bases), AttrDecls(body))
  {
    CollectAttrs(Prepared(bases), body);
  }

  /** Every attribute of the bases, base by base, each base's in its own order. */
  function BaseAttrs(bases: seq<Blueprint>): seq<(string, string)> {
    if bases == [] then [] else bases[0].attrs + BaseAttrs(bases[1..])
  }

  /** Merging the bases one by one is assigning all their attributes in turn. */
  lemma {:induction false} AttrsOfBasesFlat(m: seq<(string, string)>, bases: seq<Blueprint>)
    ensures AttrsOfBases(m, bases) == PutAll(m, BaseAttrs(bases))
    decreases bases
  {
    if bases == [] {
    } else {
      AttrsOfBasesFlat(PutAll(m, bases[0].attrs), bases[1..]);
      PutAllAppend(m, bases[0].attrs, BaseAttrs(bases[1..]));
    }
  }

  /** Adding a base last adds its attributes last. */
  lemma {:induction false} BaseAttrsSnoc(bases: seq<Blueprint>, b: Blueprint)
    ensures BaseAttrs(bases + [b]) == BaseAttrs(bases) + b.attrs
    decreases bases
  {
    if bases == [] {
      assert [b][1..] == [];
      assert b.attrs + [] == b.attrs;
    } else {
      assert (bases + [b])[1..] == bases[1..] + [b];
      BaseAttrsSnoc(bases[1..], b);
      assert bases[0].attrs + (BaseAttrs(bases[1..]) + b.attrs) == bases[0].attrs + BaseAttrs(bases[1..]) + b.attrs;
    }
  }

  /**
   * `__prepare__` with one more base: an attribute that base has takes that
   * base's value, whatever the earlier bases said; any other keeps its value.
   */
  lemma PreparedLaterBaseWins(bases: seq<Blueprint>, b: Blueprint, k: string)
    ensures Get(Prepared(bases + [b]).attrs, k)
         == if LastIn(b.attrs, k).Some? then LastIn(b.attrs, k) else Get(Prepared(bases).attrs, k)
  {
    AttrsOfBasesFlat([], bases + [b]);
    AttrsOfBasesFlat([], bases);
    BaseAttrsSnoc(bases, b);
    PutAllAppend([], BaseAttrs(bases), b.attrs);
    PutAllGet(PutAll([], BaseAttrs(bases)), b.attrs, k);
  }

  /**
   * A class's attributes are what assigning its bases' attributes, left to
   * right, and then its body's attribute assignments gives.
   */
  lemma DefineAttrsFlat(name: string, bases: seq<Blueprint>, body: seq<Decl>)
    ensures Define(name, bases, body).attrs == PutAll([], BaseAttrs(bases) + AttrDecls(body))
  {
    DefineAttrs(name, bases, body);
    AttrsOfBasesFlat([], bases);
    PutAllAppend([], BaseAttrs(bases), AttrDecls(body));
  }

  /**
   * The value of a class's attribute `k`: the last one its body assigns to
   * `k`; failing that, the one of the last base that has `k`, so later bases
   * win over earlier ones; and no value when neither has `k`.
   */
  lemma DefineAttrGet(name: string, bases: seq<Blueprint>, body: seq<Decl>, k: string)
    ensures Get(Define(name, bases, body).attrs, k)
         == if LastIn(AttrDecls(body), k).Some? then LastIn(AttrDecls(body), k) else LastIn(BaseAttrs(bases), k)
  {
    DefineAttrsFlat(name, bases, body);
    PutAllGet([], BaseAttrs(bases) + AttrDecls(body), k);
    LastInAppend(BaseAttrs(bases), AttrDecls(body), k);
  }

  /**
   * The order of a class's attributes: every attribute name of the bases
   * and then of the body, each at its first occurrence, so a re-assigned
   * or overridden attribute keeps its first position.
   */
  lemma DefineAttrKeys(name: string, bases: seq<Blueprint>, body: seq<Decl>)
    ensures Keys(Define(name, bases, body).attrs) == NewKeys([], BaseAttrs(bases) + AttrDecls(body))
  {
    DefineAttrsFlat(name, bases, body);
    PutAllKeys([], BaseAttrs(bases) + AttrDecls(body));
  }

  /** Private names and `TEXT` never set an attribute, whatever their value. */
  lemma {:induction false} PrivateNamesSetNoAttribute(body: seq<Decl>)
    requires forall i | 0 <= i < |body| :: StartsWith(body[i].0, "_") || body[i].0 == TEXT
    ensures AttrDecls(body) == []
  {
    if body != [] {
      PrivateNamesSetNoAttribute(body[1..]);
    }
  }

  /** A converted plain class has no bases: it owns exactly its declared elements. */
  lemma ConvertedOwned(name: string, body: seq<Decl>)
    ensures Converted(name, body).owned == Elements(PlainNamespace(body))
  {
    var ns := [(TEXT, Scalar(""))] + PlainNamespace(body);
    DefineOwned(name, [], ns);
    assert ns[1..] == PlainNamespace(body);
  }

  /** The `TEXT` a namespace holds, when it holds a string there. */
  function OwnText(namespace: seq<Decl>): Option<string> {
    var own := Get(namespace, TEXT);
    if own.Some? && own.value.Scalar? then Some(own.value.s) else None
  }

  /** The string last assigned to `TEXT` in a body, or `t` when there is none. */
  function LastText(body: seq<Decl>, t: Option<string>): Option<string>
    decreases |body|
  {
    if body == [] then t
    else LastText(body[1..], if body[0].0 == TEXT && body[0].1.Scalar? then Some(body[0].1.s) else t)
  }

  lemma AssignedText(st: Collected, d: Decl)
    ensures OwnText(Assigned(st, d).namespace)
         == if d.0 == TEXT && d.1.Scalar? then Some(d.1.s) else OwnText(st.namespace)
  {
    if d.1.Element? {
    } else if CanBeConvertedToElementClass(d.0, d.1) {
      assert Assigned(st, d).namespace == st.namespace;
    } else if IsElemAttribute(d.0) {
      assert d.0 != TEXT && Assigned(st, d).namespace == st.namespace;
    } else {
      TextIsPublic();
      PutGet(st.namespace, d.0, d.1, TEXT);
    }
  }

  lemma {:induction false} CollectText(st: Collected, body: seq<Decl>)
    ensures OwnText(Collect(st, body).namespace) == LastText(body, OwnText(st.namespace))
    decreases |body|
  {
    if body != [] {
      AssignedText(st, body[0]);
      CollectText(Assigned(st, body[0]), body[1..]);
    }
  }

  /**
   * A class's `TEXT` is the string its body assigns to `TEXT` last; a class
   * that assigns none takes its first base's (`E`'s `''` at the root).
   */
  lemma DefineText(name: string, bases: seq<Blueprint>, body: seq<Decl>)
    ensures Define(name, bases, body).text == match LastText(body, None) {
      case Some(t) => t
      case None => if bases == [] then "" else bases[0].text
    }
  {
    CollectText(Prepared(bases), body);
  }

  /**
   * A converted plain class takes the string its namespace holds under
   * `TEXT`, and `''` when it holds none.
   */
  lemma ConvertedText(name: string, body: seq<Decl>)
    ensures Converted(name, body).text == match LastText(PlainNamespace(body), Some("")) {
      case Some(t) => t
      case None => ""
    }
  {
    var ns := [(TEXT, Scalar(""))] + PlainNamespace(body);
    DefineText(name, [], ns);
    assert ns[1..] == PlainNamespace(body);
  }

  /** `TEXT` is a public name: a plain class bound to it is converted. */
  lemma TextIsPublic()
    ensures !StartsWith(TEXT, "_")
  {
    assert TEXT[..1][0] == 'T';
  }

  // ------------------------------------------------------- well-formedness

  /** Attributes as a `dict` holds them: unique names, and no `_` in any name. */
  predicate AttrsWF(attrs: seq<(string, string)>) {
    UniqueKeys(attrs) && forall p | p in attrs :: '_' !in p.0
  }

  /** An element class whose attributes, and whose owned classes' attributes, are well formed. */
  predicate WellFormed(bp: Blueprint)
    decreases bp
  {
    AttrsWF(bp.attrs) && forall i | 0 <= i < |bp.owned| :: WellFormed(bp.owned[i])
  }

  /** A body whose element classes, also inside plain classes, are well formed. */
  predicate BodyWF(body: seq<Decl>)
    decreases PlainClass(body)
  {
    forall i | 0 <= i < |body| ::
      match body[i].1
      case Element(bp) => WellFormed(bp)
      case PlainClass(b) => BodyWF(b)
      case Scalar(_) => true
  }

  predicate StateWF(st: Collected) {
    AttrsWF(st.attrs) && forall i | 0 <= i < |st.owned| :: WellFormed(st.owned[i])
  }

  lemma {:induction false} PutAllWF(m: seq<(string, string)>, pairs: seq<(string, string)>)
    requires AttrsWF(m)
    requires forall p | p in pairs :: '_' !in p.0
    ensures AttrsWF(PutAll(m, pairs))
    decreases pairs
  {
    if pairs != [] {
      var m' := Put(m, pairs[0].0, pairs[0].1);
      PutUnique(m, pairs[0].0, pairs[0].1);
      PutMembers(m, pairs[0].0, pairs[0].1);
      assert pairs[0] in pairs;
      assert forall p | p in pairs[1..] :: p in pairs;
      PutAllWF(m', pairs[1..]);
    }
  }

  lemma {:induction false} PreparedWF(bases: seq<Blueprint>, m: seq<(string, string)>)
    requires forall i | 0 <= i < |bases| :: WellFormed(bases[i])
    requires AttrsWF(m)
    ensures AttrsWF(AttrsOfBases(m, bases))
    ensures forall i | 0 <= i < |OwnedOfBases(bases)| :: WellFormed(OwnedOfBases(bases)[i])
    decreases bases
  {
    if bases != [] {
      PutAllWF(m, bases[0].attrs);
      PreparedWF(bases[1..], PutAll(m, bases[0].attrs));
      var rest := OwnedOfBases(bases[1..]);
      assert OwnedOfBases(bases) == bases[0].owned + rest;
      forall i | 0 <= i < |OwnedOfBases(bases)| ensures WellFormed(OwnedOfBases(bases)[i]) {
        if i >= |bases[0].owned| {
          assert OwnedOfBases(bases)[i] == rest[i - |bases[0].owned|];
        }
      }
    }
  }

  lemma {:induction false} AssignedWF(st: Collected, d: Decl)
    requires StateWF(st)
    requires match d.1
      case Element(bp) => WellFormed(bp)
      case PlainClass(b) => BodyWF(b)
      case Scalar(_) => true
    ensures StateWF(Assigned(st, d))
    decreases ValueDepth(d.1), 1, 0
  {
    var (name, value) := d;
    if value.Element? {
      var owned := st.owned + [value.bp];
      assert forall i | 0 <= i < |st.owned| :: owned[i] == st.owned[i];
    } else if CanBeConvertedToElementClass(name, value) {
      ConvertedWF(name, value.body);
      AssignedWF(st, (name, Element(Converted(name, value.body))));
    } else if IsElemAttribute(name) {
      var k := ToElemAttrName(name);
      PutUnique(st.attrs, k, value.s);
      PutMembers(st.attrs, k, value.s);
    }
  }

  lemma {:induction false} CollectWF(st: Collected, body: seq<Decl>)
    requires StateWF(st)
    requires BodyWF(body)
    ensures StateWF(Collect(st, body))
    decreases Depth(body), 2, |body|
  {
    if body != [] {
      DepthBound(body, 0);
      DepthSubset(body[1..], body);
      AssignedWF(st, body[0]);
      assert forall i | 0 <= i < |body[1..]| :: body[1..][i] == body[i + 1];
      CollectWF(Assigned(st, body[0]), body[1..]);
    }
  }

  /**
   * Class creation keeps element classes well formed: with well-formed
   * bases and a body whose element classes are well formed, the new class
   * has unique attribute names without `_`, all the way down.
   */
  lemma {:induction false} DefineWF(name: string, bases: seq<Blueprint>, body: seq<Decl>)
    requires forall i | 0 <= i < |bases| :: WellFormed(bases[i])
    requires BodyWF(body)
    ensures WellFormed(Define(name, bases, body))
    decreases Depth(body), 3, 0
  {
    PreparedWF(bases, []);
    CollectWF(Prepared(bases), body);
  }

  lemma {:induction false} ConvertedWF(name: string, body: seq<Decl>)
    requires BodyWF(body)
    ensures WellFormed(Converted(name, body))
    decreases 1 + Depth(body), 0, 0
  {
    var plain := PlainNamespace(body);
    var ns := [(TEXT, Scalar(""))] + plain;
    PutAllMembers([], body);
    DepthSubset(plain, body);
    ConvertedDepth(ns, plain);
    forall i | 0 <= i < |ns| ensures ns[i] == (TEXT, Scalar("")) || ns[i] in body {
      if i > 0 {
        assert ns[i] == plain[i - 1];
      }
    }
    DefineWF(name, [], ns);
  }
}
