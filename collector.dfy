/**
 * The imperative side of class creation: the collecting dictionary that
 * `Meta.__prepare__` hands to a class body, its `__setitem__`, and the
 * class statement that runs a body against it.  Each method is proved to
 * compute what the functions of `Blueprints` describe.
 */
module Collecting {
  import opened OrderedMap
  import opened Blueprints

  /** `DictForCollectingElements`: the namespace a class body executes in. */
  class Collector {
    var owned: seq<Blueprint>
    var attrs: seq<(string, string)>
    var namespace: seq<Decl>

    function State(): Collected
      reads this
    {
      Collected(owned, attrs, namespace)
    }

    /** A fresh dictionary: no owned elements and no attributes. */
    constructor ()
      ensures State() == Collected([], [], [])
    {
      owned := [];
      attrs := [];
      namespace := [];
    }

    /**
     * `__setitem__`: an element class is appended to the owned elements, a
     * plain class under a public name is converted and stored again, a
     * public name other than `TEXT` sets an attribute, anything else goes
     * to the namespace.
     */
    method SetItem(name: string, value: Value)
      modifies this
      decreases ValueDepth(value), 1
      ensures State() == Assigned(old(State()), (name, value))
    {
      if value.Element? {
        owned := owned + [value.bp];
      } else if CanBeConvertedToElementClass(name, value) {
        var bp := CreateElementClass(name, value.body);
        SetItem(name, Element(bp));
      } else if IsElemAttribute(name) {
        attrs := Put(attrs, ToElemAttrName(name), value.s);
      } else {
        namespace := Put(namespace, name, value);
      }
    }
  }

  /**
   * `Meta.__prepare__`: a fresh dictionary whose owned elements are those of
   * all bases in order, and whose attributes merge the bases' attributes
   * from left to right.
   */
  method Prepare(bases: seq<Blueprint>) returns (c: Collector)
    ensures fresh(c)
    ensures c.State() == Prepared(bases)
  {
    c := new Collector();
    var inherited: seq<Blueprint> := [];
    var i := 0;
    while i < |bases|
      invariant 0 <= i <= |bases|
      invariant inherited + OwnedOfBases(bases[i..]) == OwnedOfBases(bases)
    {
      assert bases[i..][1..] == bases[i + 1..];
      inherited := inherited + bases[i].owned;
      i := i + 1;
    }
    assert bases[i..] == [];
    c.owned := c.owned + inherited;

    var merged: seq<(string, string)> := [];
    i := 0;
    while i < |bases|
      invariant 0 <= i <= |bases|
      invariant AttrsOfBases(merged, bases[i..]) == AttrsOfBases([], bases)
    {
      assert bases[i..][1..] == bases[i + 1..];
      var pairs := bases[i].attrs;
      var j := 0;
      while j < |pairs|
        invariant 0 <= j <= |pairs|
        invariant AttrsOfBases(PutAll(merged, pairs[j..]), bases[i + 1..]) == AttrsOfBases([], bases)
      {
        assert pairs[j..][1..] == pairs[j + 1..];
        merged := Put(merged, pairs[j].0, pairs[j].1);
        j := j + 1;
      }
      assert pairs[j..] == [];
      i := i + 1;
    }
    assert bases[i..] == [];
    c.attrs := merged;
  }

  /**
   * `class name(*bases): body` under `Meta`: the body's assignments run
   * one by one against the prepared dictionary, and the class is built
   * from what it collected.
   */
  method DefineClass(name: string, bases: seq<Blueprint>, body: seq<Decl>) returns (bp: Blueprint)
    decreases Depth(body), 3
    ensures bp == Define(name, bases, body)
  {
    var c := Prepare(bases);
    var i := 0;
    while i < |body|
      invariant 0 <= i <= |body|
      invariant Collect(c.State(), body[i..]) == Collect(Prepared(bases), body)
    {
      assert body[i..][1..] == body[i + 1..];
      DepthBound(body, i);
      c.SetItem(body[i].0, body[i].1);
      i := i + 1;
    }
    assert body[i..] == [];
    bp := Blueprint(name, c.attrs, c.owned, ResolvedText(c.namespace, bases));
  }

  /**
   * `_create_element_class`: an element class named `name` whose body sets
   * `TEXT = ''` and then replays the plain class's `__dict__`.
   */
  method CreateElementClass(name: string, body: seq<Decl>) returns (bp: Blueprint)
    decreases 1 + Depth(body), 0
    ensures bp == Converted(name, body)
  {
    var plain := PlainNamespace(body);
    var ns := [(TEXT, Scalar(""))] + plain;
    PutAllMembers([], body);
    DepthSubset(plain, body);
    ConvertedDepth(ns, plain);
    bp := DefineClass(name, [], ns);
  }
}
