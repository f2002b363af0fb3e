/**
 * An insertion-ordered dictionary, the behaviour of a Python `dict`:
 * assigning a new key appends it, re-assigning a key replaces its value in
 * place, and iteration follows first insertion.
 */
module OrderedMap {

  datatype Option<T> = None | Some(value: T)

  // Keys are strings throughout: attribute names and class-body names.

  /** The keys in iteration order. */
  function Keys<V>(m: seq<(string, V)>): (ks: seq<string>)
    ensures |ks| == |m|
    ensures forall i | 0 <= i < |m| :: ks[i] == m[i].0
  {
    if m == [] then [] else [m[0].0] + Keys(m[1..])
  }

  /** No key occurs twice: the shape every `dict` has. */
  predicate UniqueKeys<V>(m: seq<(string, V)>) {
    forall i, j | 0 <= i < j < |m| :: m[i].0 != m[j].0
  }

  /** `m.get(k)` */
  function Get<V>(m: seq<(string, V)>, k: string): (r: Option<V>)
    ensures r.None? <==> k !in Keys(m)
  {
    if m == [] then None else if m[0].0 == k then Some(m[0].1) else Get(m[1..], k)
  }

  /**
   * `m[k] = v`: an existing key keeps its position and takes the new value,
   * a new key goes last (`PutKeys`, `PutGet`).
   */
  function Put<V>(m: seq<(string, V)>, k: string, v: V): seq<(string, V)> {
    if m == [] then [(k, v)]
    else if m[0].0 == k then [(k, v)] + m[1..]
    else [m[0]] + Put(m[1..], k, v)
  }

  /** Re-assigning a key leaves the key order alone; a new key is appended. */
  lemma {:induction false} PutKeys<V>(m: seq<(string, V)>, k: string, v: V)
    ensures Keys(Put(m, k, v)) == if k in Keys(m) then Keys(m) else Keys(m) + [k]
  {
    if m != [] && m[0].0 != k {
      PutKeys(m[1..], k, v);
      KeysCons(m[0], Put(m[1..], k, v));
      KeysCons(m[0], m[1..]);
      assert m == [m[0]] + m[1..];
    }
  }

  lemma KeysCons<V>(p: (string, V), m: seq<(string, V)>)
    ensures Keys([p] + m) == [p.0] + Keys(m)
  {
    assert ([p] + m)[1..] == m;
  }

  /** After `m[k] = v`, `k` reads `v` and every other key reads what it did. */
  lemma {:induction false} PutGet<V>(m: seq<(string, V)>, k: string, v: V, k': string)
    ensures Get(Put(m, k, v), k') == if k' == k then Some(v) else Get(m, k')
  {
    if m != [] && m[0].0 != k {
      PutGet(m[1..], k, v, k');
      assert ([m[0]] + Put(m[1..], k, v))[1..] == Put(m[1..], k, v);
    }
  }

  /** `m[k] = v` keeps a dictionary a dictionary: keys stay unique. */
  lemma {:induction false} PutUnique<V>(m: seq<(string, V)>, k: string, v: V)
    requires UniqueKeys(m)
    ensures UniqueKeys(Put(m, k, v))
  {
    var r := Put(m, k, v);
    PutKeys(m, k, v);
    forall i, j | 0 <= i < j < |r| ensures r[i].0 != r[j].0 {
      assert Keys(r)[i] == r[i].0 && Keys(r)[j] == r[j].0;
    }
  }

  /** Every entry after `m[k] = v` is either `(k, v)` or an entry of `m`. */
  lemma {:induction false} PutMembers<V>(m: seq<(string, V)>, k: string, v: V)
    ensures forall p | p in Put(m, k, v) :: p in m || p == (k, v)
  {
    if m != [] && m[0].0 != k {
      PutMembers(m[1..], k, v);
      assert forall p | p in m[1..] :: p in m;
    } else if m != [] {
      assert forall p | p in m[1..] :: p in m;
    }
  }

  /** `for k, v in pairs: m[k] = v` */
  function PutAll<V>(m: seq<(string, V)>, pairs: seq<(string, V)>): seq<(string, V)>
    decreases pairs
  {
    if pairs == [] then m else PutAll(Put(m, pairs[0].0, pairs[0].1), pairs[1..])
  }

  /** Every entry after `PutAll(m, pairs)` comes from `m` or from `pairs`. */
  lemma {:induction false} PutAllMembers<V>(m: seq<(string, V)>, pairs: seq<(string, V)>)
    ensures forall p | p in PutAll(m, pairs) :: p in m || p in pairs
    decreases pairs
  {
    if pairs != [] {
      PutMembers(m, pairs[0].0, pairs[0].1);
      PutAllMembers(Put(m, pairs[0].0, pairs[0].1), pairs[1..]);
      assert forall p | p in pairs[1..] :: p in pairs;
    }
  }

  /** Putting `a + b` is putting `a`, then `b`. */
  lemma {:induction false} PutAllAppend<V>(m: seq<(string, V)>, a: seq<(string, V)>, b: seq<(string, V)>)
    ensures PutAll(m, a + b) == PutAll(PutAll(m, a), b)
    decreases a
  {
    if a == [] {
      assert a + b == b;
    } else {
      assert (a + b)[1..] == a[1..] + b;
      PutAllAppend(Put(m, a[0].0, a[0].1), a[1..], b);
    }
  }

  /** `m[k] = v` for a new key appends `(k, v)`. */
  lemma {:induction false} PutNew<V>(m: seq<(string, V)>, k: string, v: V)
    requires k !in Keys(m)
    ensures Put(m, k, v) == m + [(k, v)]
  {
    if m != [] {
      KeysCons(m[0], m[1..]);
      assert m == [m[0]] + m[1..];
      PutNew(m[1..], k, v);
    }
  }

  /** Putting pairs whose keys are all new and distinct appends them in order. */
  lemma {:induction false} PutAllNew<V>(m: seq<(string, V)>, pairs: seq<(string, V)>)
    requires UniqueKeys(m + pairs)
    ensures PutAll(m, pairs) == m + pairs
    decreases pairs
  {
    if pairs != [] {
      var p := pairs[0];
      forall i | 0 <= i < |m| ensures Keys(m)[i] != p.0 {
        assert (m + pairs)[i] == m[i] && (m + pairs)[|m|] == p;
      }
      PutNew(m, p.0, p.1);
      assert m + [p] + pairs[1..] == m + pairs;
      PutAllNew(m + [p], pairs[1..]);
    }
  }

  /** The value the last pair for `k` in `pairs` carries: what `k` holds after assigning them all. */
  function LastIn<V>(pairs: seq<(string, V)>, k: string): Option<V> {
    if pairs == [] then None
    else if pairs[|pairs| - 1].0 == k then Some(pairs[|pairs| - 1].1)
    else LastIn(pairs[..|pairs| - 1], k)
  }

  /** The keys of `pairs` that are not in `seen`, each once, in order of first occurrence. */
  function NewKeys<V>(seen: seq<string>, pairs: seq<(string, V)>): seq<string>
    decreases pairs
  {
    if pairs == [] then []
    else if pairs[0].0 in seen then NewKeys(seen, pairs[1..])
    else [pairs[0].0] + NewKeys(seen + [pairs[0].0], pairs[1..])
  }

  /** A key is new exactly when some pair has it and it was not seen before. */
  lemma {:induction false} NewKeysMembers<V>(seen: seq<string>, pairs: seq<(string, V)>, k: string)
    ensures k in NewKeys(seen, pairs) <==> k in Keys(pairs) && k !in seen
    decreases pairs
  {
    if pairs != [] {
      var p := pairs[0];
      KeysCons(p, pairs[1..]);
      assert pairs == [p] + pairs[1..];
      if p.0 in seen {
        NewKeysMembers(seen, pairs[1..], k);
      } else {
        NewKeysMembers(seen + [p.0], pairs[1..], k);
      }
    }
  }

  /** Assigning one pair is `m[k] = v`. */
  lemma PutAllOne<V>(m: seq<(string, V)>, p: (string, V))
    ensures PutAll(m, [p]) == Put(m, p.0, p.1)
  {
    assert [p][1..] == [];
  }

  /**
   * After `for k, v in pairs: m[k] = v`, a key reads the value of its last
   * pair, and a key no pair assigns reads what it did before.
   */
  lemma {:induction false} PutAllGet<V>(m: seq<(string, V)>, pairs: seq<(string, V)>, k: string)
    ensures Get(PutAll(m, pairs), k) == if LastIn(pairs, k).Some? then LastIn(pairs, k) else Get(m, k)
    decreases |pairs|
  {
    if pairs != [] {
      var init, last := pairs[..|pairs| - 1], pairs[|pairs| - 1];
      assert pairs == init + [last];
      PutAllAppend(m, init, [last]);
      PutAllOne(PutAll(m, init), last);
      PutGet(PutAll(m, init), last.0, last.1, k);
      PutAllGet(m, init, k);
    }
  }

  /**
   * After `for k, v in pairs: m[k] = v`, the keys are the old keys in their
   * order, followed by the new keys in order of first assignment: a
   * re-assigned key keeps its first position.
   */
  lemma {:induction false} PutAllKeys<V>(m: seq<(string, V)>, pairs: seq<(string, V)>)
    ensures Keys(PutAll(m, pairs)) == Keys(m) + NewKeys(Keys(m), pairs)
    decreases pairs
  {
    if pairs == [] {
      assert Keys(m) + [] == Keys(m);
    } else {
      var p := pairs[0];
      var m' := Put(m, p.0, p.1);
      PutKeys(m, p.0, p.1);
      PutAllKeys(m', pairs[1..]);
      if p.0 !in Keys(m) {
        NewKeysFresh(Keys(m), pairs, NewKeys(Keys(m) + [p.0], pairs[1..]));
      }
    }
  }

  /** A first key not seen before is new, and is seen from then on. */
  lemma NewKeysFresh<V>(seen: seq<string>, pairs: seq<(string, V)>, rest: seq<string>)
    requires pairs != [] && pairs[0].0 !in seen
    requires rest == NewKeys(seen + [pairs[0].0], pairs[1..])
    ensures seen + [pairs[0].0] + rest == seen + NewKeys(seen, pairs)
  {
  }

  /** The last pair for `k` in `a + b` is in `b` if `b` has one, and in `a` otherwise. */
  lemma {:induction false} LastInAppend<V>(a: seq<(string, V)>, b: seq<(string, V)>, k: string)
    ensures LastIn(a + b, k) == if LastIn(b, k).Some? then LastIn(b, k) else LastIn(a, k)
    decreases |b|
  {
    if b == [] {
      assert a + b == a;
    } else {
      var init := b[..|b| - 1];
      assert (a + b)[..|a + b| - 1] == a + init;
      LastInAppend(a, init, k);
    }
  }
}
