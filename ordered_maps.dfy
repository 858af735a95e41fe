/**
 * Python's insertion-ordered `dict`, as an association sequence.
 * `Put` is `d[k] = v` (an existing key keeps its position, a new key goes at
 * the end) and `Update` is `d.update(pairs)`, which puts the pairs one after
 * the other.
 */
module OrderedMaps {
  import opened Wrappers

  type Assoc<K, V> = seq<(K, V)>

  function Keys<K, V>(m: Assoc<K, V>): (ks: seq<K>)
    ensures |ks| == |m|
    ensures forall i :: 0 <= i < |m| ==> ks[i] == m[i].0
  {
    seq(|m|, i requires 0 <= i < |m| => m[i].0)
  }

  predicate Distinct<K(==)>(ks: seq<K>) {
    forall i, j :: 0 <= i < j < |ks| ==> ks[i] != ks[j]
  }

  predicate DistinctKeys<K(==), V>(m: Assoc<K, V>) {
    Distinct(Keys(m))
  }

  /** `d.get(k)`: the value of the first pair with key `k`. */
  function Get<K(==), V>(m: Assoc<K, V>, k: K): (r: Option<V>)
    ensures r.None? <==> k !in Keys(m)
  {
    if m == [] then None
    else if m[0].0 == k then Some(m[0].1)
    else Get(m[1..], k)
  }

  /** The value of the last pair with key `k`: what a dict built from the pairs keeps. */
  function LastGet<K(==), V>(u: Assoc<K, V>, k: K): (r: Option<V>)
    ensures r.None? <==> k !in Keys(u)
  {
    if u == [] then None
    else if LastGet(u[1..], k).Some? then LastGet(u[1..], k)
    else if u[0].0 == k then Some(u[0].1)
    else None
  }

  /** `d[k] = v`. */
  function Put<K(==), V>(m: Assoc<K, V>, k: K, v: V): (r: Assoc<K, V>)
    ensures Keys(r) == if k in Keys(m) then Keys(m) else Keys(m) + [k]
  {
    if m == [] then [(k, v)]
    else if m[0].0 == k then [(k, v)] + m[1..]
    else [m[0]] + Put(m[1..], k, v)
  }

  /** After `d[k] = v` the key `k` reads `v` and every other key reads what it read before. */
  lemma {:induction false} PutGet<K, V>(m: Assoc<K, V>, k: K, v: V, j: K)
    ensures Get(Put(m, k, v), j) == if j == k then Some(v) else Get(m, j)
  {
    if m != [] && m[0].0 != k {
      PutGet(m[1..], k, v, j);
    }
  }

  /** `d.update(u)`. */
  function Update<K(==), V>(m: Assoc<K, V>, u: Assoc<K, V>): Assoc<K, V>
    decreases |u|
  {
    if u == [] then m else Update(Put(m, u[0].0, u[0].1), u[1..])
  }

  /** The keys of `u` that are not in `ks`, in the order `u` has them, each once. */
  function NewKeys<K(==)>(ks: seq<K>, us: seq<K>): seq<K>
    decreases |us|
  {
    if us == [] then []
    else if us[0] in ks then NewKeys(ks, us[1..])
    else [us[0]] + NewKeys(ks + [us[0]], us[1..])
  }

  /** The keys of a dict never repeat, and `d[k] = v` keeps it so. */
  lemma PutDistinct<K, V>(m: Assoc<K, V>, k: K, v: V)
    requires DistinctKeys(m)
    ensures DistinctKeys(Put(m, k, v))
  {
  }

  /** `d.update(u)` keeps the keys distinct. */
  lemma {:induction false} UpdateDistinct<K, V>(m: Assoc<K, V>, u: Assoc<K, V>)
    requires DistinctKeys(m)
    ensures DistinctKeys(Update(m, u))
    decreases |u|
  {
    if u != [] {
      PutDistinct(m, u[0].0, u[0].1);
      UpdateDistinct(Put(m, u[0].0, u[0].1), u[1..]);
    }
  }

  /**
   * The existing keys keep their order and come first; the new keys of `u`
   * follow, in the order `u` gives them.
   */
  lemma {:induction false} UpdateKeys<K, V>(m: Assoc<K, V>, u: Assoc<K, V>)
    ensures Keys(Update(m, u)) == Keys(m) + NewKeys(Keys(m), Keys(u))
    decreases |u|
  {
    if u != [] {
      var k := u[0].0;
      var m' := Put(m, k, u[0].1);
      UpdateKeys(m', u[1..]);
      assert Keys(u)[0] == k && Keys(u)[1..] == Keys(u[1..]);
      if k in Keys(m) {
        assert Keys(m') == Keys(m);
      } else {
        assert Keys(m') == Keys(m) + [k];
      }
    }
  }

  /**
   * After `d.update(u)` a key reads the last value `u` gives it, and a key
   * that `u` does not mention reads what it read before.
   */
  lemma {:induction false} UpdateGet<K, V>(m: Assoc<K, V>, u: Assoc<K, V>, k: K)
    ensures Get(Update(m, u), k) == if LastGet(u, k).Some? then LastGet(u, k) else Get(m, k)
    decreases |u|
  {
    if u != [] {
      PutGet(m, u[0].0, u[0].1, k);
      UpdateGet(Put(m, u[0].0, u[0].1), u[1..], k);
    }
  }

  /** When the keys of `u` are distinct (as in a dict), its last value for a key is its only one. */
  lemma {:induction false} LastGetDistinct<K, V>(u: Assoc<K, V>, k: K)
    requires DistinctKeys(u)
    ensures LastGet(u, k) == Get(u, k)
  {
    if u != [] {
      assert DistinctKeys(u[1..]) by {
        assert forall i :: 0 <= i < |u| - 1 ==> Keys(u[1..])[i] == Keys(u)[i + 1];
      }
      LastGetDistinct(u[1..], k);
      if u[0].0 == k {
        assert k !in Keys(u[1..]) by {
          assert forall i :: 0 <= i < |u| - 1 ==> Keys(u[1..])[i] == Keys(u)[i + 1];
        }
      }
    }
  }

  /** A value `d.get` finds is one of the pairs. */
  lemma {:induction false} GetIn<K, V>(m: Assoc<K, V>, k: K)
    requires Get(m, k).Some?
    ensures (k, Get(m, k).value) in m
  {
    if m[0].0 != k {
      GetIn(m[1..], k);
    }
  }

  /** `d[k] = v` for a new key appends the pair. */
  lemma PutAbsent<K, V>(m: Assoc<K, V>, k: K, v: V)
    requires k !in Keys(m)
    ensures Put(m, k, v) == m + [(k, v)]
  {
  }

  /** Overwriting the last key replaces its value in place. */
  lemma {:induction false} PutLast<K, V>(m: Assoc<K, V>, k: K, v: V, w: V)
    requires k !in Keys(m)
    ensures Put(m + [(k, v)], k, w) == m + [(k, w)]
    ensures Get(m + [(k, v)], k) == Some(v)
  {
    var mv := m + [(k, v)];
    if m != [] {
      assert m[0].0 == Keys(m)[0] && m[0].0 != k;
      assert k !in Keys(m[1..]) by {
        assert forall i :: 0 <= i < |m| - 1 ==> Keys(m[1..])[i] == Keys(m)[i + 1];
      }
      assert mv[0] == m[0] && mv[1..] == m[1..] + [(k, v)];
      PutLast(m[1..], k, v, w);
      assert Put(mv, k, w) == [m[0]] + Put(mv[1..], k, w);
      assert Get(mv, k) == Get(mv[1..], k);
      assert [m[0]] + (m[1..] + [(k, w)]) == m + [(k, w)];
    } else {
      assert mv == [(k, v)];
    }
  }

  /** Every pair after `d[k] = v` is an old pair or the new one. */
  lemma {:induction false} PutEntries<K, V>(m: Assoc<K, V>, k: K, v: V)
    ensures forall i :: 0 <= i < |Put(m, k, v)| ==> Put(m, k, v)[i] == (k, v) || Put(m, k, v)[i] in m
  {
    if m != [] && m[0].0 != k {
      PutEntries(m[1..], k, v);
    }
  }

  /** A dict without its last pair is a dict that does not hold the last key. */
  lemma DistinctInit<K, V>(m: Assoc<K, V>)
    requires DistinctKeys(m) && m != []
    ensures DistinctKeys(m[..|m| - 1])
    ensures m[|m| - 1].0 !in Keys(m[..|m| - 1])
  {
    var init := m[..|m| - 1];
    assert forall i :: 0 <= i < |init| ==> Keys(init)[i] == Keys(m)[i];
  }

  /** Proof step: a non-empty sequence is its prefix followed by its last element. */
  lemma InitLast<T>(s: seq<T>)
    requires s != []
    ensures s[..|s| - 1] + [s[|s| - 1]] == s
  {
  }

  /** Every pair of `d.update(u)` comes from `d` or from `u`. */
  lemma {:induction false} UpdateEntries<K, V>(m: Assoc<K, V>, u: Assoc<K, V>)
    decreases |u|
    ensures forall i :: 0 <= i < |Update(m, u)| ==> Update(m, u)[i] in m || Update(m, u)[i] in u
  {
    if u != [] {
      var m' := Put(m, u[0].0, u[0].1);
      PutEntries(m, u[0].0, u[0].1);
      UpdateEntries(m', u[1..]);
    }
  }

  /** Updating with pairs whose keys are all new appends them. */
  lemma {:induction false} UpdateAppend<K, V>(a: Assoc<K, V>, b: Assoc<K, V>)
    requires DistinctKeys(a + b)
    decreases |b|
    ensures Update(a, b) == a + b
  {
    if b != [] {
      var ab := a + b;
      assert b[0].0 !in Keys(a) by {
        assert ab[|a|] == b[0];
        assert forall i :: 0 <= i < |a| ==> ab[i] == a[i];
      }
      PutAbsent(a, b[0].0, b[0].1);
      assert (a + [b[0]]) + b[1..] == ab;
      UpdateAppend(a + [b[0]], b[1..]);
    }
  }
}
