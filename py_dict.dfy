/**
 * A Python dict built by a comprehension `{key(v): v for v in xs}`, seen through
 * `.items()`: a sequence of values in insertion order. A repeated key keeps the
 * position of its first occurrence and takes the value of its last one.
 *
 * The functions here carry no postconditions; their properties are lemmas, so
 * that callers pay only for the facts they use.
 */
module PyDict {

  /** The keys of `xs` under `key`. */
  function KeySet<K, V>(xs: seq<V>, key: V -> K): set<K> {
    if xs == [] then {} else {key(xs[0])} + KeySet(xs[1..], key)
  }

  lemma {:induction false} KeySetMember<K, V>(xs: seq<V>, key: V -> K, k: K)
    ensures k in KeySet(xs, key) <==> exists i :: 0 <= i < |xs| && key(xs[i]) == k
  {
    if xs != [] {
      KeySetMember(xs[1..], key, k);
      if k in KeySet(xs[1..], key) {
        var i :| 0 <= i < |xs[1..]| && key(xs[1..][i]) == k;
        assert key(xs[i + 1]) == k;
      }
      if exists i :: 0 <= i < |xs| && key(xs[i]) == k {
        var i :| 0 <= i < |xs| && key(xs[i]) == k;
        if i > 0 { assert key(xs[1..][i - 1]) == k; }
      }
    }
  }

  lemma {:induction false} KeySetConcat<K, V>(a: seq<V>, b: seq<V>, key: V -> K)
    ensures KeySet(a + b, key) == KeySet(a, key) + KeySet(b, key)
  {
    if a != [] {
      assert (a + b)[1..] == a[1..] + b;
      KeySetConcat(a[1..], b, key);
    } else {
      assert a + b == b;
    }
  }

  /** No two elements of `xs` share a key. */
  predicate UniqueKeys<K(==), V>(xs: seq<V>, key: V -> K) {
    forall i, j :: 0 <= i < j < |xs| ==> key(xs[i]) != key(xs[j])
  }

  lemma {:induction false} UniqueKeysCons<K, V>(x: V, xs: seq<V>, key: V -> K)
    ensures UniqueKeys([x] + xs, key) <==> key(x) !in KeySet(xs, key) && UniqueKeys(xs, key)
  {
    KeySetMember(xs, key, key(x));
    var s := [x] + xs;
    assert forall i | 0 <= i < |xs| :: s[i + 1] == xs[i];
    if UniqueKeys(s, key) {
      forall i, j | 0 <= i < j < |xs| ensures key(xs[i]) != key(xs[j]) {
        assert key(s[i + 1]) != key(s[j + 1]);
      }
      forall i | 0 <= i < |xs| ensures key(xs[i]) != key(x) {
        assert key(s[0]) != key(s[i + 1]);
      }
    }
    if key(x) !in KeySet(xs, key) && UniqueKeys(xs, key) {
      forall i, j | 0 <= i < j < |s| ensures key(s[i]) != key(s[j]) {
        if i == 0 {
          assert s[j] == xs[j - 1];
        } else {
          assert s[i] == xs[i - 1] && s[j] == xs[j - 1];
        }
      }
    }
  }

  /** Dropping the last element keeps keys unique, and the last key is not among the others. */
  lemma UniqueInit<K, V>(xs: seq<V>, key: V -> K)
    requires UniqueKeys(xs, key) && xs != []
    ensures UniqueKeys(xs[..|xs| - 1], key)
    ensures key(xs[|xs| - 1]) !in KeySet(xs[..|xs| - 1], key)
  {
    var init := xs[..|xs| - 1];
    KeySetMember(init, key, key(xs[|xs| - 1]));
    assert forall i | 0 <= i < |init| :: init[i] == xs[i];
  }

  lemma UniqueSnoc<K, V>(xs: seq<V>, v: V, key: V -> K)
    requires UniqueKeys(xs, key) && key(v) !in KeySet(xs, key)
    ensures UniqueKeys(xs + [v], key)
  {
    KeySetMember(xs, key, key(v));
    var s := xs + [v];
    forall i, j | 0 <= i < j < |s| ensures key(s[i]) != key(s[j]) {
      if j < |xs| {
        assert s[i] == xs[i] && s[j] == xs[j];
      } else {
        assert s[i] == xs[i];
      }
    }
  }

  lemma {:induction false} UniqueConcat<K, V>(a: seq<V>, b: seq<V>, key: V -> K)
    requires UniqueKeys(a, key) && UniqueKeys(b, key)
    requires KeySet(a, key) !! KeySet(b, key)
    ensures UniqueKeys(a + b, key)
  {
    var s := a + b;
    forall i, j | 0 <= i < j < |s| ensures key(s[i]) != key(s[j]) {
      if j < |a| {
        assert s[i] == a[i] && s[j] == a[j];
      } else if i >= |a| {
        assert s[i] == b[i - |a|] && s[j] == b[j - |a|];
      } else {
        assert s[i] == a[i] && s[j] == b[j - |a|];
        KeySetMember(a, key, key(s[i]));
        KeySetMember(b, key, key(s[j]));
      }
    }
  }

  // ---- building the dict ----

  /** `d[key(v)] = v`: replaces the value under the same key in place, or appends. */
  function Put<K(==), V>(d: seq<V>, v: V, key: V -> K): seq<V> {
    if d == [] then [v]
    else if key(d[0]) == key(v) then [v] + d[1..]
    else [d[0]] + Put(d[1..], v, key)
  }

  /** `Put` adds the key of `v`, at most one element, and no element that is not `v` or from `d`; a new key is appended. */
  lemma {:induction false} PutShape<K, V>(d: seq<V>, v: V, key: V -> K)
    ensures KeySet(Put(d, v, key), key) == KeySet(d, key) + {key(v)}
    ensures |Put(d, v, key)| <= |d| + 1
    ensures forall i :: 0 <= i < |Put(d, v, key)| ==> Put(d, v, key)[i] == v || Put(d, v, key)[i] in d
    ensures key(v) !in KeySet(d, key) ==> Put(d, v, key) == d + [v]
  {
    if d != [] {
      assert d == [d[0]] + d[1..];
      if key(d[0]) == key(v) {
        assert KeySet(d, key) == {key(v)} + KeySet(d[1..], key);
        assert KeySet(Put(d, v, key), key) == {key(v)} + KeySet(d[1..], key) by {
          assert ([v] + d[1..])[1..] == d[1..];
        }
      } else {
        var rest := Put(d[1..], v, key);
        PutShape(d[1..], v, key);
        assert KeySet(Put(d, v, key), key) == {key(d[0])} + KeySet(rest, key) by {
          assert ([d[0]] + rest)[1..] == rest;
        }
      }
    }
  }

  /** `Put` keeps keys unique, and `v` is then the only element with its key. */
  lemma {:induction false} PutUnique<K, V>(d: seq<V>, v: V, key: V -> K)
    requires UniqueKeys(d, key)
    ensures UniqueKeys(Put(d, v, key), key)
    ensures forall i :: 0 <= i < |Put(d, v, key)| ==> Put(d, v, key)[i] == v || key(Put(d, v, key)[i]) != key(v)
  {
    if d != [] {
      assert d == [d[0]] + d[1..];
      UniqueKeysCons(d[0], d[1..], key);
      if key(d[0]) == key(v) {
        KeySetMember(d[1..], key, key(v));
        UniqueKeysCons(v, d[1..], key);
      } else {
        var rest := Put(d[1..], v, key);
        PutUnique(d[1..], v, key);
        PutShape(d[1..], v, key);
        UniqueKeysCons(d[0], rest, key);
      }
    }
  }

  /** `d[key(v)] = v` adds the key of `v`, at most one element, and keeps keys unique. */
  lemma PutProperties<K, V>(d: seq<V>, v: V, key: V -> K)
    ensures KeySet(Put(d, v, key), key) == KeySet(d, key) + {key(v)}
    ensures |Put(d, v, key)| <= |d| + 1
    ensures forall i :: 0 <= i < |Put(d, v, key)| ==> Put(d, v, key)[i] == v || Put(d, v, key)[i] in d
    ensures key(v) !in KeySet(d, key) ==> Put(d, v, key) == d + [v]
    ensures UniqueKeys(d, key) ==> UniqueKeys(Put(d, v, key), key)
    ensures UniqueKeys(d, key) ==>
      forall i :: 0 <= i < |Put(d, v, key)| ==> Put(d, v, key)[i] == v || key(Put(d, v, key)[i]) != key(v)
  {
    PutShape(d, v, key);
    if UniqueKeys(d, key) {
      PutUnique(d, v, key);
    }
  }

  /**
   * Assigning to a key the dict already holds overwrites the value in place: the
   * length is unchanged, the first element with that key becomes `v`, and every
   * other element stays where it was.
   */
  lemma {:induction false} PutExisting<K, V>(d: seq<V>, v: V, key: V -> K)
    requires key(v) in KeySet(d, key)
    ensures |Put(d, v, key)| == |d|
    ensures forall i :: 0 <= i < |d| ==>
      Put(d, v, key)[i] == if key(d[i]) == key(v) && (forall j :: 0 <= j < i ==> key(d[j]) != key(v)) then v else d[i]
  {
    var r := Put(d, v, key);
    if key(d[0]) == key(v) {
      assert r == [v] + d[1..];
    } else {
      var rest := Put(d[1..], v, key);
      assert r == [d[0]] + rest;
      assert key(v) in KeySet(d[1..], key);
      PutExisting(d[1..], v, key);
      forall i | 0 < i < |d|
        ensures r[i] == if key(d[i]) == key(v) && (forall j :: 0 <= j < i ==> key(d[j]) != key(v)) then v else d[i]
      {
        assert r[i] == rest[i - 1] && d[1..][i - 1] == d[i];
        assert (forall j :: 0 <= j < i - 1 ==> key(d[1..][j]) != key(v)) <==>
               (forall j :: 0 <= j < i ==> key(d[j]) != key(v)) by {
          assert forall j :: 0 <= j < i - 1 ==> d[1..][j] == d[j + 1];
        }
      }
    }
  }

  /** The dict `{key(v): v for v in xs}`, as its values in iteration order. */
  function FromList<K(==), V>(xs: seq<V>, key: V -> K): seq<V> {
    if xs == [] then [] else Put(FromList(xs[..|xs| - 1], key), xs[|xs| - 1], key)
  }

  /** The dict has the list's keys, each once, and holds only elements of the list. */
  lemma {:induction false} FromListKeys<K, V>(xs: seq<V>, key: V -> K)
    ensures KeySet(FromList(xs, key), key) == KeySet(xs, key)
    ensures UniqueKeys(FromList(xs, key), key)
    ensures |FromList(xs, key)| <= |xs|
    ensures forall i :: 0 <= i < |FromList(xs, key)| ==> FromList(xs, key)[i] in xs
  {
    if xs != [] {
      var last := |xs| - 1;
      FromListKeys(xs[..last], key);
      PutProperties(FromList(xs[..last], key), xs[last], key);
      KeySetConcat(xs[..last], [xs[last]], key);
      assert xs[..last] + [xs[last]] == xs;
    }
  }

  /** The last element of `xs` whose key is `k`. */
  function LastWithKey<K(==), V>(xs: seq<V>, key: V -> K, k: K): V
    requires k in KeySet(xs, key)
    decreases |xs|
  {
    var last := |xs| - 1;
    if key(xs[last]) == k then xs[last]
    else
      KeySetConcat(xs[..last], [xs[last]], key);
      assert xs[..last] + [xs[last]] == xs;
      LastWithKey(xs[..last], key, k)
  }

  /** The last element with a key other than the appended one's is found before it. */
  lemma LastWithKeySnoc<K, V>(xs: seq<V>, x: V, key: V -> K, k: K)
    requires k in KeySet(xs, key) && k != key(x)
    ensures k in KeySet(xs + [x], key) && LastWithKey(xs + [x], key, k) == LastWithKey(xs, key, k)
  {
    KeySetConcat(xs, [x], key);
    assert (xs + [x])[..|xs|] == xs;
  }

  /** Each entry of the dict holds the last value the list gives for its key. */
  lemma {:induction false} FromListLastValue<K, V>(xs: seq<V>, key: V -> K)
    ensures forall i :: 0 <= i < |FromList(xs, key)| ==>
      key(FromList(xs, key)[i]) in KeySet(xs, key) &&
      FromList(xs, key)[i] == LastWithKey(xs, key, key(FromList(xs, key)[i]))
  {
    if xs != [] {
      var last := |xs| - 1;
      var init := xs[..last];
      var x := xs[last];
      var d0 := FromList(init, key);
      assert xs == init + [x];
      var d := FromList(xs, key);
      assert d == Put(d0, x, key);
      FromListLastValue(init, key);
      FromListKeys(init, key);
      PutShape(d0, x, key);
      PutUnique(d0, x, key);
      KeySetConcat(init, [x], key);
      forall i | 0 <= i < |d|
        ensures key(d[i]) in KeySet(xs, key) && d[i] == LastWithKey(xs, key, key(d[i]))
      {
        if d[i] != x {
          var j :| 0 <= j < |d0| && d0[j] == d[i];
          LastWithKeySnoc(init, x, key, key(d[i]));
        }
      }
    }
  }

  /** Without repeated keys, the dict's iteration order is the list's own order. */
  lemma {:induction false} FromListUnique<K, V>(xs: seq<V>, key: V -> K)
    requires UniqueKeys(xs, key)
    ensures FromList(xs, key) == xs
  {
    if xs != [] {
      var last := |xs| - 1;
      var init := xs[..last];
      UniqueInit(xs, key);
      FromListUnique(init, key);
      PutProperties(init, xs[last], key);
      assert init + [xs[last]] == xs;
    }
  }

  /** The index of the first element of `xs` whose key is `k`. */
  function FirstIndex<K(==), V>(xs: seq<V>, key: V -> K, k: K): (i: nat)
    requires k in KeySet(xs, key)
    ensures i < |xs| && key(xs[i]) == k
    ensures forall j :: 0 <= j < i ==> key(xs[j]) != k
  {
    if key(xs[0]) == k then 0
    else
      assert forall j :: 0 < j < |xs| ==> xs[j] == xs[1..][j - 1];
      1 + FirstIndex(xs[1..], key, k)
  }

  /** Appending an element does not move the first occurrence of a key already present. */
  lemma FirstIndexSnoc<K, V>(xs: seq<V>, x: V, key: V -> K, k: K)
    requires k in KeySet(xs, key)
    ensures k in KeySet(xs + [x], key) && FirstIndex(xs + [x], key, k) == FirstIndex(xs, key, k)
  {
    KeySetConcat(xs, [x], key);
    var a := FirstIndex(xs, key, k);
    var b := FirstIndex(xs + [x], key, k);
    assert (xs + [x])[a] == xs[a];
  }

  /** The first occurrence of a key absent from `xs` in `xs + [x]` is the appended element. */
  lemma FirstIndexNew<K, V>(xs: seq<V>, x: V, key: V -> K)
    requires key(x) !in KeySet(xs, key)
    ensures key(x) in KeySet(xs + [x], key) && FirstIndex(xs + [x], key, key(x)) == |xs|
  {
    KeySetConcat(xs, [x], key);
    assert KeySet([x], key) == {key(x)} by {
      assert [x][1..] == [];
    }
    var r := FirstIndex(xs + [x], key, key(x));
    if r < |xs| {
      assert (xs + [x])[r] == xs[r];
      KeySetMember(xs, key, key(x));
      assert false;
    }
  }

  /** The keys of `d` occur in `xs`, and in `d` in the order of their first occurrence in `xs`. */
  predicate FirstOrdered<K(==), V>(d: seq<V>, xs: seq<V>, key: V -> K) {
    (forall i :: 0 <= i < |d| ==> key(d[i]) in KeySet(xs, key)) &&
    forall i, j :: 0 <= i < j < |d| ==> FirstIndex(xs, key, key(d[i])) < FirstIndex(xs, key, key(d[j]))
  }

  /** Overwriting a key already present keeps the first-occurrence order. */
  lemma PutExistingOrdered<K, V>(d: seq<V>, xs: seq<V>, x: V, key: V -> K)
    requires FirstOrdered(d, xs, key) && KeySet(d, key) == KeySet(xs, key)
    requires key(x) in KeySet(xs, key)
    ensures FirstOrdered(Put(d, x, key), xs + [x], key)
  {
    var r := Put(d, x, key);
    PutExisting(d, x, key);
    forall i | 0 <= i < |r|
      ensures key(r[i]) == key(d[i]) && key(r[i]) in KeySet(xs + [x], key)
      ensures FirstIndex(xs + [x], key, key(r[i])) == FirstIndex(xs, key, key(d[i]))
    {
      FirstIndexSnoc(xs, x, key, key(d[i]));
    }
  }

  /** Appending a new key keeps the first-occurrence order: the new key comes last in both. */
  lemma PutNewOrdered<K, V>(d: seq<V>, xs: seq<V>, x: V, key: V -> K)
    requires FirstOrdered(d, xs, key) && KeySet(d, key) == KeySet(xs, key)
    requires key(x) !in KeySet(xs, key)
    ensures FirstOrdered(Put(d, x, key), xs + [x], key)
  {
    var r := Put(d, x, key);
    PutShape(d, x, key);
    assert r == d + [x];
    forall i | 0 <= i < |d|
      ensures key(r[i]) in KeySet(xs + [x], key)
      ensures FirstIndex(xs + [x], key, key(r[i])) == FirstIndex(xs, key, key(d[i])) < |xs|
    {
      assert r[i] == d[i];
      FirstIndexSnoc(xs, x, key, key(d[i]));
    }
    FirstIndexNew(xs, x, key);
  }

  /**
   * The dict keeps its keys in the order of their first occurrence in the list:
   * an entry before another has a key that occurs first earlier in `xs`.
   */
  lemma {:induction false} FromListFirstOrder<K, V>(xs: seq<V>, key: V -> K)
    ensures FirstOrdered(FromList(xs, key), xs, key)
  {
    if xs != [] {
      var last := |xs| - 1;
      var init := xs[..last];
      var x := xs[last];
      assert xs == init + [x];
      FromListFirstOrder(init, key);
      FromListKeys(init, key);
      if key(x) in KeySet(init, key) {
        PutExistingOrdered(FromList(init, key), init, x, key);
      } else {
        PutNewOrdered(FromList(init, key), init, x, key);
      }
    }
  }

  // ---- comprehensions over the dict ----

  /** The elements of `xs` whose key is in `ks`, in order (`[v for v in xs if key(v) in ks]`). */
  function WithKeyIn<K, V>(xs: seq<V>, key: V -> K, ks: set<K>): seq<V> {
    if xs == [] then []
    else WithKeyIn(xs[..|xs| - 1], key, ks) + (if key(xs[|xs| - 1]) in ks then [xs[|xs| - 1]] else [])
  }

  /** The elements of `xs` whose key is not in `ks`, in order (`[v for v in xs if key(v) not in ks]`). */
  function WithKeyNotIn<K, V>(xs: seq<V>, key: V -> K, ks: set<K>): seq<V> {
    if xs == [] then []
    else WithKeyNotIn(xs[..|xs| - 1], key, ks) + (if key(xs[|xs| - 1]) !in ks then [xs[|xs| - 1]] else [])
  }

  lemma {:induction false} WithKeyInProperties<K, V>(xs: seq<V>, key: V -> K, ks: set<K>)
    ensures |WithKeyIn(xs, key, ks)| <= |xs|
    ensures forall i :: 0 <= i < |WithKeyIn(xs, key, ks)| ==>
      WithKeyIn(xs, key, ks)[i] in xs && key(WithKeyIn(xs, key, ks)[i]) in ks
    ensures forall i :: 0 <= i < |xs| && key(xs[i]) in ks ==> xs[i] in WithKeyIn(xs, key, ks)
    ensures KeySet(WithKeyIn(xs, key, ks), key) == KeySet(xs, key) * ks
    ensures UniqueKeys(xs, key) ==> UniqueKeys(WithKeyIn(xs, key, ks), key)
  {
    if xs != [] {
      var last := |xs| - 1;
      var init := WithKeyIn(xs[..last], key, ks);
      var tail := if key(xs[last]) in ks then [xs[last]] else [];
      assert xs == xs[..last] + [xs[last]];
      WithKeyInProperties(xs[..last], key, ks);
      var r := WithKeyIn(xs, key, ks);
      assert r == init + tail;
      forall i | 0 <= i < |r| ensures r[i] in xs && key(r[i]) in ks {
        if i < |init| {
          assert r[i] == init[i];
        }
      }
      forall i | 0 <= i < |xs| && key(xs[i]) in ks ensures xs[i] in r {
        if i < last {
          assert xs[..last][i] == xs[i];
        }
      }
      assert KeySet(r, key) == KeySet(xs, key) * ks by {
        assert KeySet([xs[last]], key) == {key(xs[last])} by {
          assert [xs[last]][1..] == [];
        }
        assert KeySet(tail, key) == if key(xs[last]) in ks then {key(xs[last])} else {};
        KeySetConcat(xs[..last], [xs[last]], key);
        KeySetConcat(init, tail, key);
      }
      if UniqueKeys(xs, key) {
        UniqueInit(xs, key);
        if tail != [] {
          UniqueSnoc(init, xs[last], key);
        }
      }
    }
  }

  lemma {:induction false} WithKeyNotInProperties<K, V>(xs: seq<V>, key: V -> K, ks: set<K>)
    ensures |WithKeyNotIn(xs, key, ks)| <= |xs|
    ensures forall i :: 0 <= i < |WithKeyNotIn(xs, key, ks)| ==>
      WithKeyNotIn(xs, key, ks)[i] in xs && key(WithKeyNotIn(xs, key, ks)[i]) !in ks
    ensures forall i :: 0 <= i < |xs| && key(xs[i]) !in ks ==> xs[i] in WithKeyNotIn(xs, key, ks)
    ensures KeySet(WithKeyNotIn(xs, key, ks), key) == KeySet(xs, key) - ks
    ensures UniqueKeys(xs, key) ==> UniqueKeys(WithKeyNotIn(xs, key, ks), key)
  {
    if xs != [] {
      var last := |xs| - 1;
      var init := WithKeyNotIn(xs[..last], key, ks);
      var tail := if key(xs[last]) !in ks then [xs[last]] else [];
      assert xs == xs[..last] + [xs[last]];
      WithKeyNotInProperties(xs[..last], key, ks);
      var r := WithKeyNotIn(xs, key, ks);
      assert r == init + tail;
      forall i | 0 <= i < |r| ensures r[i] in xs && key(r[i]) !in ks {
        if i < |init| {
          assert r[i] == init[i];
        }
      }
      forall i | 0 <= i < |xs| && key(xs[i]) !in ks ensures xs[i] in r {
        if i < last {
          assert xs[..last][i] == xs[i];
        }
      }
      assert KeySet(r, key) == KeySet(xs, key) - ks by {
        assert KeySet([xs[last]], key) == {key(xs[last])} by {
          assert [xs[last]][1..] == [];
        }
        assert KeySet(tail, key) == if key(xs[last]) !in ks then {key(xs[last])} else {};
        KeySetConcat(xs[..last], [xs[last]], key);
        KeySetConcat(init, tail, key);
      }
      if UniqueKeys(xs, key) {
        UniqueInit(xs, key);
        if tail != [] {
          UniqueSnoc(init, xs[last], key);
        }
      }
    }
  }

  /** Membership in a filter, one value at a time. */
  lemma WithKeyInMember<K, V>(xs: seq<V>, key: V -> K, ks: set<K>, v: V)
    ensures v in WithKeyIn(xs, key, ks) <==> v in xs && key(v) in ks
  {
    var r := WithKeyIn(xs, key, ks);
    WithKeyInProperties(xs, key, ks);
    if v in xs && key(v) in ks {
      var i :| 0 <= i < |xs| && xs[i] == v;
    }
    if v in r {
      var i :| 0 <= i < |r| && r[i] == v;
    }
  }

  lemma WithKeyNotInMember<K, V>(xs: seq<V>, key: V -> K, ks: set<K>, v: V)
    ensures v in WithKeyNotIn(xs, key, ks) <==> v in xs && key(v) !in ks
  {
    var r := WithKeyNotIn(xs, key, ks);
    WithKeyNotInProperties(xs, key, ks);
    if v in xs && key(v) !in ks {
      var i :| 0 <= i < |xs| && xs[i] == v;
    }
    if v in r {
      var i :| 0 <= i < |r| && r[i] == v;
    }
  }

  /** One more step of the comprehension: the filter of a prefix grows by the next element or not at all. */
  lemma WithKeyInStep<K, V>(xs: seq<V>, i: int, key: V -> K, ks: set<K>)
    requires 0 <= i < |xs|
    ensures WithKeyIn(xs[..i + 1], key, ks)
         == WithKeyIn(xs[..i], key, ks) + (if key(xs[i]) in ks then [xs[i]] else [])
  {
    assert xs[..i + 1][..i] == xs[..i];
  }

  lemma WithKeyNotInStep<K, V>(xs: seq<V>, i: int, key: V -> K, ks: set<K>)
    requires 0 <= i < |xs|
    ensures WithKeyNotIn(xs[..i + 1], key, ks)
         == WithKeyNotIn(xs[..i], key, ks) + (if key(xs[i]) !in ks then [xs[i]] else [])
  {
    assert xs[..i + 1][..i] == xs[..i];
  }

  /** The filter keeps everything when every key qualifies. */
  lemma {:induction false} WithKeyInAll<K, V>(xs: seq<V>, key: V -> K, ks: set<K>)
    requires KeySet(xs, key) <= ks
    ensures WithKeyIn(xs, key, ks) == xs
  {
    if xs != [] {
      var last := |xs| - 1;
      KeySetConcat(xs[..last], [xs[last]], key);
      assert xs == xs[..last] + [xs[last]];
      WithKeyInAll(xs[..last], key, ks);
    }
  }

  lemma {:induction false} WithKeyNotInNone<K, V>(xs: seq<V>, key: V -> K, ks: set<K>)
    requires KeySet(xs, key) <= ks
    ensures WithKeyNotIn(xs, key, ks) == []
  {
    if xs != [] {
      var last := |xs| - 1;
      KeySetConcat(xs[..last], [xs[last]], key);
      assert xs == xs[..last] + [xs[last]];
      WithKeyNotInNone(xs[..last], key, ks);
    }
  }
}
