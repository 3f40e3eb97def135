/** PHP arrays with string keys, as the settings importer builds them: an
    insertion-ordered list of key/value pairs. Iteration order is the list
    order, so two arrays are `===` exactly when the lists are equal. */
module PhpArray {
  import opened Optional

  datatype Entry<V> = Entry(key: string, value: V)

  /** The keys in iteration order. */
  function Keys<V>(m: seq<Entry<V>>): seq<string>
  {
    if m == [] then [] else [m[0].key] + Keys(m[1..])
  }

  /** No key occurs twice: the shape every PHP array has. */
  predicate Distinct<V>(m: seq<Entry<V>>)
  {
    m == [] || (m[0].key !in Keys(m[1..]) && Distinct(m[1..]))
  }

  /** No key of `b` occurs in `a`. */
  predicate Disjoint<V>(a: seq<Entry<V>>, b: seq<Entry<V>>)
  {
    forall k :: k in Keys(b) ==> k !in Keys(a)
  }

  /** `$m[$k]`, or `None` when `isset` would fail. */
  function Get<V>(m: seq<Entry<V>>, k: string): (r: Option<V>)
    ensures r.None? <==> k !in Keys(m)
  {
    if m == [] then None
    else if m[0].key == k then Some(m[0].value)
    else Get(m[1..], k)
  }

  /** `$m[$k] = $v`: an existing key keeps its position and takes the new
      value; a new key is appended. */
  function Put<V>(m: seq<Entry<V>>, k: string, v: V): (r: seq<Entry<V>>)
    ensures Get(r, k) == Some(v)
    ensures forall k' :: k' != k ==> Get(r, k') == Get(m, k')
    ensures k in Keys(m) ==> Keys(r) == Keys(m)
    ensures k !in Keys(m) ==> r == m + [Entry(k, v)]
    ensures |r| <= |m| + 1
  {
    if m == [] then [Entry(k, v)]
    else if m[0].key == k then [Entry(k, v)] + m[1..]
    else [m[0]] + Put(m[1..], k, v)
  }

  lemma {:induction false} KeysAppend<V>(a: seq<Entry<V>>, b: seq<Entry<V>>)
    ensures Keys(a + b) == Keys(a) + Keys(b)
  {
    if a == [] {
      assert a + b == b;
    } else {
      assert (a + b)[1..] == a[1..] + b;
      KeysAppend(a[1..], b);
    }
  }

  /** Concatenating arrays with disjoint key sets keeps every key unique. */
  lemma {:induction false} DistinctAppend<V>(a: seq<Entry<V>>, b: seq<Entry<V>>)
    requires Distinct(a) && Distinct(b) && Disjoint(a, b)
    ensures Distinct(a + b)
  {
    if a == [] {
      assert a + b == b;
    } else {
      assert (a + b)[1..] == a[1..] + b;
      assert Keys(a) == [a[0].key] + Keys(a[1..]);
      DistinctAppend(a[1..], b);
      KeysAppend(a[1..], b);
    }
  }

  /** Putting a key into an array with unique keys keeps them unique. */
  lemma PutDistinct<V>(m: seq<Entry<V>>, k: string, v: V)
    requires Distinct(m)
    ensures Distinct(Put(m, k, v))
  {
    if k !in Keys(m) {
      KeysAppend(m, [Entry(k, v)]);
      DistinctAppend(m, [Entry(k, v)]);
    } else {
      PutDistinctInPlace(m, k, v);
    }
  }

  lemma {:induction false} PutDistinctInPlace<V>(m: seq<Entry<V>>, k: string, v: V)
    requires Distinct(m) && k in Keys(m)
    ensures Distinct(Put(m, k, v))
  {
    if m[0].key != k {
      PutDistinctInPlace(m[1..], k, v);
      assert Put(m, k, v)[1..] == Put(m[1..], k, v);
    } else {
      assert Put(m, k, v)[1..] == m[1..];
    }
  }

  /** `array_merge($a, $b)` for string keys: the entries of `b` are put into
      `a` one by one, left to right. */
  function Merge<V>(a: seq<Entry<V>>, b: seq<Entry<V>>): (r: seq<Entry<V>>)
    ensures forall k :: k !in Keys(b) ==> Get(r, k) == Get(a, k)
    ensures forall k :: k in Keys(b) ==> k in Keys(r)
    ensures |r| <= |a| + |b|
    decreases |b|
  {
    if b == [] then a
    else Merge(Put(a, b[0].key, b[0].value), b[1..])
  }

  /** Merging arrays with unique keys keeps them unique. */
  lemma {:induction false} MergeDistinct<V>(a: seq<Entry<V>>, b: seq<Entry<V>>)
    requires Distinct(a)
    ensures Distinct(Merge(a, b))
    decreases |b|
  {
    if b != [] {
      PutDistinct(a, b[0].key, b[0].value);
      MergeDistinct(Put(a, b[0].key, b[0].value), b[1..]);
    }
  }

  /** When no key of `b` is already in `a`, `array_merge` is plain
      concatenation. */
  lemma {:induction false} MergeDisjoint<V>(a: seq<Entry<V>>, b: seq<Entry<V>>)
    requires Distinct(b) && Disjoint(a, b)
    ensures Merge(a, b) == a + b
    decreases |b|
  {
    if b == [] {
      assert a + b == a;
    } else {
      assert (a + [b[0]]) + b[1..] == a + b by {
        assert b == [b[0]] + b[1..];
      }
      MergeStep(a, b);
      MergeDisjoint(a + [b[0]], b[1..]);
    }
  }

  /** One step of `MergeDisjoint`: the first entry of `b` is appended, and the
      rest of `b` stays disjoint from the grown array. */
  lemma MergeStep<V>(a: seq<Entry<V>>, b: seq<Entry<V>>)
    requires b != [] && Distinct(b) && Disjoint(a, b)
    ensures Put(a, b[0].key, b[0].value) == a + [b[0]]
    ensures Distinct(b[1..]) && Disjoint(a + [b[0]], b[1..])
  {
    assert Keys(b) == [b[0].key] + Keys(b[1..]);
    KeysAppend(a, [b[0]]);
    assert Keys(a + [b[0]]) == Keys(a) + [b[0].key];
  }
}
