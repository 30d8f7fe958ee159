/**
 * java.util.TreeMap<String, V> as the container uses it: `put` and iteration in ascending
 * key order. The map is kept as its own iteration sequence: entries strictly sorted by key.
 */
module TreeMaps {
  import opened JavaStrings

  datatype Entry<V> = Entry(key: string, value: V)

  /** Keys strictly ascending in String.compareTo order, hence pairwise distinct. */
  predicate StrictlySorted<V>(es: seq<Entry<V>>)
  {
    forall i, j :: 0 <= i < j < |es| ==> Less(es[i].key, es[j].key)
  }

  /** The key-to-value mapping that a sequence of entries stands for. */
  function ToMap<V>(es: seq<Entry<V>>): map<string, V>
    decreases |es|
  {
    if es == [] then map[] else ToMap(es[1..])[es[0].key := es[0].value]
  }

  lemma ToMapCons<V>(x: Entry<V>, rest: seq<Entry<V>>)
    ensures ToMap([x] + rest) == ToMap(rest)[x.key := x.value]
  {
    assert ([x] + rest)[1..] == rest;
  }

  /** An entry whose key precedes every key of a sorted sequence may be put in front of it. */
  lemma ConsSorted<V>(x: Entry<V>, rest: seq<Entry<V>>)
    requires StrictlySorted(rest)
    requires forall e :: e in rest ==> Less(x.key, e.key)
    ensures StrictlySorted([x] + rest)
  {
    forall i, j | 0 <= i < j < |[x] + rest| ensures Less(([x] + rest)[i].key, ([x] + rest)[j].key) {
      if i > 0 {
        assert ([x] + rest)[i] == rest[i - 1] && ([x] + rest)[j] == rest[j - 1];
      } else {
        assert ([x] + rest)[j] == rest[j - 1] && rest[j - 1] in rest;
      }
    }
  }

  /** TreeMap.put: insert at the key's place, or replace the value of an existing key in place. */
  function Put<V>(es: seq<Entry<V>>, k: string, v: V): (r: seq<Entry<V>>)
    requires StrictlySorted(es)
    ensures StrictlySorted(r)
    ensures ToMap(r) == ToMap(es)[k := v]
    ensures forall e :: e in r ==> e == Entry(k, v) || e in es
    decreases |es|
  {
    if es == [] then [Entry(k, v)]
    else if es[0].key == k then
      PutReplace(es, k, v);
      [Entry(k, v)] + es[1..]
    else if Less(k, es[0].key) then
      PutFront(es, k, v);
      [Entry(k, v)] + es
    else
      LessTotal(k, es[0].key);
      var rest := Put(es[1..], k, v);
      PutBehind(es, k, v, rest);
      [es[0]] + rest
  }

  lemma PutReplace<V>(es: seq<Entry<V>>, k: string, v: V)
    requires StrictlySorted(es) && es != [] && es[0].key == k
    ensures StrictlySorted([Entry(k, v)] + es[1..])
    ensures ToMap([Entry(k, v)] + es[1..]) == ToMap(es)[k := v]
  {
    ToMapCons(Entry(k, v), es[1..]);
    var m := ToMap(es[1..]);
    assert ToMap(es) == m[k := es[0].value];
    assert m[k := es[0].value][k := v] == m[k := v];
    forall e | e in es[1..] ensures Less(k, e.key) {
      var j :| 0 <= j < |es[1..]| && es[1..][j] == e;
      assert es[j + 1] == e;
    }
    ConsSorted(Entry(k, v), es[1..]);
  }

  lemma PutFront<V>(es: seq<Entry<V>>, k: string, v: V)
    requires StrictlySorted(es) && es != [] && Less(k, es[0].key)
    ensures StrictlySorted([Entry(k, v)] + es)
    ensures ToMap([Entry(k, v)] + es) == ToMap(es)[k := v]
  {
    ToMapCons(Entry(k, v), es);
    forall e | e in es ensures Less(k, e.key) {
      var j :| 0 <= j < |es| && es[j] == e;
      if j > 0 {
        LessTransitive(k, es[0].key, es[j].key);
      }
    }
    ConsSorted(Entry(k, v), es);
  }

  lemma PutBehind<V>(es: seq<Entry<V>>, k: string, v: V, rest: seq<Entry<V>>)
    requires StrictlySorted(es) && es != [] && Less(es[0].key, k)
    requires StrictlySorted(rest)
    requires ToMap(rest) == ToMap(es[1..])[k := v]
    requires forall e :: e in rest ==> e == Entry(k, v) || e in es[1..]
    ensures StrictlySorted([es[0]] + rest)
    ensures ToMap([es[0]] + rest) == ToMap(es)[k := v]
    ensures forall e :: e in [es[0]] + rest ==> e == Entry(k, v) || e in es
  {
    ToMapCons(es[0], rest);
    ToMapCons(es[0], es[1..]);
    assert es == [es[0]] + es[1..];
    LessAsymmetric(es[0].key, k);
    var m := ToMap(es[1..]);
    assert m[k := v][es[0].key := es[0].value] == m[es[0].key := es[0].value][k := v];
    forall e | e in rest ensures Less(es[0].key, e.key) {
      if e != Entry(k, v) {
        var j :| 0 <= j < |es[1..]| && es[1..][j] == e;
        assert es[j + 1] == e;
      }
    }
    ConsSorted(es[0], rest);
  }

  lemma {:induction false} ToMapKeys<V>(es: seq<Entry<V>>, k: string)
    ensures k in ToMap(es) <==> exists i :: 0 <= i < |es| && es[i].key == k
    decreases |es|
  {
    if es != [] {
      ToMapKeys(es[1..], k);
      if k in ToMap(es[1..]) {
        var i :| 0 <= i < |es[1..]| && es[1..][i].key == k;
        assert es[i + 1].key == k;
      }
      forall i | 1 <= i < |es| && es[i].key == k ensures k in ToMap(es[1..]) {
        assert es[1..][i - 1].key == k;
      }
    }
  }

  /** In a sorted sequence the first entry's key is missing from the rest. */
  lemma ToMapTail<V>(es: seq<Entry<V>>)
    requires StrictlySorted(es) && es != []
    ensures es[0].key !in ToMap(es[1..])
    ensures ToMap(es[1..]) == ToMap(es) - {es[0].key}
  {
    ToMapKeys(es[1..], es[0].key);
    if es[0].key in ToMap(es[1..]) {
      var i :| 0 <= i < |es[1..]| && es[1..][i].key == es[0].key;
      assert Less(es[0].key, es[i + 1].key);
      LessIrreflexive(es[0].key);
    }
  }

  /** Every entry of a sorted sequence is what the map holds for its key. */
  lemma {:induction false} ToMapAt<V>(es: seq<Entry<V>>, i: nat)
    requires StrictlySorted(es) && i < |es|
    ensures es[i].key in ToMap(es) && ToMap(es)[es[i].key] == es[i].value
    decreases i
  {
    if i > 0 {
      ToMapAt(es[1..], i - 1);
      assert es[1..][i - 1] == es[i];
      assert Less(es[0].key, es[i].key);
      LessIrreflexive(es[0].key);
    }
  }

  /** A sorted sequence has one entry per key of its map. */
  lemma {:induction false} ToMapSize<V>(es: seq<Entry<V>>)
    requires StrictlySorted(es)
    ensures |ToMap(es)| == |es|
    decreases |es|
  {
    if es != [] {
      ToMapTail(es);
      ToMapSize(es[1..]);
    }
  }

  /**
   * The iteration order of a TreeMap depends on its contents only: two sorted
   * sequences with the same mapping are the same sequence.
   */
  lemma {:induction false} SortedDetermined<V>(a: seq<Entry<V>>, b: seq<Entry<V>>)
    requires StrictlySorted(a) && StrictlySorted(b)
    requires ToMap(a) == ToMap(b)
    ensures a == b
    decreases |a|
  {
    if a == [] || b == [] {
      ToMapSize(a);
      ToMapSize(b);
    } else {
      ToMapKeys(b, a[0].key);
      ToMapKeys(a, b[0].key);
      var j :| 0 <= j < |b| && b[j].key == a[0].key;
      var i :| 0 <= i < |a| && a[i].key == b[0].key;
      if j > 0 {
        assert Less(b[0].key, a[0].key);
        if i > 0 {
          assert Less(a[0].key, b[0].key);
          LessAsymmetric(a[0].key, b[0].key);
        } else {
          LessIrreflexive(a[0].key);
        }
      }
      assert a[0].key == b[0].key;
      assert a[0] == b[0];
      ToMapTail(a);
      ToMapTail(b);
      SortedDetermined(a[1..], b[1..]);
      assert a == [a[0]] + a[1..] && b == [b[0]] + b[1..];
    }
  }
}
