/** Ordered maps with byte-string keys (Rust's BTreeMap), as their entries in key order. */
module SortedMap {
  import opened Bytes

  datatype Entry<+V> = Entry(key: seq<byte>, value: V)

  predicate Increasing<V>(es: seq<Entry<V>>)
  {
    forall i, j :: 0 <= i < j < |es| ==> LexLess(es[i].key, es[j].key)
  }

  function Insert<V>(es: seq<Entry<V>>, key: seq<byte>, value: V): seq<Entry<V>>
  {
    if es == [] then [Entry(key, value)]
    else if es[0].key == key then [Entry(key, value)] + es[1..]
    else if LexLess(key, es[0].key) then [Entry(key, value)] + es
    else [es[0]] + Insert(es[1..], key, value)
  }

  /** Insertion binds the key, keeps every other binding, and adds no other. */
  lemma {:induction false} InsertMembers<V>(es: seq<Entry<V>>, key: seq<byte>, value: V, e: Entry<V>)
    requires Increasing(es)
    ensures e in Insert(es, key, value) <==> e == Entry(key, value) || (e in es && e.key != key)
    decreases |es|
  {
    if es != [] {
      assert es == [es[0]] + es[1..];
      LexTotal(key, es[0].key);
      if es[0].key == key || LexLess(key, es[0].key) {
        forall j | 0 < j < |es|
          ensures es[j].key != key
        {
          LexTotal(es[0].key, es[j].key);
        }
      } else {
        InsertMembers(es[1..], key, value, e);
        LexTotal(es[0].key, key);
      }
    }
  }

  lemma {:induction false} InsertKeepsOrder<V>(es: seq<Entry<V>>, key: seq<byte>, value: V)
    requires Increasing(es)
    ensures Increasing(Insert(es, key, value))
    decreases |es|
  {
    if es != [] {
      var tail := es[1..];
      LexTotal(key, es[0].key);
      if LexLess(key, es[0].key) {
        forall j | 0 < j < |es|
          ensures LexLess(key, es[j].key)
        {
          LexTransitive(key, es[0].key, es[j].key);
        }
      } else if es[0].key != key {
        InsertKeepsOrder(tail, key, value);
        forall j | 0 <= j < |Insert(tail, key, value)|
          ensures LexLess(es[0].key, Insert(tail, key, value)[j].key)
        {
          InsertMembers(tail, key, value, Insert(tail, key, value)[j]);
        }
      }
    }
  }

  /** A key above all others goes last. */
  lemma {:induction false} InsertLast<V>(es: seq<Entry<V>>, key: seq<byte>, value: V)
    requires forall i :: 0 <= i < |es| ==> LexLess(es[i].key, key)
    ensures Insert(es, key, value) == es + [Entry(key, value)]
    decreases |es|
  {
    if es != [] {
      LexTotal(es[0].key, key);
      InsertLast(es[1..], key, value);
      assert es == [es[0]] + es[1..];
    }
  }
}
