/** Rows of one store under native keys, and the batches of changes that commits apply. */
module KeyedRows {
  import opened Outcomes
  import opened Bytes

  datatype Change<V> = Put(key: Key, value: V) | Delete(key: Key)

  function Get<V>(store: map<Key, V>, k: Key): Option<V> {
    if k in store then Some(store[k]) else None
  }

  function Apply<V>(store: map<Key, V>, c: Change<V>): map<Key, V> {
    match c
    case Put(k, v) => store[k := v]
    case Delete(k) => store - {k}
  }

  function ApplyAll<V>(store: map<Key, V>, changes: seq<Change<V>>): map<Key, V> {
    if changes == [] then store else Apply(ApplyAll(store, changes[..|changes| - 1]), changes[|changes| - 1])
  }

  lemma ApplyAppend<V>(store: map<Key, V>, changes: seq<Change<V>>, c: Change<V>)
    ensures ApplyAll(store, changes + [c]) == Apply(ApplyAll(store, changes), c)
  {
    assert (changes + [c])[..|changes|] == changes;
  }

  lemma {:induction false} ApplyAllConcat<V>(store: map<Key, V>, a: seq<Change<V>>, b: seq<Change<V>>)
    ensures ApplyAll(store, a + b) == ApplyAll(ApplyAll(store, a), b)
    decreases |b|
  {
    if b == [] {
      assert a + b == a;
    } else {
      assert (a + b)[..|a + b| - 1] == a + b[..|b| - 1];
      ApplyAllConcat(store, a, b[..|b| - 1]);
    }
  }
}
