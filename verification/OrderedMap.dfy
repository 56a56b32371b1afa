/** A BTreeMap with string keys: its entries in key order. */
module OrderedMap {
  import opened Wrappers

  datatype Entry<V> = Entry(key: string, value: V)

  /** Character by character, as Rust compares strings. */
  predicate Less(a: string, b: string) {
    b != [] && (a == [] || a[0] < b[0] || (a[0] == b[0] && Less(a[1..], b[1..])))
  }

  predicate Sorted<V>(m: seq<Entry<V>>) {
    forall i, j :: 0 <= i < j < |m| ==> Less(m[i].key, m[j].key)
  }

  function Insert<V>(m: seq<Entry<V>>, key: string, value: V): seq<Entry<V>> {
    if m == [] then [Entry(key, value)]
    else if m[0].key == key then [Entry(key, value)] + m[1..]
    else if Less(key, m[0].key) then [Entry(key, value)] + m
    else [m[0]] + Insert(m[1..], key, value)
  }

  function Lookup<V>(m: seq<Entry<V>>, key: string): Option<V> {
    if m == [] then None
    else if m[0].key == key then Some(m[0].value)
    else Lookup(m[1..], key)
  }

  lemma {:induction false} LessIsStrict(a: string)
    ensures !Less(a, a)
  {
    if a != [] {
      LessIsStrict(a[1..]);
    }
  }

  lemma {:induction false} LessIsTotal(a: string, b: string)
    ensures a == b || Less(a, b) || Less(b, a)
  {
    if a != [] && b != [] && a[0] == b[0] {
      LessIsTotal(a[1..], b[1..]);
      if a[1..] == b[1..] {
        assert a == [a[0]] + a[1..];
        assert b == [b[0]] + b[1..];
      }
    }
  }

  lemma {:induction false} LessIsTransitive(a: string, b: string, c: string)
    requires Less(a, b) && Less(b, c)
    ensures Less(a, c)
  {
    if a != [] && a[0] == b[0] && b[0] == c[0] {
      LessIsTransitive(a[1..], b[1..], c[1..]);
    }
  }

  lemma {:induction false} LookupOutside<V>(m: seq<Entry<V>>, key: string)
    requires forall i :: 0 <= i < |m| ==> m[i].key != key
    ensures Lookup(m, key) == None
  {
    if m != [] {
      LookupOutside(m[1..], key);
    }
  }

  /** An insert changes the value of its own key and of no other. */
  lemma {:induction false} LookupInsert<V>(m: seq<Entry<V>>, key: string, value: V, other: string)
    ensures Lookup(Insert(m, key, value), other) == if other == key then Some(value) else Lookup(m, other)
  {
    if m != [] && m[0].key != key {
      LookupInsert(m[1..], key, value, other);
    }
  }

  lemma {:induction false} InsertedKeys<V>(m: seq<Entry<V>>, key: string, value: V, i: nat)
    requires i < |Insert(m, key, value)|
    ensures Insert(m, key, value)[i].key == key || exists j :: 0 <= j < |m| && m[j].key == Insert(m, key, value)[i].key
  {
    if m != [] {
      var r := Insert(m, key, value);
      if m[0].key == key {
        assert i > 0 ==> r[i] == m[i];
      } else if Less(key, m[0].key) {
        assert i > 0 ==> r[i] == m[i - 1];
      } else if i > 0 {
        assert r[i] == Insert(m[1..], key, value)[i - 1];
        InsertedKeys(m[1..], key, value, i - 1);
        if r[i].key != key {
          var j :| 0 <= j < |m[1..]| && m[1..][j].key == r[i].key;
          assert m[j + 1].key == r[i].key;
        }
      }
    }
  }

  lemma {:induction false} InsertKeepsSorted<V>(m: seq<Entry<V>>, key: string, value: V)
    requires Sorted(m)
    ensures Sorted(Insert(m, key, value))
  {
    if m != [] {
      var tail := m[1..];
      LessIsTotal(key, m[0].key);
      if m[0].key == key {
      } else if Less(key, m[0].key) {
        forall j | 0 <= j < |m| ensures Less(key, m[j].key) {
          if j > 0 {
            LessIsTransitive(key, m[0].key, m[j].key);
          }
        }
      } else {
        InsertKeepsSorted(tail, key, value);
        forall j | 0 <= j < |Insert(tail, key, value)| ensures Less(m[0].key, Insert(tail, key, value)[j].key) {
          InsertedKeys(tail, key, value, j);
        }
      }
    }
  }
}
