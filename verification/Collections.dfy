/** Witnesses for members of sets and values of maps. */
module Collections {
  lemma Member<T>(s: set<T>) returns (x: T)
    requires s != {}
    ensures x in s
  {
    x :| x in s;
  }

  lemma KeyOf<K, V>(m: map<K, V>, value: V) returns (key: K)
    requires value in m.Values
    ensures key in m && m[key] == value
  {
    key :| key in m && m[key] == value;
  }
}
