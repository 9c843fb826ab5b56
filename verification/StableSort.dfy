/** Python's stable sort by a numeric key. */
module StableSort {

  datatype Keyed<T> = Keyed(key: real, item: T)

  ghost predicate SortedByKey<T>(s: seq<Keyed<T>>) {
    forall i, j :: 0 <= i < j < |s| ==> s[i].key <= s[j].key
  }

  /** x goes before everything whose key is not smaller: it came first. */
  function Insert<T>(x: Keyed<T>, s: seq<Keyed<T>>): seq<Keyed<T>> {
    if s == [] then [x]
    else if x.key <= s[0].key then [x] + s
    else [s[0]] + Insert(x, s[1..])
  }

  function Sort<T>(s: seq<Keyed<T>>): seq<Keyed<T>> {
    if s == [] then [] else Insert(s[0], Sort(s[1..]))
  }

  lemma {:induction false} InsertKeeps<T>(x: Keyed<T>, s: seq<Keyed<T>>)
    ensures multiset(Insert(x, s)) == multiset(s) + multiset{x}
  {
    if s != [] && x.key > s[0].key {
      InsertKeeps(x, s[1..]);
      assert s == [s[0]] + s[1..];
    }
  }

  lemma {:induction false} InsertSorts<T>(x: Keyed<T>, s: seq<Keyed<T>>)
    requires SortedByKey(s)
    ensures SortedByKey(Insert(x, s))
  {
    if s != [] && x.key > s[0].key {
      var rest := Insert(x, s[1..]);
      InsertSorts(x, s[1..]);
      InsertKeeps(x, s[1..]);
      forall i | 0 <= i < |rest| ensures s[0].key <= rest[i].key {
        assert rest[i] in multiset(rest);
        assert rest[i] == x || rest[i] in s[1..];
      }
    }
  }

  lemma {:induction false} SortSorts<T>(s: seq<Keyed<T>>)
    ensures SortedByKey(Sort(s)) && multiset(Sort(s)) == multiset(s) && |Sort(s)| == |s|
  {
    if s != [] {
      SortSorts(s[1..]);
      InsertSorts(s[0], Sort(s[1..]));
      InsertKeeps(s[0], Sort(s[1..]));
      assert s == [s[0]] + s[1..];
      assert |multiset(Sort(s))| == |multiset(s)|;
    }
  }

  /** The items with one key, in order. */
  function WithKey<T>(s: seq<Keyed<T>>, key: real): seq<T> {
    if s == [] then [] else (if s[0].key == key then [s[0].item] else []) + WithKey(s[1..], key)
  }

  lemma {:induction false} InsertStable<T>(x: Keyed<T>, s: seq<Keyed<T>>, key: real)
    requires SortedByKey(s)
    ensures WithKey(Insert(x, s), key) == (if x.key == key then [x.item] else []) + WithKey(s, key)
  {
    if s != [] && x.key > s[0].key {
      InsertStable(x, s[1..], key);
    } else {
      assert ([x] + s)[1..] == s;
    }
  }

  /** Stability: items with equal keys keep their order. */
  lemma {:induction false} SortStable<T>(s: seq<Keyed<T>>, key: real)
    ensures WithKey(Sort(s), key) == WithKey(s, key)
  {
    if s != [] {
      SortStable(s[1..], key);
      SortSorts(s[1..]);
      InsertStable(s[0], Sort(s[1..]), key);
    }
  }
}
