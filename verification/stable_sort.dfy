/** The stable sort the normalizer orders its lists by, and what characterizes it. */
module StableSort {
  import opened ApiValue

  predicate AtMost(a: string, b: string) {
    a == [] || (b != [] && (a[0] < b[0] || (a[0] == b[0] && AtMost(a[1..], b[1..]))))
  }

  lemma {:induction false} Total(a: string, b: string)
    ensures AtMost(a, b) || AtMost(b, a)
    decreases |a|
  {
    if a != [] && b != [] && a[0] == b[0] { Total(a[1..], b[1..]); }
  }

  /** Lists are ordered by the text of their items, or by the text of one field of each. */
  datatype Key = ByText | ByField(name: string)

  function KeyOf(key: Key, v: Value): string {
    match key case ByText => v.text case ByField(name) => At(v, name).text
  }

  function Insert(key: Key, s: seq<Value>, x: Value): (r: seq<Value>)
    ensures multiset(r) == multiset(s) + multiset{x}
  {
    if s == [] then [x]
    else
      var front, last := s[..|s| - 1], s[|s| - 1];
      assert s == front + [last];
      if AtMost(KeyOf(key, last), KeyOf(key, x)) then s + [x] else Insert(key, front, x) + [last]
  }

  function Sort(key: Key, s: seq<Value>): (r: seq<Value>)
    ensures multiset(r) == multiset(s)
  {
    if s == [] then []
    else
      assert s == s[..|s| - 1] + [s[|s| - 1]];
      Insert(key, Sort(key, s[..|s| - 1]), s[|s| - 1])
  }

  predicate Sorted(key: Key, s: seq<Value>) {
    |s| < 2 || (Sorted(key, s[..|s| - 1]) && AtMost(KeyOf(key, s[|s| - 2]), KeyOf(key, s[|s| - 1])))
  }

  lemma {:induction false} InsertLast(key: Key, s: seq<Value>, x: Value)
    requires s != []
    ensures Insert(key, s, x) != []
    ensures var last := Insert(key, s, x)[|Insert(key, s, x)| - 1]; last == x || last == s[|s| - 1]
  {
  }

  lemma SortedSnoc(key: Key, s: seq<Value>, x: Value)
    requires Sorted(key, s) && (s == [] || AtMost(KeyOf(key, s[|s| - 1]), KeyOf(key, x)))
    ensures Sorted(key, s + [x])
  {
    assert (s + [x])[..|s|] == s;
  }

  lemma {:induction false} InsertSorted(key: Key, s: seq<Value>, x: Value)
    requires Sorted(key, s)
    ensures Sorted(key, Insert(key, s, x))
  {
    if s == [] || AtMost(KeyOf(key, s[|s| - 1]), KeyOf(key, x)) {
      SortedSnoc(key, s, x);
    } else {
      var front, last := s[..|s| - 1], s[|s| - 1];
      InsertSorted(key, front, x);
      Total(KeyOf(key, x), KeyOf(key, last));
      if front != [] { InsertLast(key, front, x); }
      SortedSnoc(key, Insert(key, front, x), last);
    }
  }

  lemma {:induction false} SortSorted(key: Key, s: seq<Value>)
    ensures Sorted(key, Sort(key, s))
  {
    if s != [] {
      SortSorted(key, s[..|s| - 1]);
      InsertSorted(key, Sort(key, s[..|s| - 1]), s[|s| - 1]);
    }
  }

  /** A sorted list stays as it is. */
  lemma {:induction false} SortFixes(key: Key, s: seq<Value>)
    requires Sorted(key, s)
    ensures Sort(key, s) == s
  {
    if s != [] {
      var front := s[..|s| - 1];
      assert s == front + [s[|s| - 1]];
      if |s| > 1 { SortFixes(key, front); }
    }
  }

  /** The items of one key, in the order the list has them. */
  function OfKey(key: Key, s: seq<Value>, k: string): seq<Value> {
    if s == [] then []
    else OfKey(key, s[..|s| - 1], k) + One(key, s[|s| - 1], k)
  }

  lemma OfKeySnoc(key: Key, s: seq<Value>, x: Value, k: string)
    ensures OfKey(key, s + [x], k) == OfKey(key, s, k) + One(key, x, k)
  {
    assert (s + [x])[..|s|] == s;
  }

  lemma {:induction false} AtMostSelf(a: string)
    ensures AtMost(a, a)
  {
    if a != [] { AtMostSelf(a[1..]); }
  }

  function One(key: Key, x: Value, k: string): seq<Value> {
    if KeyOf(key, x) == k then [x] else []
  }

  lemma Swap(a: seq<Value>, x: seq<Value>, y: seq<Value>)
    requires x == [] || y == []
    ensures (a + x) + y == (a + y) + x
  {
  }

  lemma {:induction false} InsertStable(key: Key, s: seq<Value>, x: Value, k: string)
    ensures OfKey(key, Insert(key, s, x), k) == OfKey(key, s, k) + One(key, x, k)
  {
    OfKeySnoc(key, s, x, k);
    if s == [] {
      assert s + [x] == [x];
    } else if !AtMost(KeyOf(key, s[|s| - 1]), KeyOf(key, x)) {
      var front, last := s[..|s| - 1], s[|s| - 1];
      AtMostSelf(k);
      InsertStable(key, front, x, k);
      OfKeySnoc(key, Insert(key, front, x), last, k);
      Swap(OfKey(key, front, k), One(key, x, k), One(key, last, k));
    }
  }

  /** Items of equal keys keep their order. */
  lemma {:induction false} SortStable(key: Key, s: seq<Value>, k: string)
    ensures OfKey(key, Sort(key, s), k) == OfKey(key, s, k)
  {
    if s != [] {
      SortStable(key, s[..|s| - 1], k);
      InsertStable(key, Sort(key, s[..|s| - 1]), s[|s| - 1], k);
    }
  }
}
