/** Values and facts about sequences and sets shared by every part of the model. */
module Common {
  datatype Option<+T> = None | Some(value: T)

  /** Taking the first element off an appended sequence. */
  lemma ConsAppend<T>(p: seq<T>, rest: seq<T>)
    requires p != []
    ensures p + rest == [p[0]] + (p[1..] + rest)
  {
  }

  lemma Smaller<T>(a: set<T>, b: set<T>)
    requires a < b
    ensures |a| < |b|
  {
    var x :| x in b && x !in a;
    assert a <= b - {x};
    NotLarger(a, b - {x});
  }

  lemma {:induction false} NotLarger<T>(a: set<T>, b: set<T>)
    requires a <= b
    ensures |a| <= |b|
    decreases a
  {
    if a != {} {
      var x :| x in a;
      NotLarger(a - {x}, b - {x});
    }
  }

  lemma SameSize<T>(a: set<T>, b: set<T>)
    requires a <= b && |a| == |b|
    ensures a == b
  {
    if a != b {
      Smaller(a, b);
    }
  }

  predicate Distinct(s: seq<string>) {
    forall i, j | 0 <= i < j < |s| :: s[i] != s[j]
  }
}
