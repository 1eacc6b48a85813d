/** Sets put in order: what ORDER BY, an Elasticsearch sort clause and sort.Strings have in common. */
module Ordering {

  /** `less` is a strict total order on `s`. */
  ghost predicate Orders<T(!new)>(less: (T, T) -> bool, s: set<T>) {
    && (forall x | x in s :: !less(x, x))
    && (forall x, y | x in s && y in s && x != y :: less(x, y) || less(y, x))
    && (forall x, y, z | x in s && y in s && z in s && less(x, y) && less(y, z) :: less(x, z))
  }

  ghost predicate Sorted<T(!new)>(less: (T, T) -> bool, q: seq<T>) {
    forall i, j | 0 <= i < j < |q| :: less(q[i], q[j])
  }

  /** `q` holds the elements of `s` and nothing else. */
  ghost predicate Lists<T(!new)>(q: seq<T>, s: set<T>) {
    forall x :: x in q <==> x in s
  }

  predicate IsLeast<T(!new, ==)>(less: (T, T) -> bool, s: set<T>, m: T) {
    m in s && forall x | x in s && x != m :: less(m, x)
  }

  lemma {:induction false} LeastExists<T(!new)>(less: (T, T) -> bool, s: set<T>) returns (m: T)
    requires Orders(less, s) && s != {}
    ensures IsLeast(less, s, m)
    decreases |s|
  {
    m :| m in s;
    if s != {m} {
      var rest := s - {m};
      var l := LeastExists(less, rest);
      if less(l, m) {
        m := l;
      } else {
        assert less(m, l);
        assert forall x | x in rest && x != l :: less(m, x);
      }
    }
  }

  lemma OneLeast<T(!new)>(less: (T, T) -> bool, s: set<T>)
    requires Orders(less, s) && s != {}
    ensures exists m :: IsLeast(less, s, m)
    ensures forall m, n | IsLeast(less, s, m) && IsLeast(less, s, n) :: m == n
  {
    var m := LeastExists(less, s);
    forall n | IsLeast(less, s, n) ensures m == n {
      assert less(m, n) && less(n, m) ==> less(m, m);
    }
  }

  /** The elements of `s` in ascending order. */
  function Arrange<T(!new, ==)>(less: (T, T) -> bool, s: set<T>): (r: seq<T>)
    requires Orders(less, s)
    ensures |r| == |s|
    ensures Lists(r, s) && Sorted(less, r)
    decreases |s|
  {
    if s == {} then []
    else
      OneLeast(less, s);
      var m :| IsLeast(less, s, m);
      [m] + Arrange(less, s - {m})
  }

  lemma EmptyLists<T(!new)>(q: seq<T>, s: set<T>)
    requires Lists(q, s)
    ensures q == [] <==> s == {}
  {
    if q != [] { assert q[0] in q; }
  }

  /** There is only one way to put a set in order. */
  lemma {:induction false} SortedUnique<T(!new)>(less: (T, T) -> bool, s: set<T>, a: seq<T>, b: seq<T>)
    requires Orders(less, s)
    requires Lists(a, s) && Lists(b, s) && Sorted(less, a) && Sorted(less, b)
    ensures a == b
    decreases |s|
  {
    EmptyLists(a, s);
    EmptyLists(b, s);
    if s != {} {
      assert a[0] in b;
      assert b[0] in a;
      assert a[0] == b[0];
      var m := a[0];
      DropFirst(less, s, a);
      DropFirst(less, s, b);
      SortedUnique(less, s - {m}, a[1..], b[1..]);
      assert a == [m] + a[1..] && b == [m] + b[1..];
    }
  }

  lemma DropFirst<T(!new)>(less: (T, T) -> bool, s: set<T>, a: seq<T>)
    requires Orders(less, s) && Lists(a, s) && Sorted(less, a) && a != []
    ensures a[0] in s
    ensures Lists(a[1..], s - {a[0]}) && Sorted(less, a[1..])
  {
  }

  /** Low elements first, then the high ones: arranging a union splits when everything in `lo` is below `hi`. */
  lemma ArrangeSplit<T(!new)>(less: (T, T) -> bool, lo: set<T>, hi: set<T>)
    requires Orders(less, lo + hi)
    requires forall x, y | x in lo && y in hi :: less(x, y)
    ensures Orders(less, lo) && Orders(less, hi)
    ensures Arrange(less, lo + hi) == Arrange(less, lo) + Arrange(less, hi)
  {
    var a, b := Arrange(less, lo), Arrange(less, hi);
    forall i, j | 0 <= i < j < |a + b| ensures less((a + b)[i], (a + b)[j]) {
      if i < |a| <= j { assert a[i] in lo && b[j - |a|] in hi; }
    }
    assert Lists(a + b, lo + hi);
    SortedUnique(less, lo + hi, Arrange(less, lo + hi), a + b);
  }

  /** How many elements of `s` come before `x`. */
  ghost function Below<T(!new)>(less: (T, T) -> bool, s: set<T>, x: T): set<T> {
    set y | y in s && less(y, x)
  }

  /** Nothing comes before the first element; what comes before a later one is the first and what
      comes before it among the rest. */
  lemma BelowStep<T(!new)>(less: (T, T) -> bool, s: set<T>, q: seq<T>, i: nat)
    requires Orders(less, s) && Lists(q, s) && Sorted(less, q) && i < |q|
    ensures i == 0 ==> Below(less, s, q[i]) == {}
    ensures i > 0 ==> Below(less, s, q[i]) == Below(less, s - {q[0]}, q[i]) + {q[0]}
    ensures q[0] !in Below(less, s - {q[0]}, q[i])
  {
  }

  /** One element more comes before a later place than before the same place of the rest. */
  lemma BelowCount<T(!new)>(less: (T, T) -> bool, s: set<T>, q: seq<T>, i: nat)
    requires Orders(less, s) && Lists(q, s) && Sorted(less, q) && 0 < i < |q|
    ensures |Below(less, s, q[i])| == |Below(less, s - {q[0]}, q[i])| + 1
  {
    BelowStep(less, s, q, i);
    OneMore(Below(less, s - {q[0]}, q[i]), q[0]);
  }

  lemma OneMore<T>(s: set<T>, x: T)
    requires x !in s
    ensures |s + {x}| == |s| + 1
  {
  }

  /** The place of an element is the number of elements below it. */
  lemma {:induction false} PlaceIsRank<T(!new)>(less: (T, T) -> bool, s: set<T>, q: seq<T>, i: nat)
    requires Orders(less, s) && Lists(q, s) && Sorted(less, q) && i < |q|
    ensures |Below(less, s, q[i])| == i
    decreases i
  {
    if i == 0 {
      BelowStep(less, s, q, i);
    } else {
      BelowCount(less, s, q, i);
      DropFirst(less, s, q);
      var rest := q[1..];
      assert rest[i - 1] == q[i];
      PlaceIsRank(less, s - {q[0]}, rest, i - 1);
    }
  }

  /** An element that is there stands at the place its rank says. */
  lemma RankIsPlace<T(!new)>(less: (T, T) -> bool, s: set<T>, x: T)
    requires Orders(less, s) && x in s
    ensures |Below(less, s, x)| < |s| && Arrange(less, s)[|Below(less, s, x)|] == x
  {
    var r := Arrange(less, s);
    assert x in r;
    var i :| 0 <= i < |r| && r[i] == x;
    PlaceIsRank(less, s, r, i);
  }
}
