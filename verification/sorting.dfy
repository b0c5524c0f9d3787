/** A stable sort by a comparator, as `Array.prototype.sort` behaves since
    ECMAScript 2019: `leq(a, b)` holds when the source comparator `cmp(a, b)`
    is at most 0, i.e. when `a` may stay in front of `b`. */
module Sorting {
  import opened Seqs

  /** `leq` orders every pair and is transitive: a comparator that is
      consistent in the sense the JavaScript sort requires. */
  ghost predicate TotalPreorder<T(!new)>(leq: (T, T) -> bool) {
    && (forall a, b :: leq(a, b) || leq(b, a))
    && (forall a, b, c :: leq(a, b) && leq(b, c) ==> leq(a, c))
  }

  predicate SortedBy<T>(s: seq<T>, leq: (T, T) -> bool) {
    forall i, j :: 0 <= i < j < |s| ==> leq(s[i], s[j])
  }

  /** Places `x` in front of the first element it may precede. */
  function Insert<T>(x: T, s: seq<T>, leq: (T, T) -> bool): (r: seq<T>)
    ensures |r| == |s| + 1
    ensures multiset(r) == multiset(s) + multiset{x}
  {
    if |s| == 0 then [x]
    else if leq(x, s[0]) then [x] + s
    else
      assert s == [s[0]] + s[1..];
      [s[0]] + Insert(x, s[1..], leq)
  }

  /** Insertion sort; earlier elements are inserted last, so that among
      elements the comparator calls equal the original order survives. */
  function Sort<T>(s: seq<T>, leq: (T, T) -> bool): (r: seq<T>)
    ensures |r| == |s|
    ensures multiset(r) == multiset(s)
  {
    if |s| == 0 then []
    else
      assert s == [s[0]] + s[1..];
      Insert(s[0], Sort(s[1..], leq), leq)
  }

  lemma {:induction false} InsertSorted<T(!new)>(x: T, s: seq<T>, leq: (T, T) -> bool)
    requires TotalPreorder(leq)
    requires SortedBy(s, leq)
    ensures SortedBy(Insert(x, s, leq), leq)
  {
    if |s| > 0 && !leq(x, s[0]) {
      InsertSorted(x, s[1..], leq);
      var r := Insert(x, s, leq);
      var t := Insert(x, s[1..], leq);
      assert leq(s[0], x);
      assert forall y :: y in multiset(t) ==> y == x || y in multiset(s[1..]);
      forall j | 0 < j < |r|
        ensures leq(r[0], r[j])
      {
        assert r[j] == t[j - 1];
        assert t[j - 1] in multiset(t);
        if t[j - 1] != x {
          assert t[j - 1] in s[1..];
        }
      }
    }
  }

  /** The result of `Sort` is ordered by any consistent comparator. */
  lemma {:induction false} SortSorted<T(!new)>(s: seq<T>, leq: (T, T) -> bool)
    requires TotalPreorder(leq)
    ensures SortedBy(Sort(s, leq), leq)
  {
    if |s| > 0 {
      SortSorted(s[1..], leq);
      InsertSorted(s[0], Sort(s[1..], leq), leq);
    }
  }

  /** Sorting an already ordered sequence leaves it as it is. */
  lemma {:induction false} SortOfSorted<T>(s: seq<T>, leq: (T, T) -> bool)
    requires SortedBy(s, leq)
    ensures Sort(s, leq) == s
  {
    if |s| > 0 {
      assert SortedBy(s[1..], leq);
      SortOfSorted(s[1..], leq);
      assert s == [s[0]] + s[1..];
    }
  }

  /** The elements the comparator calls equal to `c`. */
  function EquivTo<T(!new)>(leq: (T, T) -> bool, c: T): (same: T -> bool)
    ensures forall y :: same(y) <==> leq(c, y) && leq(y, c)
  {
    (y: T) => leq(c, y) && leq(y, c)
  }

  /** Inserting `x` puts it in front of every element it is equal to. */
  lemma {:induction false} InsertKeepsClassOrder<T(!new)>(x: T, s: seq<T>, leq: (T, T) -> bool, c: T)
    requires TotalPreorder(leq)
    ensures Filter(EquivTo(leq, c), Insert(x, s, leq))
         == (if EquivTo(leq, c)(x) then [x] else []) + Filter(EquivTo(leq, c), s)
  {
    var same := EquivTo(leq, c);
    if |s| == 0 {
      FilterCons(same, x, s);
    } else if leq(x, s[0]) {
      FilterCons(same, x, s);
    } else {
      var t := s[1..];
      assert s == [s[0]] + t;
      InsertKeepsClassOrder(x, t, leq, c);
      assert Insert(x, s, leq) == [s[0]] + Insert(x, t, leq);
      FilterCons(same, s[0], Insert(x, t, leq));
      FilterCons(same, s[0], t);
      assert !(same(x) && same(s[0]));
    }
  }

  /** `Sort` is stable: the elements the comparator calls equal to any `c`
      keep their original relative order. */
  lemma {:induction false} SortStable<T(!new)>(s: seq<T>, leq: (T, T) -> bool, c: T)
    requires TotalPreorder(leq)
    ensures Filter(EquivTo(leq, c), Sort(s, leq)) == Filter(EquivTo(leq, c), s)
  {
    if |s| > 0 {
      SortStable(s[1..], leq, c);
      InsertKeepsClassOrder(s[0], Sort(s[1..], leq), leq, c);
    }
  }

  /** Keeping only the elements that pass a test leaves an ordered
      sequence ordered. */
  lemma {:induction false} FilterKeepsSorted<T(!new)>(p: T -> bool, s: seq<T>, leq: (T, T) -> bool)
    requires SortedBy(s, leq)
    ensures SortedBy(Filter(p, s), leq)
  {
    if |s| > 0 {
      assert SortedBy(s[1..], leq);
      FilterKeepsSorted(p, s[1..], leq);
      var rest := Filter(p, s[1..]);
      forall j | 0 <= j < |rest|
        ensures leq(s[0], rest[j])
      {
        assert rest[j] in s[1..];
      }
    }
  }
}
