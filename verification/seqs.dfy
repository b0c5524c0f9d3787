/** Sequence helpers shared by the whole model: an optional value, first-match
    search (JavaScript's `find`/`findIndex`), filtering (`filter`), substring
    containment (`includes`) and ASCII lower-casing (`toLowerCase`). */
module Seqs {

  /** `undefined`/`null` versus a present value. */
  datatype Option<+T> = None | Some(value: T)

  /** A JavaScript string that is present and not '' (the truthy case). */
  predicate IsTruthy(s: Option<string>) {
    s.Some? && s.value != ""
  }

  /** `sub` is obtained from `s` by deleting elements, order kept. */
  predicate IsSubsequence<T(==)>(sub: seq<T>, s: seq<T>)
    decreases |s|
  {
    if |sub| == 0 then true
    else if |s| == 0 then false
    else if sub[0] == s[0] then IsSubsequence(sub[1..], s[1..])
    else IsSubsequence(sub, s[1..])
  }

  lemma {:induction false} SubsequenceDropHead<T>(sub: seq<T>, s: seq<T>)
    requires |sub| > 0 && IsSubsequence(sub, s)
    ensures IsSubsequence(sub[1..], s)
    decreases |s|, 0
  {
    if sub[0] == s[0] {
      SubsequenceCons(sub[1..], s[0], s[1..]);
      assert [s[0]] + s[1..] == s;
    } else {
      SubsequenceDropHead(sub, s[1..]);
      SubsequenceCons(sub[1..], s[0], s[1..]);
      assert [s[0]] + s[1..] == s;
    }
  }

  /** A subsequence of the tail is a subsequence of the whole. */
  lemma {:induction false} SubsequenceCons<T>(sub: seq<T>, x: T, s: seq<T>)
    requires IsSubsequence(sub, s)
    ensures IsSubsequence(sub, [x] + s)
    decreases |s|, 1
  {
    var xs := [x] + s;
    assert xs[1..] == s;
    if |sub| > 0 && sub[0] == x {
      SubsequenceDropHead(sub, s);
    }
  }

  /** Every element is a subsequence member of the original. */
  lemma {:induction false} SubsequenceMembers<T>(sub: seq<T>, s: seq<T>)
    requires IsSubsequence(sub, s)
    ensures forall x :: x in sub ==> x in s
    decreases |s|
  {
    if |sub| == 0 {
    } else if sub[0] == s[0] {
      SubsequenceMembers(sub[1..], s[1..]);
      assert sub == [sub[0]] + sub[1..];
    } else {
      SubsequenceMembers(sub, s[1..]);
    }
  }

  /** Index of the first element satisfying `p` (JavaScript `findIndex`,
      with `None` for -1). */
  function FindIndex<T>(p: T -> bool, s: seq<T>): (r: Option<nat>)
    ensures r.Some? ==> r.value < |s| && p(s[r.value])
    ensures r.Some? ==> forall j :: 0 <= j < r.value ==> !p(s[j])
    ensures r.None? <==> forall j :: 0 <= j < |s| ==> !p(s[j])
  {
    if |s| == 0 then None
    else if p(s[0]) then Some(0)
    else match FindIndex(p, s[1..])
      case None => None
      case Some(k) => Some(k + 1)
  }

  /** The first element satisfying `p` (JavaScript `find`). */
  function Find<T>(p: T -> bool, s: seq<T>): (r: Option<T>)
    ensures r.None? <==> forall j :: 0 <= j < |s| ==> !p(s[j])
    ensures r.Some? ==> exists k :: 0 <= k < |s| && s[k] == r.value && p(s[k])
                                      && forall j :: 0 <= j < k ==> !p(s[j])
  {
    match FindIndex(p, s)
    case None => None
    case Some(k) => Some(s[k])
  }

  /** Number of occurrences of `x` among the elements of `s` satisfying `p`. */
  function CountWhere<T(==,!new)>(p: T -> bool, s: seq<T>, x: T): nat
  {
    if p(x) then multiset(s)[x] else 0
  }

  /** The elements of `s` that satisfy `p`, in their original order
      (JavaScript `filter`). */
  function Filter<T(==,!new)>(p: T -> bool, s: seq<T>): (r: seq<T>)
    ensures |r| <= |s|
    ensures forall i :: 0 <= i < |r| ==> p(r[i])
    ensures forall x :: x in r <==> x in s && p(x)
    ensures forall x :: multiset(r)[x] == CountWhere(p, s, x)
    ensures IsSubsequence(r, s)
  {
    if |s| == 0 then []
    else
      var rest := Filter(p, s[1..]);
      assert s == [s[0]] + s[1..];
      assert multiset(s) == multiset{s[0]} + multiset(s[1..]);
      SubsequenceCons(rest, s[0], s[1..]);
      if p(s[0]) then
        assert ([s[0]] + rest)[1..] == rest;
        [s[0]] + rest
      else rest
  }

  /** Filtering a sequence with a known head. */
  lemma FilterCons<T(!new)>(p: T -> bool, x: T, t: seq<T>)
    ensures Filter(p, [x] + t) == (if p(x) then [x] else []) + Filter(p, t)
  {
    assert ([x] + t)[1..] == t;
  }

  /** The filter keeps everything exactly when every element passes. */
  lemma {:induction false} FilterAll<T(!new)>(p: T -> bool, s: seq<T>)
    ensures (forall i :: 0 <= i < |s| ==> p(s[i])) <==> Filter(p, s) == s
    ensures |Filter(p, s)| == |s| <==> Filter(p, s) == s
  {
    if |s| > 0 {
      FilterAll(p, s[1..]);
      if !p(s[0]) {
        assert |Filter(p, s)| < |s|;
      }
    }
  }

  /** The filter is empty exactly when no element passes. */
  lemma FilterEmpty<T(!new)>(p: T -> bool, s: seq<T>)
    ensures |Filter(p, s)| == 0 <==> forall i :: 0 <= i < |s| ==> !p(s[i])
  {
    if |Filter(p, s)| > 0 {
      assert Filter(p, s)[0] in s;
    }
  }

  /** Filtering by a stronger predicate keeps a subsequence of the result. */
  lemma {:induction false} FilterStronger<T(!new)>(p: T -> bool, q: T -> bool, s: seq<T>)
    requires forall x :: p(x) ==> q(x)
    ensures IsSubsequence(Filter(p, s), Filter(q, s))
  {
    if |s| > 0 {
      FilterStronger(p, q, s[1..]);
      if !p(s[0]) && q(s[0]) {
        SubsequenceCons(Filter(p, s[1..]), s[0], Filter(q, s[1..]));
      } else if p(s[0]) {
        assert ([s[0]] + Filter(p, s[1..]))[1..] == Filter(p, s[1..]);
        assert ([s[0]] + Filter(q, s[1..]))[1..] == Filter(q, s[1..]);
      }
    }
  }

  /** Counting the passing elements of a suffix one element at a time. */
  lemma FilterCountAt<T(!new)>(p: T -> bool, s: seq<T>, i: int)
    requires 0 <= i < |s|
    ensures |Filter(p, s[i..])| == (if p(s[i]) then 1 else 0) + |Filter(p, s[i + 1..])|
  {
    assert s[i..][1..] == s[i + 1..];
  }

  /** Splitting a sequence three ways by mutually exclusive, exhaustive
      predicates accounts for every element exactly once. */
  lemma {:induction false} FilterPartition<T(!new)>(p: T -> bool, q: T -> bool, r: T -> bool, s: seq<T>)
    requires forall x :: (p(x) || q(x) || r(x)) && !(p(x) && q(x)) && !(p(x) && r(x)) && !(q(x) && r(x))
    ensures |Filter(p, s)| + |Filter(q, s)| + |Filter(r, s)| == |s|
  {
    if |s| > 0 {
      FilterPartition(p, q, r, s[1..]);
    }
  }

  /** `needle` occurs at the start of `hay`. */
  predicate IsPrefix<T(==)>(needle: seq<T>, hay: seq<T>) {
    |needle| <= |hay| && hay[..|needle|] == needle
  }

  /** JavaScript `hay.includes(needle)` on strings. */
  predicate Contains<T(==)>(hay: seq<T>, needle: seq<T>)
    decreases |hay|
  {
    IsPrefix(needle, hay) || (|hay| > 0 && Contains(hay[1..], needle))
  }

  /** `needle` occurs in `hay` starting at position `i`. */
  predicate OccursAt<T(==)>(hay: seq<T>, needle: seq<T>, i: int) {
    0 <= i <= |hay| - |needle| && hay[i..i + |needle|] == needle
  }

  /** `Contains` agrees with the positional definition of a substring. */
  lemma {:induction false} ContainsAt<T>(hay: seq<T>, needle: seq<T>)
    ensures Contains(hay, needle) <==> exists i :: OccursAt(hay, needle, i)
    decreases |hay|
  {
    if |hay| > 0 {
      ContainsAt(hay[1..], needle);
      if Contains(hay[1..], needle) {
        var i :| OccursAt(hay[1..], needle, i);
        assert hay[i + 1..i + 1 + |needle|] == hay[1..][i..i + |needle|];
        assert OccursAt(hay, needle, i + 1);
      }
      if IsPrefix(needle, hay) {
        assert OccursAt(hay, needle, 0);
      }
      if exists i :: OccursAt(hay, needle, i) {
        var i :| OccursAt(hay, needle, i);
        if i > 0 {
          assert hay[1..][i - 1..i - 1 + |needle|] == hay[i..i + |needle|];
          assert OccursAt(hay[1..], needle, i - 1);
        }
      }
    } else {
      if IsPrefix(needle, hay) {
        assert OccursAt(hay, needle, 0);
      }
      if exists i :: OccursAt(hay, needle, i) {
        var i :| OccursAt(hay, needle, i);
        assert i == 0;
      }
    }
  }

  /** Every string contains the empty string. */
  lemma ContainsEmpty<T>(hay: seq<T>)
    ensures Contains(hay, [])
  {
  }

  /** Every string contains itself. */
  lemma ContainsSelf<T>(hay: seq<T>)
    ensures Contains(hay, hay)
  {
  }

  /** ASCII case folding of one character. */
  function LowerChar(c: char): char {
    if 'A' <= c <= 'Z' then (c as int + 32) as char else c
  }

  /** `toLowerCase`, restricted to ASCII letters. */
  function Lower(s: string): (r: string)
    ensures |r| == |s|
    ensures forall i :: 0 <= i < |s| ==> r[i] == LowerChar(s[i])
    ensures forall i :: 0 <= i < |r| ==> !('A' <= r[i] <= 'Z')
  {
    seq(|s|, i requires 0 <= i < |s| => LowerChar(s[i]))
  }

  /** Elements pairwise distinct. */
  predicate Distinct<T(==)>(s: seq<T>) {
    forall i, j :: 0 <= i < j < |s| ==> s[i] != s[j]
  }

  function Min(a: int, b: int): int {
    if a <= b then a else b
  }
}
