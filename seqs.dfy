/** The array idioms the components are written with -- `filter`, a summing
    `reduce`, `[...new Set(xs)]`, `map` and `sort` -- as functions on
    sequences, with what each one means stated and proved. Folds recurse on
    the last element so that they line up with left-to-right loops. */
module Seqs {

  ghost predicate NoDuplicates<T>(s: seq<T>) {
    forall i, j :: 0 <= i < j < |s| ==> s[i] != s[j]
  }

  /** The elements of `s` that satisfy `p`, in their original order. */
  function Filter<T(!new)>(s: seq<T>, p: T -> bool): (r: seq<T>)
    ensures |r| <= |s|
    ensures forall x :: x in r <==> x in s && p(x)
    decreases |s|
  {
    if s == [] then []
    else
      var init, last := s[..|s| - 1], s[|s| - 1];
      assert s == init + [last];
      Filter(init, p) + (if p(last) then [last] else [])
  }

  /** Each value occurs in the filtered sequence exactly as often as in the
      original when it satisfies `p`, and not at all otherwise. */
  lemma {:induction false} FilterMultiset<T(!new)>(s: seq<T>, p: T -> bool)
    ensures forall x :: multiset(Filter(s, p))[x] == if p(x) then multiset(s)[x] else 0
    decreases |s|
  {
    if s != [] {
      var init, last := s[..|s| - 1], s[|s| - 1];
      assert s == init + [last];
      FilterMultiset(init, p);
      assert Filter(s, p) == Filter(init, p) + (if p(last) then [last] else []);
    }
  }

  /** Filtering commutes with concatenation: what came first still comes first. */
  lemma {:induction false} FilterAppend<T(!new)>(a: seq<T>, b: seq<T>, p: T -> bool)
    ensures Filter(a + b, p) == Filter(a, p) + Filter(b, p)
    decreases |b|
  {
    if b == [] {
      assert a + b == a;
    } else {
      var b', last := b[..|b| - 1], b[|b| - 1];
      var tail := if p(last) then [last] else [];
      assert (a + b)[..|a + b| - 1] == a + b';
      assert (a + b)[|a + b| - 1] == last;
      assert Filter(a + b, p) == Filter(a + b', p) + tail;
      assert Filter(b, p) == Filter(b', p) + tail;
      FilterAppend(a, b', p);
    }
  }

  /** A filter whose predicate holds everywhere keeps the whole sequence. */
  lemma {:induction false} FilterKeepsAll<T(!new)>(s: seq<T>, p: T -> bool)
    requires forall x :: x in s ==> p(x)
    ensures Filter(s, p) == s
    decreases |s|
  {
    if s != [] {
      var init, last := s[..|s| - 1], s[|s| - 1];
      assert s == init + [last];
      FilterKeepsAll(init, p);
      assert Filter(s, p) == Filter(init, p) + [last];
    }
  }

  /** A filter that nothing passes is empty. */
  lemma {:induction false} FilterNone<T(!new)>(s: seq<T>, p: T -> bool)
    requires forall x :: x in s ==> !p(x)
    ensures Filter(s, p) == []
  {
    if s != [] {
      var init, last := s[..|s| - 1], s[|s| - 1];
      assert s == init + [last];
      FilterNone(init, p);
      assert last in s;
    }
  }

  /** The first element the filter keeps is the first element satisfying `p`. */
  lemma {:induction false} FilterFirst<T(!new)>(s: seq<T>, p: T -> bool, i: nat)
    requires i < |s| && p(s[i])
    requires forall i' :: 0 <= i' < i ==> !p(s[i'])
    ensures Filter(s, p) != [] && Filter(s, p)[0] == s[i]
    decreases |s|
  {
    var init, last := s[..|s| - 1], s[|s| - 1];
    var tail := if p(last) then [last] else [];
    assert Filter(s, p) == Filter(init, p) + tail by {
      assert s == init + [last];
    }
    if i < |s| - 1 {
      FilterFirst(init, p, i);
    } else {
      forall x | x in init ensures !p(x) {
        var k :| 0 <= k < |init| && init[k] == x;
      }
      FilterNone(init, p);
    }
  }

  /** The test `y => y !== x`. */
  function Unequal<T(==)>(x: T): T -> bool {
    y => y != x
  }

  /** Every occurrence of `x` removed, the rest kept in order
      (`s.filter(y => y !== x)`). */
  function RemoveAll<T(==,!new)>(s: seq<T>, x: T): (r: seq<T>)
    ensures x !in r
    ensures forall y :: y != x ==> multiset(r)[y] == multiset(s)[y]
    ensures x !in s ==> r == s
  {
    FilterMultiset(s, Unequal(x));
    if x !in s then FilterKeepsAll(s, Unequal(x)); Filter(s, Unequal(x))
    else Filter(s, Unequal(x))
  }

  /** Removal keeps what survives in order. */
  lemma RemoveAllAppend<T(!new)>(a: seq<T>, b: seq<T>, x: T)
    ensures RemoveAll(a + b, x) == RemoveAll(a, x) + RemoveAll(b, x)
  {
    FilterAppend(a, b, Unequal(x));
  }

  /** `s.reduce((sum, x) => sum + w(x), 0)`. */
  function Sum<T>(s: seq<T>, w: T -> int): int
    decreases |s|
  {
    if s == [] then 0 else Sum(s[..|s| - 1], w) + w(s[|s| - 1])
  }

  lemma {:induction false} SumAppend<T>(a: seq<T>, b: seq<T>, w: T -> int)
    ensures Sum(a + b, w) == Sum(a, w) + Sum(b, w)
    decreases |b|
  {
    if b == [] {
      assert a + b == a;
    } else {
      var b' := b[..|b| - 1];
      assert (a + b)[..|a + b| - 1] == a + b';
      assert (a + b)[|a + b| - 1] == b[|b| - 1];
      SumAppend(a, b', w);
    }
  }

  /** Splitting a sequence by a predicate and its negation splits its sum. */
  lemma {:induction false} SumFilterSplit<T(!new)>(s: seq<T>, p: T -> bool, q: T -> bool, w: T -> int)
    requires forall x :: q(x) == !p(x)
    ensures Sum(Filter(s, p), w) + Sum(Filter(s, q), w) == Sum(s, w)
    decreases |s|
  {
    if s != [] {
      var init, last := s[..|s| - 1], s[|s| - 1];
      SumFilterSplit(init, p, q, w);
      SumAppend(Filter(init, p), if p(last) then [last] else [], w);
      SumAppend(Filter(init, q), if q(last) then [last] else [], w);
    }
  }

  function One<T>(x: T): int { 1 }

  /** Summing the constant one counts. */
  lemma {:induction false} SumOneIsLength<T>(s: seq<T>)
    ensures Sum(s, One<T>) == |s|
    decreases |s|
  {
    if s != [] {
      SumOneIsLength(s[..|s| - 1]);
    }
  }

  /** Two sequences agreeing at every index are equal. */
  lemma EqualByIndex<T>(a: seq<T>, b: seq<T>)
    requires |a| == |b|
    requires forall i :: 0 <= i < |a| ==> a[i] == b[i]
    ensures a == b
  {
  }

  /** `xs.map(f)`. */
  function Project<T, U>(s: seq<T>, f: T -> U): (r: seq<U>)
    ensures |r| == |s|
    ensures forall i :: 0 <= i < |s| ==> r[i] == f(s[i])
  {
    seq(|s|, i requires 0 <= i < |s| => f(s[i]))
  }

  lemma ProjectSnoc<T, U>(s: seq<T>, x: T, f: T -> U)
    ensures Project(s + [x], f) == Project(s, f) + [f(x)]
  {
    assert forall i :: 0 <= i < |s| + 1 ==> Project(s + [x], f)[i] == (Project(s, f) + [f(x)])[i];
  }

  /** `[...new Set(s)]`: each value once, in order of first appearance. */
  function Distinct<T(==,!new)>(s: seq<T>): (r: seq<T>)
    ensures forall x :: x in r <==> x in s
    ensures NoDuplicates(r)
    decreases |s|
  {
    if s == [] then []
    else
      var d := Distinct(s[..|s| - 1]);
      assert forall x :: x in s <==> x in s[..|s| - 1] || x == s[|s| - 1] by {
        assert s == s[..|s| - 1] + [s[|s| - 1]];
      }
      if s[|s| - 1] in d then d else d + [s[|s| - 1]]
  }

  /** A sequence without repeats is as long as the set of its values, so
      `[...new Set(s)].length` counts the distinct values. */
  lemma {:induction false} NoDuplicatesCardinality<T>(s: seq<T>)
    requires NoDuplicates(s)
    ensures |set x | x in s| == |s|
    decreases |s|
  {
    if s != [] {
      var init, last := s[..|s| - 1], s[|s| - 1];
      NoDuplicatesCardinality(init);
      assert last !in init;
      assert (set x | x in s) == (set x | x in init) + {last} by {
        assert s == init + [last];
      }
    }
  }

  lemma DistinctCardinality<T(!new)>(s: seq<T>)
    ensures |Distinct(s)| == |set x | x in s|
  {
    NoDuplicatesCardinality(Distinct(s));
    assert (set x | x in Distinct(s)) == (set x | x in s);
  }

  lemma DistinctSnoc<T(!new)>(s: seq<T>, x: T)
    ensures Distinct(s + [x]) == if x in s then Distinct(s) else Distinct(s) + [x]
  {
    assert (s + [x])[..|s|] == s;
  }

  /** A sequence has no repeats exactly when no value occurs twice in it. */
  lemma {:induction false} NoDuplicatesMultiset<T>(s: seq<T>)
    ensures NoDuplicates(s) <==> forall x :: multiset(s)[x] <= 1
    decreases |s|
  {
    if s != [] {
      var init, last := s[..|s| - 1], s[|s| - 1];
      assert s == init + [last];
      NoDuplicatesMultiset(init);
      assert multiset(s) == multiset(init) + multiset{last};
      if NoDuplicates(s) {
        assert NoDuplicates(init) by {
          forall i, j | 0 <= i < j < |init| ensures init[i] != init[j] {
            assert s[i] == init[i] && s[j] == init[j];
          }
        }
        assert last !in init by {
          assert forall i :: 0 <= i < |init| ==> init[i] == s[i] && s[i] != s[|s| - 1];
        }
      }
      if forall x :: multiset(s)[x] <= 1 {
        assert multiset(init)[last] == 0 by {
          assert multiset(s)[last] == multiset(init)[last] + 1;
        }
        assert forall x :: multiset(init)[x] <= 1 by {
          forall x ensures multiset(init)[x] <= 1 {
            assert multiset(s)[x] >= multiset(init)[x];
          }
        }
        forall i, j | 0 <= i < j < |s| ensures s[i] != s[j] {
          if j == |s| - 1 {
            assert s[i] in init;
          } else {
            assert s[i] == init[i] && s[j] == init[j];
          }
        }
      }
    }
  }

  /** Rearranging a sequence without repeats gives one without repeats. */
  lemma NoDuplicatesPermutation<T>(s: seq<T>, t: seq<T>)
    requires multiset(s) == multiset(t) && NoDuplicates(s)
    ensures NoDuplicates(t)
  {
    NoDuplicatesMultiset(s);
    NoDuplicatesMultiset(t);
  }

  /** Summing through a map is summing the composed weight. */
  lemma {:induction false} SumProject<T, U>(s: seq<T>, f: T -> U, w: U -> int, v: T -> int)
    requires forall x :: w(f(x)) == v(x)
    ensures Sum(Project(s, f), w) == Sum(s, v)
    decreases |s|
  {
    if s != [] {
      var init := s[..|s| - 1];
      SumProject(init, f, w, v);
      assert Project(s, f)[..|s| - 1] == Project(init, f);
    }
  }

  // ---- sorting ----

  ghost predicate TotalPreorder<T(!new)>(le: (T, T) -> bool) {
    && (forall a, b :: le(a, b) || le(b, a))
    && (forall a, b, c :: le(a, b) && le(b, c) ==> le(a, c))
  }

  ghost predicate SortedBy<T>(s: seq<T>, le: (T, T) -> bool) {
    forall i, j :: 0 <= i < j < |s| ==> le(s[i], s[j])
  }

  /** `x` placed before the first element it is `le` to, so earlier equal
      elements are not overtaken. */
  function InsertBy<T>(x: T, s: seq<T>, le: (T, T) -> bool): (r: seq<T>)
    ensures multiset(r) == multiset(s) + multiset{x}
    ensures |r| == |s| + 1
  {
    if s == [] || le(x, s[0]) then [x] + s
    else
      assert s == [s[0]] + s[1..];
      [s[0]] + InsertBy(x, s[1..], le)
  }

  /** Insertion sort; it is stable, as `Array.prototype.sort` is. */
  function SortBy<T>(s: seq<T>, le: (T, T) -> bool): (r: seq<T>)
    ensures multiset(r) == multiset(s)
    ensures |r| == |s|
  {
    if s == [] then []
    else
      assert s == [s[0]] + s[1..];
      InsertBy(s[0], SortBy(s[1..], le), le)
  }

  /** `le` is total and transitive on the elements of `s`. */
  ghost predicate TotalPreorderOn<T>(s: seq<T>, le: (T, T) -> bool) {
    && (forall a, b :: a in s && b in s ==> le(a, b) || le(b, a))
    && (forall a, b, c :: a in s && b in s && c in s && le(a, b) && le(b, c) ==> le(a, c))
  }

  lemma TotalPreorderEverywhere<T(!new)>(s: seq<T>, le: (T, T) -> bool)
    requires TotalPreorder(le)
    ensures TotalPreorderOn(s, le)
  {
  }

  lemma {:induction false} InsertBySorted<T>(x: T, s: seq<T>, le: (T, T) -> bool)
    requires TotalPreorderOn([x] + s, le) && SortedBy(s, le)
    ensures SortedBy(InsertBy(x, s, le), le)
  {
    if s == [] || le(x, s[0]) {
      if s != [] {
        forall j | 0 <= j < |s| ensures le(x, s[j]) {
          assert x in [x] + s && s[0] in [x] + s && s[j] in [x] + s;
        }
      }
    } else {
      var t := InsertBy(x, s[1..], le);
      assert TotalPreorderOn([x] + s[1..], le) by {
        assert forall y :: y in [x] + s[1..] ==> y in [x] + s;
      }
      InsertBySorted(x, s[1..], le);
      assert x in [x] + s && s[0] in [x] + s;
      forall y | y in t ensures le(s[0], y) {
        assert y in multiset(t);
        assert y == x || y in s[1..];
      }
    }
  }

  /** The sort orders a sequence on whose elements `le` is a total preorder. */
  lemma {:induction false} SortBySorted<T>(s: seq<T>, le: (T, T) -> bool)
    requires TotalPreorderOn(s, le)
    ensures SortedBy(SortBy(s, le), le)
  {
    if s != [] {
      var rest := SortBy(s[1..], le);
      assert TotalPreorderOn(s[1..], le) by {
        assert forall y :: y in s[1..] ==> y in s;
      }
      SortBySorted(s[1..], le);
      assert TotalPreorderOn([s[0]] + rest, le) by {
        forall y | y in [s[0]] + rest ensures y in s {
          if y != s[0] {
            assert y in multiset(rest);
          }
        }
      }
      InsertBySorted(s[0], rest, le);
    }
  }

  /** Two sequences with the same elements counted with multiplicity
      have the same members. */
  lemma MultisetMembers<T>(s: seq<T>, r: seq<T>)
    requires multiset(r) == multiset(s)
    ensures forall x :: x in r <==> x in s
  {
    forall x ensures x in r <==> x in s {
      assert x in r <==> x in multiset(r);
      assert x in s <==> x in multiset(s);
    }
  }

  function Reverse<T>(s: seq<T>): (r: seq<T>)
    ensures |r| == |s| && forall i :: 0 <= i < |s| ==> r[i] == s[|s| - 1 - i]
  {
    seq(|s|, i requires 0 <= i < |s| => s[|s| - 1 - i])
  }

  /** Reversing a sorted sequence without repeats sorts it the other way. */
  lemma ReverseSorted<T>(s: seq<T>, le: (T, T) -> bool)
    requires NoDuplicates(s) && SortedBy(s, le)
    ensures var r := Reverse(s);
      && (forall x :: x in r <==> x in s)
      && NoDuplicates(r)
      && (forall i, j :: 0 <= i < j < |r| ==> le(r[j], r[i]))
  {
    var r := Reverse(s);
    forall x ensures x in r <==> x in s {
      if x in s {
        var i :| 0 <= i < |s| && s[i] == x;
        assert r[|r| - 1 - i] == x;
      }
    }
    forall i, j | 0 <= i < j < |r| ensures r[i] != r[j] && le(r[j], r[i]) {
      assert r[i] == s[|r| - 1 - i] && r[j] == s[|r| - 1 - j];
    }
  }

  /** The first `n` elements, or all of them if there are fewer (`slice(0, n)`). */
  function Take<T>(s: seq<T>, n: nat): (r: seq<T>)
    ensures |r| == if |s| < n then |s| else n
    ensures r == s[..|r|]
  {
    if |s| < n then s else s[..n]
  }
}
