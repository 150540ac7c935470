// Small vocabulary shared by the models: optional values, sums over rows, filtering and the stable sort that
// JavaScript's Array.prototype.sort guarantees.
module Prelude {
  datatype Option<+T> = None | Some(value: T)

  function MinReal(a: real, b: real): real {
    if a <= b then a else b
  }

  function MaxReal(a: real, b: real): real {
    if a >= b then a else b
  }

  function Min(a: int, b: int): int {
    if a <= b then a else b
  }

  function Max(a: int, b: int): int {
    if a >= b then a else b
  }

  /** The total of `f` over the rows of `s`. */
  ghost function Sum<T>(s: seq<T>, f: T -> real): real {
    if s == [] then 0.0 else f(s[0]) + Sum(s[1..], f)
  }

  lemma {:induction false} SumAppend<T>(a: seq<T>, b: seq<T>, f: T -> real)
    ensures Sum(a + b, f) == Sum(a, f) + Sum(b, f)
  {
    if a == [] {
      assert a + b == b;
    } else {
      assert (a + b)[1..] == a[1..] + b;
      SumAppend(a[1..], b, f);
    }
  }

  lemma {:induction false} SumCongruent<T>(s: seq<T>, f: T -> real, g: T -> real)
    requires forall x :: x in s ==> f(x) == g(x)
    ensures Sum(s, f) == Sum(s, g)
  {
    if s != [] {
      SumCongruent(s[1..], f, g);
    }
  }

  /** The elements of `s` that satisfy `p`, in order. */
  function Filter<T(!new)>(s: seq<T>, p: T -> bool): (r: seq<T>)
    ensures forall x :: x in r <==> x in s && p(x)
  {
    if s == [] then [] else (if p(s[0]) then [s[0]] else []) + Filter(s[1..], p)
  }

  lemma {:induction false} FilterAppend<T(!new)>(a: seq<T>, b: seq<T>, p: T -> bool)
    ensures Filter(a + b, p) == Filter(a, p) + Filter(b, p)
  {
    if a == [] {
      assert a + b == b;
    } else {
      assert (a + b)[1..] == a[1..] + b;
      FilterAppend(a[1..], b, p);
    }
  }

  /** `f` on the elements satisfying `p`, zero elsewhere. */
  function Restrict<T>(p: T -> bool, f: T -> real): T -> real {
    x => if p(x) then f(x) else 0.0
  }

  lemma {:induction false} SumFilter<T(!new)>(s: seq<T>, p: T -> bool, f: T -> real)
    ensures Sum(Filter(s, p), f) == Sum(s, Restrict(p, f))
  {
    if s != [] {
      SumFilter(s[1..], p, f);
      SumAppend(if p(s[0]) then [s[0]] else [], Filter(s[1..], p), f);
    }
  }

  // ---- Stable sorting ----

  function Insert<T>(x: T, s: seq<T>, leq: (T, T) -> bool): (r: seq<T>) {
    if s == [] || leq(x, s[0]) then [x] + s else [s[0]] + Insert(x, s[1..], leq)
  }

  /** `s` sorted by `leq`, equal elements keeping their order. */
  function StableSort<T>(s: seq<T>, leq: (T, T) -> bool): (r: seq<T>) {
    if s == [] then [] else Insert(s[0], StableSort(s[1..], leq), leq)
  }

  lemma {:induction false} InsertPermutes<T>(x: T, s: seq<T>, leq: (T, T) -> bool)
    ensures multiset(Insert(x, s, leq)) == multiset(s) + multiset{x}
    ensures |Insert(x, s, leq)| == |s| + 1
  {
    if s != [] && !leq(x, s[0]) {
      InsertPermutes(x, s[1..], leq);
      assert s == [s[0]] + s[1..];
    }
  }

  lemma {:induction false} StableSortPermutes<T>(s: seq<T>, leq: (T, T) -> bool)
    ensures multiset(StableSort(s, leq)) == multiset(s)
  {
    if s != [] {
      StableSortPermutes(s[1..], leq);
      InsertPermutes(s[0], StableSort(s[1..], leq), leq);
      assert s == [s[0]] + s[1..];
    }
  }

  lemma InsertMembers<T(!new)>(x: T, s: seq<T>, leq: (T, T) -> bool)
    ensures forall y :: y in Insert(x, s, leq) <==> y == x || y in s
  {
  }

  lemma StableSortMembers<T(!new)>(s: seq<T>, leq: (T, T) -> bool)
    ensures forall x :: x in StableSort(s, leq) <==> x in s
  {
    StableSortPermutes(s, leq);
    assert forall x :: x in StableSort(s, leq) <==> x in multiset(StableSort(s, leq));
  }

  ghost predicate Sorted<T>(s: seq<T>, leq: (T, T) -> bool) {
    forall i, j :: 0 <= i < j < |s| ==> leq(s[i], s[j])
  }

  ghost predicate TotalPreorder<T(!new)>(leq: (T, T) -> bool) {
    && (forall a, b :: leq(a, b) || leq(b, a))
    && (forall a, b, c :: leq(a, b) && leq(b, c) ==> leq(a, c))
  }

  lemma {:induction false} InsertSorted<T(!new)>(x: T, s: seq<T>, leq: (T, T) -> bool)
    requires TotalPreorder(leq) && Sorted(s, leq)
    ensures Sorted(Insert(x, s, leq), leq)
  {
    if s != [] && !leq(x, s[0]) {
      InsertSorted(x, s[1..], leq);
      InsertMembers(x, s[1..], leq);
      assert forall y :: y in s[1..] ==> leq(s[0], y);
      assert forall y :: y in Insert(x, s[1..], leq) ==> leq(s[0], y);
    } else if s != [] {
      forall y | y in s
        ensures leq(x, y)
      {
      }
    }
  }

  lemma {:induction false} StableSortSorted<T(!new)>(s: seq<T>, leq: (T, T) -> bool)
    requires TotalPreorder(leq)
    ensures Sorted(StableSort(s, leq), leq)
  {
    if s != [] {
      StableSortSorted(s[1..], leq);
      InsertSorted(s[0], StableSort(s[1..], leq), leq);
    }
  }

  lemma {:induction false} InsertSum<T>(x: T, s: seq<T>, leq: (T, T) -> bool, f: T -> real)
    ensures Sum(Insert(x, s, leq), f) == f(x) + Sum(s, f)
  {
    if s != [] && !leq(x, s[0]) {
      InsertSum(x, s[1..], leq, f);
    }
  }

  lemma {:induction false} StableSortSum<T>(s: seq<T>, leq: (T, T) -> bool, f: T -> real)
    ensures Sum(StableSort(s, leq), f) == Sum(s, f)
  {
    if s != [] {
      StableSortSum(s[1..], leq, f);
      InsertSum(s[0], StableSort(s[1..], leq), leq, f);
    }
  }

  lemma {:induction false} InsertStable<T(!new)>(x: T, s: seq<T>, leq: (T, T) -> bool, k: T)
    requires TotalPreorder(leq)
    ensures var same := (y: T) => leq(y, k) && leq(k, y);
            Filter(Insert(x, s, leq), same) == (if same(x) then [x] else []) + Filter(s, same)
  {
    if s != [] && !leq(x, s[0]) {
      InsertStable(x, s[1..], leq, k);
      assert Insert(x, s, leq)[1..] == Insert(x, s[1..], leq);
    }
  }

  /** Stability: within every class of equal elements the sort keeps the original order. */
  lemma {:induction false} StableSortStable<T(!new)>(s: seq<T>, leq: (T, T) -> bool, k: T)
    requires TotalPreorder(leq)
    ensures var same := (y: T) => leq(y, k) && leq(k, y);
            Filter(StableSort(s, leq), same) == Filter(s, same)
  {
    if s != [] {
      StableSortStable(s[1..], leq, k);
      InsertStable(s[0], StableSort(s[1..], leq), leq, k);
    }
  }

  /** `rel` holds between every two elements of `s`. */
  ghost predicate Pairwise<T>(s: seq<T>, rel: (T, T) -> bool) {
    forall i, j :: 0 <= i < j < |s| ==> rel(s[i], s[j])
  }

  lemma {:induction false} FilterPairwise<T(!new)>(s: seq<T>, p: T -> bool, rel: (T, T) -> bool)
    requires Pairwise(s, rel)
    ensures Pairwise(Filter(s, p), rel)
  {
    if s != [] {
      FilterPairwise(s[1..], p, rel);
      forall y | y in s[1..]
        ensures rel(s[0], y)
      {
        var j :| 0 <= j < |s[1..]| && s[1..][j] == y;
        assert s[j + 1] == y;
      }
    }
  }

  lemma {:induction false} InsertPairwise<T(!new)>(x: T, s: seq<T>, leq: (T, T) -> bool, rel: (T, T) -> bool)
    requires forall a, b :: rel(a, b) ==> rel(b, a)
    requires Pairwise(s, rel) && forall y :: y in s ==> rel(x, y)
    ensures Pairwise(Insert(x, s, leq), rel)
  {
    if s != [] && !leq(x, s[0]) {
      InsertPairwise(x, s[1..], leq, rel);
      InsertMembers(x, s[1..], leq);
      assert forall y :: y in s[1..] ==> rel(s[0], y);
      assert rel(s[0], x);
      assert forall y :: y in Insert(x, s[1..], leq) ==> rel(s[0], y);
    }
  }

  lemma {:induction false} StableSortPairwise<T(!new)>(s: seq<T>, leq: (T, T) -> bool, rel: (T, T) -> bool)
    requires forall a, b :: rel(a, b) ==> rel(b, a)
    requires Pairwise(s, rel)
    ensures Pairwise(StableSort(s, leq), rel)
  {
    if s != [] {
      StableSortPairwise(s[1..], leq, rel);
      StableSortMembers(s[1..], leq);
      InsertPairwise(s[0], StableSort(s[1..], leq), leq, rel);
    }
  }
}
