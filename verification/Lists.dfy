/** Mapping, filtering and sorting lists; a list is sorted by a strict order without ties. */
module Lists {

  function Apply<S, T>(f: S -> T, xs: seq<S>): (r: seq<T>)
    ensures |r| == |xs|
    ensures forall i :: 0 <= i < |xs| ==> r[i] == f(xs[i])
  {
    seq(|xs|, i requires 0 <= i < |xs| => f(xs[i]))
  }

  function Where<T>(p: T -> bool, xs: seq<T>): seq<T> {
    if xs == [] then []
    else if p(xs[0]) then [xs[0]] + Where(p, xs[1..])
    else Where(p, xs[1..])
  }

  ghost predicate Pairwise<T>(r: (T, T) -> bool, xs: seq<T>) {
    forall i, j :: 0 <= i < j < |xs| ==> r(xs[i], xs[j])
  }

  lemma {:induction false} WhereMeans<T>(p: T -> bool, xs: seq<T>, x: T)
    ensures x in Where(p, xs) <==> x in xs && p(x)
  {
    if xs != [] {
      WhereMeans(p, xs[1..], x);
      assert xs == [xs[0]] + xs[1..];
    }
  }

  lemma {:induction false} WherePairwise<T>(r: (T, T) -> bool, p: T -> bool, xs: seq<T>)
    requires Pairwise(r, xs)
    ensures Pairwise(r, Where(p, xs))
  {
    if xs != [] {
      var rest := Where(p, xs[1..]);
      WherePairwise(r, p, xs[1..]);
      forall j | 0 <= j < |rest|
        ensures r(xs[0], rest[j])
      {
        WhereMeans(p, xs[1..], rest[j]);
        var k :| 0 < k < |xs| && xs[k] == rest[j];
      }
    }
  }

  lemma {:induction false} WhereAll<T>(p: T -> bool, xs: seq<T>)
    requires forall i :: 0 <= i < |xs| ==> p(xs[i])
    ensures Where(p, xs) == xs
  {
    if xs != [] {
      WhereAll(p, xs[1..]);
    }
  }

  lemma {:induction false} WhereSnoc<T>(p: T -> bool, xs: seq<T>, x: T)
    ensures Where(p, xs + [x]) == Where(p, xs) + if p(x) then [x] else []
  {
    if xs == [] {
      assert xs + [x] == [x] && [x][1..] == [];
    } else {
      WhereSnoc(p, xs[1..], x);
      assert (xs + [x])[1..] == xs[1..] + [x];
    }
  }

  lemma {:induction false} WhereAppend<T>(p: T -> bool, xs: seq<T>, ys: seq<T>)
    requires forall i :: 0 <= i < |xs| ==> !p(xs[i])
    ensures Where(p, xs + ys) == Where(p, ys)
  {
    if xs == [] {
      assert xs + ys == ys;
    } else {
      WhereAppend(p, xs[1..], ys);
      assert (xs + ys)[1..] == xs[1..] + ys;
    }
  }

  /** `before(a, b)`: `a` sorts strictly before `b`. */
  ghost predicate StrictOrder<T(!new)>(before: (T, T) -> bool) {
    && (forall a :: !before(a, a))
    && (forall a, b, c :: before(a, b) && before(b, c) ==> before(a, c))
  }

  /** A strict order in which any two different values compare. */
  ghost predicate Total<T(!new)>(before: (T, T) -> bool) {
    StrictOrder(before) && forall a, b :: a != b ==> before(a, b) || before(b, a)
  }

  /** A strict order in which ties are transitive. */
  ghost predicate WeakOrder<T(!new)>(before: (T, T) -> bool) {
    StrictOrder(before) && forall a, b, c :: before(a, c) ==> before(a, b) || before(b, c)
  }

  ghost predicate Sorted<T>(before: (T, T) -> bool, xs: seq<T>) {
    forall i, j :: 0 <= i < j < |xs| ==> before(xs[i], xs[j])
  }

  /** No two positions tie. */
  ghost predicate Comparable<T>(before: (T, T) -> bool, xs: seq<T>) {
    forall i, j :: 0 <= i < j < |xs| ==> before(xs[i], xs[j]) || before(xs[j], xs[i])
  }

  ghost predicate SameElements<T(!new)>(xs: seq<T>, ys: seq<T>) { forall x :: x in xs <==> x in ys }

  /** In front of everything that is not before it, so that of two that tie the one inserted later comes first. */
  function Insert<T>(before: (T, T) -> bool, x: T, sorted: seq<T>): seq<T> {
    if sorted == [] || !before(sorted[0], x) then [x] + sorted
    else [sorted[0]] + Insert(before, x, sorted[1..])
  }

  /** A stable sort. */
  function Sort<T>(before: (T, T) -> bool, xs: seq<T>): seq<T> {
    if xs == [] then [] else Insert(before, xs[0], Sort(before, xs[1..]))
  }

  lemma {:induction false} InsertKeeps<T(!new)>(before: (T, T) -> bool, x: T, sorted: seq<T>)
    ensures SameElements(Insert(before, x, sorted), [x] + sorted)
    ensures |Insert(before, x, sorted)| == |sorted| + 1
  {
    if sorted != [] && before(sorted[0], x) {
      InsertKeeps(before, x, sorted[1..]);
      assert sorted == [sorted[0]] + sorted[1..];
    }
  }

  lemma {:induction false} InsertSorts<T(!new)>(before: (T, T) -> bool, x: T, sorted: seq<T>)
    requires StrictOrder(before) && Sorted(before, sorted)
    requires forall s :: s in sorted ==> before(x, s) || before(s, x)
    ensures Sorted(before, Insert(before, x, sorted))
  {
    if sorted != [] {
      assert sorted[0] in sorted;
      if !before(sorted[0], x) {
        assert forall j :: 0 < j < |sorted| ==> before(sorted[0], sorted[j]);
      } else {
        var rest := Insert(before, x, sorted[1..]);
        InsertSorts(before, x, sorted[1..]);
        InsertKeeps(before, x, sorted[1..]);
        forall j | 0 <= j < |rest|
          ensures before(sorted[0], rest[j])
        {
          assert rest[j] in [x] + sorted[1..];
        }
      }
    }
  }

  /** Sorting sorts, and keeps the elements. */
  lemma {:induction false} SortSorts<T(!new)>(before: (T, T) -> bool, xs: seq<T>)
    requires StrictOrder(before) && Comparable(before, xs)
    ensures Sorted(before, Sort(before, xs))
    ensures SameElements(Sort(before, xs), xs) && |Sort(before, xs)| == |xs|
  {
    if xs != [] {
      var rest := Sort(before, xs[1..]);
      SortSorts(before, xs[1..]);
      forall s | s in rest
        ensures before(xs[0], s) || before(s, xs[0])
      {
        assert s in xs[1..];
        var j :| 0 < j < |xs| && xs[j] == s;
      }
      InsertSorts(before, xs[0], rest);
      InsertKeeps(before, xs[0], rest);
      assert xs == [xs[0]] + xs[1..];
    }
  }

  /** The elements, without any two being comparable. */
  lemma {:induction false} SortKeeps<T(!new)>(before: (T, T) -> bool, xs: seq<T>)
    ensures SameElements(Sort(before, xs), xs) && |Sort(before, xs)| == |xs|
  {
    if xs != [] {
      SortKeeps(before, xs[1..]);
      InsertKeeps(before, xs[0], Sort(before, xs[1..]));
      assert xs == [xs[0]] + xs[1..];
    }
  }

  /** Whatever ties, what is sorted first is beaten by none. */
  lemma {:induction false} FirstIsUnbeaten<T(!new)>(before: (T, T) -> bool, xs: seq<T>, x: T)
    requires WeakOrder(before) && x in xs
    ensures !before(x, Sort(before, xs)[0])
  {
    var rest := Sort(before, xs[1..]);
    SortKeeps(before, xs[1..]);
    assert xs == [xs[0]] + xs[1..];
    if rest != [] {
      if x in xs[1..] {
        FirstIsUnbeaten(before, xs[1..], x);
      }
    }
  }

  lemma TailHasTheRest<T(!new)>(before: (T, T) -> bool, sorted: seq<T>, x: T)
    requires StrictOrder(before) && Sorted(before, sorted) && sorted != []
    ensures x in sorted[1..] <==> x in sorted && x != sorted[0]
  {
    assert sorted == [sorted[0]] + sorted[1..];
    if x in sorted[1..] {
      var j :| 0 < j < |sorted| && sorted[j] == x;
      assert before(sorted[0], sorted[j]);
    }
  }

  /** A sorted list is determined by its elements. */
  lemma {:induction false} SortedIsUnique<T(!new)>(before: (T, T) -> bool, xs: seq<T>, ys: seq<T>)
    requires StrictOrder(before) && Sorted(before, xs) && Sorted(before, ys) && SameElements(xs, ys)
    ensures xs == ys
  {
    if xs != [] {
      assert xs[0] in xs;
    }
    if ys != [] {
      assert ys[0] in ys;
    }
    if xs != [] && ys != [] {
      assert xs[0] == ys[0];
      forall x
        ensures x in xs[1..] <==> x in ys[1..]
      {
        TailHasTheRest(before, xs, x);
        TailHasTheRest(before, ys, x);
      }
      SortedIsUnique(before, xs[1..], ys[1..]);
    }
  }

  /** Sorting does not depend on the order in which the elements come. */
  lemma SortIgnoresOrder<T(!new)>(before: (T, T) -> bool, xs: seq<T>, ys: seq<T>)
    requires StrictOrder(before) && Comparable(before, xs) && Comparable(before, ys) && SameElements(xs, ys)
    ensures Sort(before, xs) == Sort(before, ys)
  {
    SortSorts(before, xs);
    SortSorts(before, ys);
    SortedIsUnique(before, Sort(before, xs), Sort(before, ys));
  }

  /** A list that is sorted already stays as it is. */
  lemma SortKeepsSorted<T(!new)>(before: (T, T) -> bool, xs: seq<T>)
    requires StrictOrder(before) && Sorted(before, xs)
    ensures Sort(before, xs) == xs
  {
    SortSorts(before, xs);
    SortedIsUnique(before, Sort(before, xs), xs);
  }

  /** Compare by a key first, and by `next` where the keys are equal. */
  function Lex<T, K(==)>(key: T -> K, before: (K, K) -> bool, next: (T, T) -> bool): (T, T) -> bool {
    (a: T, b: T) => before(key(a), key(b)) || (key(a) == key(b) && next(a, b))
  }

  lemma LexMeans<T, K>(key: T -> K, before: (K, K) -> bool, next: (T, T) -> bool, a: T, b: T)
    ensures Lex(key, before, next)(a, b) <==> before(key(a), key(b)) || (key(a) == key(b) && next(a, b))
  {
  }

  lemma LexIsStrict<T(!new), K(!new)>(key: T -> K, before: (K, K) -> bool, next: (T, T) -> bool)
    requires StrictOrder(before) && StrictOrder(next)
    ensures StrictOrder(Lex(key, before, next))
  {
    var order := Lex(key, before, next);
    forall a: T
      ensures !order(a, a)
    {
      assert !before(key(a), key(a)) && !next(a, a);
    }
    forall a: T, b: T, c: T | order(a, b) && order(b, c)
      ensures order(a, c)
    {
      if before(key(a), key(b)) && before(key(b), key(c)) {
        assert before(key(a), key(c));
      }
    }
  }

  lemma {:induction false} InsertCommutes<S(!new), T>(f: S -> T, s: (S, S) -> bool, t: (T, T) -> bool, x: S, xs: seq<S>)
    requires forall a, b :: t(f(a), f(b)) == s(a, b)
    ensures Insert(t, f(x), Apply(f, xs)) == Apply(f, Insert(s, x, xs))
  {
    if xs == [] || !s(xs[0], x) {
    } else {
      InsertCommutes(f, s, t, x, xs[1..]);
      assert Apply(f, xs)[1..] == Apply(f, xs[1..]);
    }
  }

  /** Mapping after sorting is sorting after mapping, when the map keeps the order. */
  lemma {:induction false} SortCommutes<S(!new), T>(f: S -> T, s: (S, S) -> bool, t: (T, T) -> bool, xs: seq<S>)
    requires forall a, b :: t(f(a), f(b)) == s(a, b)
    ensures Sort(t, Apply(f, xs)) == Apply(f, Sort(s, xs))
  {
    if xs != [] {
      SortCommutes(f, s, t, xs[1..]);
      InsertCommutes(f, s, t, xs[0], Sort(s, xs[1..]));
      assert Apply(f, xs)[1..] == Apply(f, xs[1..]);
    }
  }

  /** The comparison only depends on the key and on the next comparison. */
  lemma LexSame<T, K>(key: T -> K, before: (K, K) -> bool, next: (T, T) -> bool, a: T, b: T, x: T, y: T)
    requires key(a) == key(x) && key(b) == key(y) && (next(a, b) ==> next(x, y))
    ensures Lex(key, before, next)(a, b) ==> Lex(key, before, next)(x, y)
  {
  }

  // ---------------------------------------------------------------------------------------------
  // Permutations
  // ---------------------------------------------------------------------------------------------

  /** What occurs twice in the multiset occurs at two positions. */
  lemma {:induction false} OccursTwice<T>(xs: seq<T>, x: T) returns (i: nat, j: nat)
    requires multiset(xs)[x] >= 2
    ensures i < j < |xs| && xs[i] == xs[j] == x
  {
    assert xs == [xs[0]] + xs[1..];
    if xs[0] == x {
      assert x in multiset(xs[1..]);
      assert x in xs[1..];
      i := 0;
      j :| 0 < j < |xs| && xs[j] == x;
    } else {
      i, j := OccursTwice(xs[1..], x);
      i, j := i + 1, j + 1;
    }
  }

  lemma SamePermutation<T(!new)>(xs: seq<T>, ys: seq<T>)
    requires multiset(xs) == multiset(ys)
    ensures SameElements(xs, ys) && |xs| == |ys|
  {
    forall x
      ensures x in xs <==> x in ys
    {
      assert x in multiset(xs) <==> x in multiset(ys);
    }
    assert |multiset(xs)| == |multiset(ys)|;
  }

  /** A symmetric relation between all pairs survives a permutation. */
  lemma PermutedPairwise<T(!new)>(r: (T, T) -> bool, xs: seq<T>, ys: seq<T>)
    requires multiset(xs) == multiset(ys) && Pairwise(r, xs)
    requires forall a, b :: r(a, b) ==> r(b, a)
    ensures Pairwise(r, ys)
  {
    SamePermutation(xs, ys);
    forall i, j | 0 <= i < j < |ys|
      ensures r(ys[i], ys[j])
    {
      assert ys[i] in xs && ys[j] in xs;
      if ys[i] == ys[j] {
        TwoPositions(ys, i, j);
        var k, l := OccursTwice(xs, ys[i]);
      } else {
        var k :| 0 <= k < |xs| && xs[k] == ys[i];
        var l :| 0 <= l < |xs| && xs[l] == ys[j];
        assert k < l || l < k;
      }
    }
  }

  lemma TwoPositions<T>(xs: seq<T>, i: nat, j: nat)
    requires i < j < |xs| && xs[i] == xs[j]
    ensures multiset(xs)[xs[i]] >= 2
  {
    assert xs == xs[..j] + [xs[j]] + xs[j + 1..];
    assert xs[..j][i] == xs[i];
    assert xs[i] in multiset(xs[..j]);
  }

  function Sum<T>(f: T -> nat, xs: seq<T>): nat {
    if xs == [] then 0 else Sum(f, xs[..|xs| - 1]) + f(xs[|xs| - 1])
  }

  lemma {:induction false} SumWithout<T>(f: T -> nat, xs: seq<T>, k: nat)
    requires k < |xs|
    ensures Sum(f, xs) == Sum(f, xs[..k] + xs[k + 1..]) + f(xs[k])
  {
    var n := |xs| - 1;
    if k == n {
      assert xs[..k] + xs[k + 1..] == xs[..n];
    } else {
      SumWithout(f, xs[..n], k);
      var rest := xs[..k] + xs[k + 1..];
      assert rest[..|rest| - 1] == xs[..n][..k] + xs[..n][k + 1..];
    }
  }

  lemma MultisetWithout<T>(xs: seq<T>, k: nat)
    requires k < |xs|
    ensures multiset(xs[..k] + xs[k + 1..]) == multiset(xs) - multiset{xs[k]}
  {
    var front, back := xs[..k], xs[k + 1..];
    assert xs == front + ([xs[k]] + back);
    assert multiset(xs) == multiset(front) + multiset([xs[k]]) + multiset(back);
    assert multiset(front + back) == multiset(front) + multiset(back);
  }

  /** A sum does not depend on the order of its terms. */
  lemma {:induction false} PermutedSum<T(!new)>(f: T -> nat, xs: seq<T>, ys: seq<T>)
    requires multiset(xs) == multiset(ys)
    ensures Sum(f, xs) == Sum(f, ys)
  {
    SamePermutation(xs, ys);
    if xs != [] {
      var n := |xs| - 1;
      assert xs[n] in ys;
      var k :| 0 <= k < |ys| && ys[k] == xs[n];
      MultisetWithout(xs, n);
      MultisetWithout(ys, k);
      assert xs[..n] + xs[n + 1..] == xs[..n];
      PermutedSum(f, xs[..n], ys[..k] + ys[k + 1..]);
      SumWithout(f, ys, k);
    }
  }

  lemma {:induction false} InsertIsPermutation<T>(before: (T, T) -> bool, x: T, sorted: seq<T>)
    ensures multiset(Insert(before, x, sorted)) == multiset(sorted) + multiset{x}
  {
    if sorted != [] && before(sorted[0], x) {
      InsertIsPermutation(before, x, sorted[1..]);
      assert sorted == [sorted[0]] + sorted[1..];
    }
  }

  /** Sorting rearranges. */
  lemma {:induction false} SortIsPermutation<T>(before: (T, T) -> bool, xs: seq<T>)
    ensures multiset(Sort(before, xs)) == multiset(xs)
  {
    if xs != [] {
      SortIsPermutation(before, xs[1..]);
      InsertIsPermutation(before, xs[0], Sort(before, xs[1..]));
      assert xs == [xs[0]] + xs[1..];
    }
  }

  lemma AppliedWithout<S, T>(f: S -> T, xs: seq<S>, k: nat)
    requires k < |xs|
    ensures multiset(Apply(f, xs)) == multiset(Apply(f, xs[..k] + xs[k + 1..])) + multiset{f(xs[k])}
  {
    var ys, front, back := Apply(f, xs), Apply(f, xs[..k]), Apply(f, xs[k + 1..]);
    assert ys == front + ([f(xs[k])] + back);
    assert Apply(f, xs[..k] + xs[k + 1..]) == front + back;
    assert multiset(front + ([f(xs[k])] + back)) == multiset(front) + (multiset{f(xs[k])} + multiset(back));
  }

  /** Mapping permuted lists gives permuted lists. */
  lemma {:induction false} AppliedPermutation<S(!new), T>(f: S -> T, xs: seq<S>, ys: seq<S>)
    requires multiset(xs) == multiset(ys)
    ensures multiset(Apply(f, xs)) == multiset(Apply(f, ys))
  {
    SamePermutation(xs, ys);
    if xs != [] {
      var n := |xs| - 1;
      assert xs[n] in ys;
      var k :| 0 <= k < |ys| && ys[k] == xs[n];
      MultisetWithout(xs, n);
      MultisetWithout(ys, k);
      AppliedPermutation(f, xs[..n] + xs[n + 1..], ys[..k] + ys[k + 1..]);
      AppliedWithout(f, xs, n);
      AppliedWithout(f, ys, k);
    }
  }
}
