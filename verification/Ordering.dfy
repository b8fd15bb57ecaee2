/**
 Lexicographic order on number sequences (byte strings, UTF-16 strings) and
 sorting by a key. Both libraries the code sorts with compare keys this way:
 JavaScript's default sort compares code units, Rust's `cmp` compares bytes.
 */
module Ordering {

  type Byte = b: int | 0 <= b < 0x100

  type Bytes = seq<Byte>

  predicate LexLess(a: seq<int>, b: seq<int>) {
    b != [] && (a == [] || a[0] < b[0] || (a[0] == b[0] && LexLess(a[1..], b[1..])))
  }

  /** Both agree on the first k places, where `a` ends or has the smaller number. */
  ghost predicate BelowAt(a: seq<int>, b: seq<int>, k: nat) {
    k <= |a| && k < |b| && a[..k] == b[..k] && (k == |a| || a[k] < b[k])
  }

  /** The order said by places: `a` is a proper prefix of `b`, or smaller at the first place where they differ. */
  ghost predicate Below(a: seq<int>, b: seq<int>) {
    exists k: nat :: BelowAt(a, b, k)
  }

  lemma {:induction false} LexLessIff(a: seq<int>, b: seq<int>)
    ensures LexLess(a, b) <==> Below(a, b)
    decreases |a|
  {
    if a != [] && b != [] && a[0] == b[0] {
      LexLessIff(a[1..], b[1..]);
      if k: nat :| BelowAt(a[1..], b[1..], k) {
        assert a[..k + 1] == [a[0]] + a[1..][..k] && b[..k + 1] == [b[0]] + b[1..][..k];
        assert BelowAt(a, b, k + 1);
      }
      if k: nat :| BelowAt(a, b, k) {
        assert k > 0;
        assert a[..k][1..] == a[1..][..k - 1] && b[..k][1..] == b[1..][..k - 1];
        assert BelowAt(a[1..], b[1..], k - 1);
      }
    } else {
      assert LexLess(a, b) ==> BelowAt(a, b, 0);
    }
  }

  lemma {:induction false} LexTrichotomy(a: seq<int>, b: seq<int>)
    ensures LexLess(a, b) || a == b || LexLess(b, a)
    ensures !(LexLess(a, b) && LexLess(b, a)) && (a == b ==> !LexLess(a, b))
    decreases |a|
  {
    if a != [] && b != [] {
      LexTrichotomy(a[1..], b[1..]);
      assert a == [a[0]] + a[1..] && b == [b[0]] + b[1..];
    }
  }

  lemma {:induction false} LexTransitive(a: seq<int>, b: seq<int>, c: seq<int>)
    requires LexLess(a, b) && LexLess(b, c)
    ensures LexLess(a, c)
    decreases |a|
  {
    if a != [] && a[0] == b[0] == c[0] {
      LexTransitive(a[1..], b[1..], c[1..]);
    }
  }

  // ---------------------------------------------------------------------
  // Sorting by a key
  // ---------------------------------------------------------------------

  function Insert<T>(key: T -> seq<int>, x: T, xs: seq<T>): (r: seq<T>)
    ensures |r| == |xs| + 1
    ensures multiset(r) == multiset(xs) + multiset{x}
  {
    if xs == [] || !LexLess(key(xs[0]), key(x)) then
      assert multiset([x] + xs) == multiset(xs) + multiset{x};
      [x] + xs
    else
      assert xs == [xs[0]] + xs[1..];
      [xs[0]] + Insert(key, x, xs[1..])
  }

  /** A stable sort, smallest key first. */
  function SortBy<T>(key: T -> seq<int>, xs: seq<T>): (r: seq<T>)
    ensures |r| == |xs|
    ensures multiset(r) == multiset(xs)
  {
    if xs == [] then [] else
      assert xs == [xs[0]] + xs[1..];
      Insert(key, xs[0], SortBy(key, xs[1..]))
  }

  ghost predicate DistinctKeys<T(!new)>(key: T -> seq<int>, xs: seq<T>) {
    forall i, j :: 0 <= i < j < |xs| ==> key(xs[i]) != key(xs[j])
  }

  ghost predicate StrictlySorted<T(!new)>(key: T -> seq<int>, xs: seq<T>) {
    forall i, j :: 0 <= i < j < |xs| ==> LexLess(key(xs[i]), key(xs[j]))
  }

  ghost predicate Ascending<T(!new)>(key: T -> seq<int>, xs: seq<T>) {
    forall i, j :: 0 <= i < j < |xs| ==> Below(key(xs[i]), key(xs[j]))
  }

  lemma {:induction false} SameMembers<T(!new)>(xs: seq<T>, ys: seq<T>)
    requires multiset(xs) == multiset(ys)
    ensures forall x :: x in xs <==> x in ys
  {
    forall x
      ensures x in xs <==> x in ys
    {
      assert x in xs <==> x in multiset(xs);
      assert x in ys <==> x in multiset(ys);
    }
  }

  /** A key below the first one of a sorted sequence may be put in front. */
  lemma {:induction false} PrependSorted<T(!new)>(key: T -> seq<int>, x: T, xs: seq<T>)
    requires StrictlySorted(key, xs)
    requires xs != [] ==> LexLess(key(x), key(xs[0]))
    ensures StrictlySorted(key, [x] + xs)
  {
    forall j | 0 <= j < |xs|
      ensures LexLess(key(x), key(xs[j]))
    {
      if j > 0 {
        LexTransitive(key(x), key(xs[0]), key(xs[j]));
      }
    }
  }

  lemma {:induction false} InsertHead<T(!new)>(key: T -> seq<int>, x: T, xs: seq<T>)
    requires xs != [] && LexLess(key(xs[0]), key(x))
    requires |xs| > 1 ==> LexLess(key(xs[0]), key(xs[1]))
    ensures LexLess(key(xs[0]), key(Insert(key, x, xs[1..])[0]))
  {
  }

  lemma {:induction false} InsertSorted<T(!new)>(key: T -> seq<int>, x: T, xs: seq<T>)
    requires StrictlySorted(key, xs)
    requires forall y :: y in xs ==> key(y) != key(x)
    ensures StrictlySorted(key, Insert(key, x, xs))
    decreases |xs|
  {
    if xs == [] {
    } else if LexLess(key(xs[0]), key(x)) {
      InsertSorted(key, x, xs[1..]);
      InsertHead(key, x, xs);
      PrependSorted(key, xs[0], Insert(key, x, xs[1..]));
    } else {
      LexTrichotomy(key(xs[0]), key(x));
      PrependSorted(key, x, xs);
    }
  }

  lemma {:induction false} SortBySorted<T(!new)>(key: T -> seq<int>, xs: seq<T>)
    requires DistinctKeys(key, xs)
    ensures StrictlySorted(key, SortBy(key, xs))
    decreases |xs|
  {
    if xs != [] {
      SortBySorted(key, xs[1..]);
      SameMembers(SortBy(key, xs[1..]), xs[1..]);
      forall y | y in SortBy(key, xs[1..])
        ensures key(y) != key(xs[0])
      {
        assert y in xs[1..];
        var j :| 0 <= j < |xs[1..]| && xs[1..][j] == y;
        assert xs[j + 1] == y;
      }
      InsertSorted(key, xs[0], SortBy(key, xs[1..]));
    }
  }

  /** Sorted, said by places. */
  lemma {:induction false} SortByAscends<T(!new)>(key: T -> seq<int>, xs: seq<T>)
    requires DistinctKeys(key, xs)
    ensures Ascending(key, SortBy(key, xs))
  {
    var ys := SortBy(key, xs);
    SortBySorted(key, xs);
    forall i, j | 0 <= i < j < |ys|
      ensures Below(key(ys[i]), key(ys[j]))
    {
      LexLessIff(key(ys[i]), key(ys[j]));
    }
  }

  /** A sequence with distinct keys has one sorted arrangement. */
  lemma {:induction false} SortedUnique<T(!new)>(key: T -> seq<int>, xs: seq<T>, ys: seq<T>)
    requires StrictlySorted(key, xs) && StrictlySorted(key, ys)
    requires forall x :: x in xs <==> x in ys
    ensures xs == ys
    decreases |xs|
  {
    assert ys != [] ==> ys[0] in ys;
    if xs != [] {
      assert xs[0] in ys;
      assert ys[0] in xs;
      LexTrichotomy(key(xs[0]), key(ys[0]));
      assert xs[0] == ys[0];
      forall z
        ensures z in xs[1..] <==> z in ys[1..]
      {
        LexTrichotomy(key(xs[0]), key(xs[0]));
        assert z in xs[1..] ==> z in ys && z != ys[0];
        assert z in ys[1..] ==> z in xs && z != xs[0];
      }
      SortedUnique(key, xs[1..], ys[1..]);
    }
  }

  /** Permutations with distinct keys sort alike. */
  lemma {:induction false} SortByPermutation<T(!new)>(key: T -> seq<int>, xs: seq<T>, ys: seq<T>)
    requires DistinctKeys(key, xs) && DistinctKeys(key, ys)
    requires forall x :: x in xs <==> x in ys
    ensures SortBy(key, xs) == SortBy(key, ys)
  {
    SortBySorted(key, xs);
    SortBySorted(key, ys);
    SameMembers(SortBy(key, xs), xs);
    SameMembers(SortBy(key, ys), ys);
    SortedUnique(key, SortBy(key, xs), SortBy(key, ys));
  }

  /** Sorting leaves a sorted sequence alone. */
  lemma {:induction false} SortByIdempotent<T(!new)>(key: T -> seq<int>, xs: seq<T>)
    requires StrictlySorted(key, xs)
    ensures SortBy(key, xs) == xs
    decreases |xs|
  {
    if xs != [] {
      SortByIdempotent(key, xs[1..]);
      if |xs| > 1 {
        LexTrichotomy(key(xs[0]), key(xs[1]));
      }
      assert xs == [xs[0]] + xs[1..];
    }
  }
}
