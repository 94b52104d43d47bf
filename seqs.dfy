/** Generic sequence helpers shared by every part of the dashboard model:
    optional values, order-preserving filtering, counting, first-appearance
    de-duplication (pandas `unique()`), sums, an insertion sort by an integer
    key, and the "later key wins" dictionary built from a list of pairs
    (Python's `dict(...)` over a literal or over `zip(...)`). */
module Seqs {

  datatype Option<+T> = None | Some(value: T)

  // ---------------------------------------------------------------------------
  // Filtering (a boolean mask over the rows of a frame)
  // ---------------------------------------------------------------------------

  /** The elements of `s` that satisfy `p`, in their original order. */
  function Filter<T(!new)>(s: seq<T>, p: T -> bool): (r: seq<T>)
    ensures |r| <= |s|
    ensures forall x :: x in r <==> x in s && p(x)
  {
    if s == [] then []
    else Filter(s[..|s| - 1], p) + (if p(s[|s| - 1]) then [s[|s| - 1]] else [])
  }

  /** `Filter` when `on` holds, the whole sequence otherwise. */
  function FilterIf<T(!new)>(s: seq<T>, on: bool, p: T -> bool): (r: seq<T>)
    ensures |r| <= |s|
    ensures forall x :: x in r <==> x in s && (on ==> p(x))
  {
    if on then Filter(s, p) else s
  }

  lemma {:induction false} FilterSnoc<T(!new)>(s: seq<T>, x: T, p: T -> bool)
    ensures Filter(s + [x], p) == Filter(s, p) + (if p(x) then [x] else [])
  {
    assert (s + [x])[..|s + [x]| - 1] == s;
  }

  lemma {:induction false} FilterAppend<T(!new)>(a: seq<T>, b: seq<T>, p: T -> bool)
    ensures Filter(a + b, p) == Filter(a, p) + Filter(b, p)
    decreases |b|
  {
    if b == [] {
      assert a + b == a;
      assert Filter(b, p) == [];
    } else {
      var b' := b[..|b| - 1];
      var x := b[|b| - 1];
      var last := if p(x) then [x] else [];
      assert b == b' + [x];
      assert a + b == (a + b') + [x];
      FilterSnoc(a + b', x, p);
      FilterAppend(a, b', p);
      FilterSnoc(b', x, p);
      calc {
        Filter(a + b, p);
        Filter(a + b', p) + last;
        (Filter(a, p) + Filter(b', p)) + last;
        Filter(a, p) + (Filter(b', p) + last);
        Filter(a, p) + Filter(b, p);
      }
    }
  }

  /** Filtering by `p` and then by `q` is filtering once by their conjunction:
      a chain of mask assignments keeps exactly the rows every mask keeps. */
  lemma {:induction false} FilterFilter<T(!new)>(s: seq<T>, p: T -> bool, q: T -> bool, pq: T -> bool)
    requires forall x :: pq(x) == (p(x) && q(x))
    ensures Filter(Filter(s, p), q) == Filter(s, pq)
    decreases |s|
  {
    if s != [] {
      var s' := s[..|s| - 1];
      var x := s[|s| - 1];
      assert s == s' + [x];
      FilterFilter(s', p, q, pq);
      FilterSnoc(s', x, p);
      FilterSnoc(s', x, pq);
      if p(x) {
        FilterSnoc(Filter(s', p), x, q);
        calc {
          Filter(Filter(s, p), q);
          Filter(Filter(s', p) + [x], q);
          Filter(Filter(s', p), q) + (if q(x) then [x] else []);
          Filter(s', pq) + (if pq(x) then [x] else []);
          Filter(s, pq);
        }
      } else {
        assert Filter(s, p) == Filter(s', p) + [] == Filter(s', p);
        calc {
          Filter(Filter(s, p), q);
          Filter(Filter(s', p), q);
          Filter(s', pq);
          Filter(s', pq) + [];
          Filter(s, pq);
        }
      }
    }
  }

  /** A mask that every element passes keeps the whole sequence. */
  lemma {:induction false} FilterKeepsAll<T(!new)>(s: seq<T>, p: T -> bool)
    requires forall x :: x in s ==> p(x)
    ensures Filter(s, p) == s
    decreases |s|
  {
    if s != [] {
      var s' := s[..|s| - 1];
      assert s == s' + [s[|s| - 1]];
      FilterKeepsAll(s', p);
    }
  }

  /** `a` is `b` with some elements left out, the rest kept in order. */
  predicate Subsequence<T(==)>(a: seq<T>, b: seq<T>)
    decreases |b|
  {
    a == [] ||
    (b != [] &&
     ((a[|a| - 1] == b[|b| - 1] && Subsequence(a[..|a| - 1], b[..|b| - 1]))
      || Subsequence(a, b[..|b| - 1])))
  }

  /** A filter keeps the elements it keeps in their original order. */
  lemma {:induction false} FilterSubsequence<T(!new)>(s: seq<T>, p: T -> bool)
    ensures Subsequence(Filter(s, p), s)
    decreases |s|
  {
    if s != [] {
      var s', x := s[..|s| - 1], s[|s| - 1];
      FilterSubsequence(s', p);
      var r := Filter(s, p);
      if p(x) {
        assert r == Filter(s', p) + [x];
        assert r[..|r| - 1] == Filter(s', p);
      } else {
        assert r == Filter(s', p);
      }
    }
  }

  /** Every sequence is a subsequence of itself. */
  lemma {:induction false} SubsequenceRefl<T>(s: seq<T>)
    ensures Subsequence(s, s)
    decreases |s|
  {
    if s != [] {
      SubsequenceRefl(s[..|s| - 1]);
    }
  }

  /** A subsequence of a subsequence is a subsequence. */
  lemma {:induction false} SubsequenceTrans<T>(a: seq<T>, b: seq<T>, c: seq<T>)
    requires Subsequence(a, b) && Subsequence(b, c)
    ensures Subsequence(a, c)
    decreases |c|
  {
    if a != [] {
      var a', b', c' := a[..|a| - 1], b[..|b| - 1], c[..|c| - 1];
      if Subsequence(b, c') {
        SubsequenceTrans(a, b, c');
      } else if a[|a| - 1] == b[|b| - 1] && Subsequence(a', b') {
        SubsequenceTrans(a', b', c');
      } else {
        SubsequenceTrans(a, b', c');
      }
    }
  }

  /** A guarded filter keeps its elements in their original order. */
  lemma {:induction false} FilterIfSubsequence<T(!new)>(s: seq<T>, on: bool, p: T -> bool)
    ensures Subsequence(FilterIf(s, on, p), s)
  {
    if on {
      FilterSubsequence(s, p);
    } else {
      SubsequenceRefl(s);
    }
  }

  /** Four guarded filters in a row keep their elements in the original
      order. */
  lemma {:induction false} FilterIf4Subsequence<T(!new)>(s: seq<T>, on1: bool, p1: T -> bool, on2: bool, p2: T -> bool,
                                                       on3: bool, p3: T -> bool, on4: bool, p4: T -> bool)
    ensures Subsequence(FilterIf(FilterIf(FilterIf(FilterIf(s, on1, p1), on2, p2), on3, p3), on4, p4), s)
  {
    var s1 := FilterIf(s, on1, p1);
    var s2 := FilterIf(s1, on2, p2);
    var s3 := FilterIf(s2, on3, p3);
    var s4 := FilterIf(s3, on4, p4);
    FilterIfSubsequence(s, on1, p1);
    FilterIfSubsequence(s1, on2, p2);
    FilterIfSubsequence(s2, on3, p3);
    FilterIfSubsequence(s3, on4, p4);
    SubsequenceTrans(s3, s2, s1);
    SubsequenceTrans(s4, s3, s1);
    SubsequenceTrans(s4, s1, s);
  }

  /** A filter keeps every copy of a value it accepts and none of one it
      rejects. */
  lemma {:induction false} FilterCount<T(!new)>(s: seq<T>, p: T -> bool, x: T)
    ensures Count(Filter(s, p), x) == if p(x) then Count(s, x) else 0
    decreases |s|
  {
    if s != [] {
      var s', y := s[..|s| - 1], s[|s| - 1];
      FilterCount(s', p, x);
      if p(y) {
        CountSnoc(Filter(s', p), y, x);
      } else {
        assert Filter(s, p) == Filter(s', p);
      }
    }
  }

  lemma {:induction false} FilterCountAll<T(!new)>(s: seq<T>, p: T -> bool)
    ensures forall x :: Count(Filter(s, p), x) == if p(x) then Count(s, x) else 0
  {
    forall x ensures Count(Filter(s, p), x) == if p(x) then Count(s, x) else 0 {
      FilterCount(s, p, x);
    }
  }

  /** A filter keeps nothing exactly when no element satisfies it. */
  lemma {:induction false} FilterEmpty<T(!new)>(s: seq<T>, p: T -> bool)
    ensures Filter(s, p) == [] <==> forall i :: 0 <= i < |s| ==> !p(s[i])
  {
    var r := Filter(s, p);
    if r != [] {
      assert r[0] in r;
    }
    if exists i :: 0 <= i < |s| && p(s[i]) {
      var i :| 0 <= i < |s| && p(s[i]);
      assert s[i] in r;
    }
  }

  /** Some element of `s` satisfies `p` exactly when one before the last
      does or the last one does; `inAll` and `inFront` stand for facts known
      to match those two. */
  lemma {:induction false} ExistsSnoc<T>(s: seq<T>, front: seq<T>, p: T -> bool, inAll: bool, inFront: bool)
    requires s != [] && front == s[..|s| - 1]
    requires inAll <==> inFront || p(s[|s| - 1])
    requires inFront <==> exists i :: 0 <= i < |front| && p(front[i])
    ensures inAll <==> exists i :: 0 <= i < |s| && p(s[i])
  {
    if inFront {
      var i :| 0 <= i < |front| && p(front[i]);
      assert s[i] == front[i];
    }
    if exists i :: 0 <= i < |s| && p(s[i]) {
      var i :| 0 <= i < |s| && p(s[i]);
      if i < |front| {
        assert p(front[i]);
      }
    }
  }

  /** `f` applied to every element, in order. */
  function Map<T, U>(s: seq<T>, f: T -> U): (r: seq<U>)
    ensures |r| == |s|
    ensures forall i :: 0 <= i < |s| ==> r[i] == f(s[i])
  {
    if s == [] then [] else Map(s[..|s| - 1], f) + [f(s[|s| - 1])]
  }

  // ---------------------------------------------------------------------------
  // Searching: the first index whose element satisfies a predicate
  // ---------------------------------------------------------------------------

  /** The first index of `s` at which `p` holds (a "first match wins" loop). */
  function FirstIndex<T(!new)>(s: seq<T>, p: T -> bool): (r: Option<nat>)
    ensures r.None? <==> forall i :: 0 <= i < |s| ==> !p(s[i])
    ensures r.Some? ==> r.value < |s| && p(s[r.value])
    ensures r.Some? ==> forall j :: 0 <= j < r.value ==> !p(s[j])
  {
    if s == [] then None
    else if p(s[0]) then Some(0)
    else match FirstIndex(s[1..], p)
      case None => None
      case Some(i) => Some(i + 1)
  }

  /** The first index from `k` on at which `b` holds. */
  function FirstTrue(b: seq<bool>, k: nat): (r: Option<nat>)
    ensures r.Some? ==> k <= r.value < |b| && b[r.value]
    ensures r.None? ==> forall j :: k <= j < |b| ==> !b[j]
    decreases |b| - k
  {
    if k >= |b| then None
    else if b[k] then Some(k)
    else FirstTrue(b, k + 1)
  }

  /** The first true entry from `k` on is the one found. */
  lemma {:induction false} FirstTrueAt(b: seq<bool>, k: nat, i: nat)
    requires k <= i < |b| && b[i]
    requires forall j :: k <= j < i ==> !b[j]
    ensures FirstTrue(b, k) == Some(i)
    decreases i - k
  {
    if k < i {
      FirstTrueAt(b, k + 1, i);
    }
  }

  // ---------------------------------------------------------------------------
  // Counting and de-duplication
  // ---------------------------------------------------------------------------

  /** Number of occurrences of `x` in `s`. */
  function Count<T(==,!new)>(s: seq<T>, x: T): nat
  {
    if s == [] then 0
    else Count(s[..|s| - 1], x) + (if s[|s| - 1] == x then 1 else 0)
  }

  lemma {:induction false} CountSnoc<T(!new)>(s: seq<T>, y: T, x: T)
    ensures Count(s + [y], x) == Count(s, x) + (if y == x then 1 else 0)
  {
    assert (s + [y])[..|s + [y]| - 1] == s;
  }

  lemma {:induction false} CountPositive<T(!new)>(s: seq<T>, x: T)
    ensures Count(s, x) > 0 <==> x in s
    decreases |s|
  {
    if s != [] {
      var s' := s[..|s| - 1];
      assert s == s' + [s[|s| - 1]];
      CountPositive(s', x);
    }
  }

  ghost predicate NoDuplicates<T(!new)>(s: seq<T>)
  {
    forall i, j :: 0 <= i < j < |s| ==> s[i] != s[j]
  }

  /** The distinct elements of `s` in order of first appearance (pandas
      `Series.unique()`). */
  function Distinct<T(==,!new)>(s: seq<T>): (r: seq<T>)
    ensures NoDuplicates(r)
    ensures forall x :: x in r <==> x in s
    ensures |r| <= |s|
  {
    if s == [] then []
    else
      var d := Distinct(s[..|s| - 1]);
      if s[|s| - 1] in d then d else d + [s[|s| - 1]]
  }

  /** The number of elements of `xs` that lie in `S`. */
  function CountIn<T(!new)>(xs: seq<T>, S: set<T>): nat
  {
    if xs == [] then 0
    else CountIn(xs[..|xs| - 1], S) + (if xs[|xs| - 1] in S then 1 else 0)
  }

  lemma {:induction false} CountInAdd<T(!new)>(xs: seq<T>, S: set<T>, d: T)
    requires d !in S
    ensures CountIn(xs, S + {d}) == CountIn(xs, S) + Count(xs, d)
    decreases |xs|
  {
    if xs != [] {
      CountInAdd(xs[..|xs| - 1], S, d);
    }
  }

  lemma {:induction false} CountInAll<T(!new)>(xs: seq<T>, S: set<T>)
    requires forall x :: x in xs ==> x in S
    ensures CountIn(xs, S) == |xs|
    decreases |xs|
  {
    if xs != [] {
      var xs' := xs[..|xs| - 1];
      assert forall x :: x in xs' ==> x in xs;
      CountInAll(xs', S);
    }
  }

  // ---------------------------------------------------------------------------
  // Sums
  // ---------------------------------------------------------------------------

  function Sum(s: seq<int>): int
  {
    if s == [] then 0 else Sum(s[..|s| - 1]) + s[|s| - 1]
  }

  lemma {:induction false} SumSnoc(s: seq<int>, x: int)
    ensures Sum(s + [x]) == Sum(s) + x
  {
    assert (s + [x])[..|s + [x]| - 1] == s;
  }

  /** The sum of `f` over the elements of `s`. */
  function SumOf<T(!new)>(s: seq<T>, f: T -> int): int
  {
    if s == [] then 0 else SumOf(s[..|s| - 1], f) + f(s[|s| - 1])
  }

  lemma {:induction false} SumOfSnoc<T(!new)>(s: seq<T>, x: T, f: T -> int)
    ensures SumOf(s + [x], f) == SumOf(s, f) + f(x)
  {
    assert (s + [x])[..|s + [x]| - 1] == s;
  }

  lemma {:induction false} SumOfAppend<T(!new)>(a: seq<T>, b: seq<T>, f: T -> int)
    ensures SumOf(a + b, f) == SumOf(a, f) + SumOf(b, f)
    decreases |b|
  {
    if b == [] {
      assert a + b == a;
    } else {
      var b' := b[..|b| - 1];
      assert a + b == (a + b') + [b[|b| - 1]];
      SumOfSnoc(a + b', b[|b| - 1], f);
      SumOfAppend(a, b', f);
    }
  }

  /** Reordering the elements does not change their sum. */
  lemma {:induction false} SumOfPermutation<T(!new)>(a: seq<T>, b: seq<T>, f: T -> int)
    requires multiset(a) == multiset(b)
    ensures SumOf(a, f) == SumOf(b, f)
    decreases |a|
  {
    if a != [] {
      var x := a[|a| - 1];
      var a' := a[..|a| - 1];
      assert a == a' + [x];
      assert multiset(a') == multiset(a) - multiset{x};
      assert x in multiset(b);
      var j :| 0 <= j < |b| && b[j] == x;
      SumOfRemoveAt(b, j, f);
      SumOfPermutation(a', b[..j] + b[j + 1..], f);
    } else {
      assert |b| == |multiset(b)|;
    }
  }

  /** Taking out the element at `j` takes it out of the multiset and its value
      out of the sum. */
  lemma {:induction false} SumOfRemoveAt<T(!new)>(b: seq<T>, j: int, f: T -> int)
    requires 0 <= j < |b|
    ensures multiset(b[..j] + b[j + 1..]) == multiset(b) - multiset{b[j]}
    ensures SumOf(b, f) == SumOf(b[..j] + b[j + 1..], f) + f(b[j])
  {
    var x := b[j];
    assert b == b[..j] + [x] + b[j + 1..];
    assert multiset(b) == multiset(b[..j]) + multiset{x} + multiset(b[j + 1..]);
    SumOfAppend(b[..j] + [x], b[j + 1..], f);
    SumOfSnoc(b[..j], x, f);
    SumOfAppend(b[..j], b[j + 1..], f);
  }

  /** Summing, over distinct keys that cover every element of `xs`, the number
      of occurrences of each key gives the length of `xs`: a per-key count
      table accounts for every row exactly once. */
  lemma {:induction false} SumOfCounts<T(!new)>(ds: seq<T>, xs: seq<T>)
    requires NoDuplicates(ds)
    requires forall x :: x in xs ==> x in ds
    ensures SumOf(ds, d => Count(xs, d)) == |xs|
  {
    SumOfCountsIn(ds, xs);
    CountInAll(xs, set d | d in ds);
  }

  lemma {:induction false} SumOfCountsIn<T(!new)>(ds: seq<T>, xs: seq<T>)
    requires NoDuplicates(ds)
    ensures SumOf(ds, d => Count(xs, d)) == CountIn(xs, set d | d in ds)
    decreases |ds|
  {
    if ds == [] {
      assert (set e | e in ds) == {};
      CountInNone(xs);
    } else {
      var ds' := ds[..|ds| - 1];
      var d := ds[|ds| - 1];
      assert ds == ds' + [d];
      SumOfCountsIn(ds', xs);
      assert (set e | e in ds) == (set e | e in ds') + {d};
      CountInAdd(xs, (set e | e in ds'), d);
    }
  }

  lemma {:induction false} CountInNone<T(!new)>(xs: seq<T>)
    ensures CountIn(xs, {}) == 0
    decreases |xs|
  {
    if xs != [] {
      CountInNone(xs[..|xs| - 1]);
    }
  }

  // ---------------------------------------------------------------------------
  // Sorting by an integer key
  // ---------------------------------------------------------------------------

  ghost predicate SortedBy<T(!new)>(s: seq<T>, key: T -> int)
  {
    forall i, j :: 0 <= i < j < |s| ==> key(s[i]) <= key(s[j])
  }

  /** Insert `x` into `t` before the first element with a larger key, so
      after every element whose key equals its own. */
  function Insert<T(!new)>(t: seq<T>, x: T, key: T -> int): (r: seq<T>)
    ensures multiset(r) == multiset(t) + multiset{x}
    ensures |r| == |t| + 1
  {
    if t == [] then [x]
    else if key(x) < key(t[0]) then [x] + t
    else
      assert t == [t[0]] + t[1..];
      [t[0]] + Insert(t[1..], x, key)
  }

  lemma {:induction false} InsertSorted<T(!new)>(t: seq<T>, x: T, key: T -> int)
    requires SortedBy(t, key)
    ensures SortedBy(Insert(t, x, key), key)
    decreases |t|
  {
    if t != [] && key(x) >= key(t[0]) {
      var rest := Insert(t[1..], x, key);
      InsertSorted(t[1..], x, key);
      forall y | y in rest ensures key(t[0]) <= key(y) {
        assert y in multiset(rest);
        if y != x {
          assert y in t[1..];
        }
      }
      assert Insert(t, x, key) == [t[0]] + rest;
    }
  }

  /** The mask selecting the elements whose key is `k`. */
  function KeyIs<T(!new)>(key: T -> int, k: int): (p: T -> bool)
    ensures forall y :: p(y) <==> key(y) == k
  {
    (y: T) => key(y) == k
  }

  lemma {:induction false} ConcatAssoc<T>(a: seq<T>, b: seq<T>, c: seq<T>)
    ensures a + (b + c) == (a + b) + c
  {
  }

  /** Filtering a sequence that starts with `a`. */
  lemma {:induction false} FilterCons<T(!new)>(a: T, t: seq<T>, p: T -> bool)
    ensures Filter([a] + t, p) == (if p(a) then [a] else []) + Filter(t, p)
  {
    FilterAppend([a], t, p);
    FilterSnoc([], a, p);
    assert [] + [a] == [a];
  }

  /** Inserting into a sorted sequence puts `x` after the elements that share
      its key, and leaves their order as it was. */
  lemma {:induction false} InsertTies<T(!new)>(t: seq<T>, x: T, key: T -> int, k: int)
    requires SortedBy(t, key)
    ensures Filter(Insert(t, x, key), KeyIs(key, k)) == Filter(t, KeyIs(key, k)) + (if key(x) == k then [x] else [])
    decreases |t|
  {
    var p := KeyIs(key, k);
    var e := if key(x) == k then [x] else [];
    if t == [] {
      FilterCons(x, [], p);
      assert [x] + [] == [x];
    } else if key(x) < key(t[0]) {
      InsertBeforeTies(t, x, key, k);
    } else {
      var rest := Insert(t[1..], x, key);
      var h := if p(t[0]) then [t[0]] else [];
      assert Insert(t, x, key) == [t[0]] + rest;
      assert t == [t[0]] + t[1..];
      FilterCons(t[0], t[1..], p);
      InsertTies(t[1..], x, key, k);
      FilterCons(t[0], rest, p);
      assert Filter(rest, p) == Filter(t[1..], p) + e;
      ConcatAssoc(h, Filter(t[1..], p), e);
    }
  }

  /** The case of InsertTies where `x` goes in front. */
  lemma {:induction false} InsertBeforeTies<T(!new)>(t: seq<T>, x: T, key: T -> int, k: int)
    requires SortedBy(t, key) && t != [] && key(x) < key(t[0])
    ensures Filter([x] + t, KeyIs(key, k)) == Filter(t, KeyIs(key, k)) + (if key(x) == k then [x] else [])
  {
    var p := KeyIs(key, k);
    FilterCons(x, t, p);
    if key(x) == k {
      forall i | 0 <= i < |t| ensures !p(t[i]) {
        assert key(t[0]) <= key(t[i]);
      }
      FilterEmpty(t, p);
    }
  }

  /** Insertion sort by `key`, ascending and stable (SortByStable). */
  function SortBy<T(!new)>(s: seq<T>, key: T -> int): (r: seq<T>)
    ensures SortedBy(r, key)
    ensures multiset(r) == multiset(s)
    ensures |r| == |s|
  {
    if s == [] then []
    else
      assert s == s[..|s| - 1] + [s[|s| - 1]];
      InsertSorted(SortBy(s[..|s| - 1], key), s[|s| - 1], key);
      Insert(SortBy(s[..|s| - 1], key), s[|s| - 1], key)
  }

  /** The sort is stable: the elements sharing a key come out in the order
      they had in the input. */
  lemma {:induction false} SortByStable<T(!new)>(s: seq<T>, key: T -> int, k: int)
    ensures Filter(SortBy(s, key), KeyIs(key, k)) == Filter(s, KeyIs(key, k))
    decreases |s|
  {
    if s != [] {
      var s' := s[..|s| - 1];
      SortByStable(s', key, k);
      InsertTies(SortBy(s', key), s[|s| - 1], key, k);
    }
  }

  // ---------------------------------------------------------------------------
  // Dictionaries built from a list of pairs: a later binding of a key wins
  // ---------------------------------------------------------------------------

  function DictFromPairs<K, V>(e: seq<(K, V)>): map<K, V>
  {
    if e == [] then map[]
    else DictFromPairs(e[..|e| - 1])[e[|e| - 1].0 := e[|e| - 1].1]
  }

  ghost predicate Binds<K, V>(e: seq<(K, V)>, k: K)
  {
    exists i :: 0 <= i < |e| && e[i].0 == k
  }

  /** The keys of the dictionary are exactly the keys bound somewhere in `e`. */
  lemma {:induction false} DictFromPairsKeys<K, V>(e: seq<(K, V)>, k: K)
    ensures k in DictFromPairs(e) <==> Binds(e, k)
    decreases |e|
  {
    if e != [] {
      var e' := e[..|e| - 1];
      DictFromPairsKeys(e', k);
      if Binds(e', k) {
        var i :| 0 <= i < |e'| && e'[i].0 == k;
        assert e[i].0 == k;
      }
      if Binds(e, k) && k != e[|e| - 1].0 {
        var i :| 0 <= i < |e| && e[i].0 == k;
        assert e'[i].0 == k;
      }
    }
  }

  /** Building from `a + b` is building from `a` and then overwriting with the
      bindings of `b`. */
  lemma {:induction false} DictFromPairsAppend<K, V>(a: seq<(K, V)>, b: seq<(K, V)>)
    ensures DictFromPairs(a + b) == DictFromPairs(a) + DictFromPairs(b)
    decreases |b|
  {
    if b == [] {
      assert a + b == a;
    } else {
      var b' := b[..|b| - 1];
      assert (a + b)[..|a + b| - 1] == a + b';
      assert (a + b)[|a + b| - 1] == b[|b| - 1];
      DictFromPairsAppend(a, b');
    }
  }

  /** The value bound to `k` is the one from its last binding in `e`. */
  lemma {:induction false} DictFromPairsLastWins<K, V>(e: seq<(K, V)>, i: nat)
    requires i < |e|
    requires forall j :: i < j < |e| ==> e[j].0 != e[i].0
    ensures e[i].0 in DictFromPairs(e) && DictFromPairs(e)[e[i].0] == e[i].1
    decreases |e|
  {
    if i < |e| - 1 {
      var e' := e[..|e| - 1];
      assert forall j :: i < j < |e'| ==> e'[j] == e[j];
      DictFromPairsLastWins(e', i);
    }
  }

  /** Every value of the dictionary comes from a pair of `e`. */
  lemma {:induction false} DictFromPairsValue<K, V>(e: seq<(K, V)>, k: K)
    requires k in DictFromPairs(e)
    ensures (k, DictFromPairs(e)[k]) in e
    decreases |e|
  {
    var e' := e[..|e| - 1];
    if k != e[|e| - 1].0 {
      DictFromPairsValue(e', k);
      assert forall x :: x in e' ==> x in e;
    }
  }

  // ---------------------------------------------------------------------------
  // Counting distinct values, most frequent first
  // ---------------------------------------------------------------------------

  /** Each element of `ds` paired with its number of occurrences in `xs`. */
  function CountPairs<T(==,!new)>(xs: seq<T>, ds: seq<T>): (r: seq<(T, int)>)
    ensures |r| == |ds|
    ensures forall i :: 0 <= i < |ds| ==> r[i] == (ds[i], Count(xs, ds[i]))
  {
    if ds == [] then [] else CountPairs(xs, ds[..|ds| - 1]) + [(ds[|ds| - 1], Count(xs, ds[|ds| - 1]))]
  }

  lemma {:induction false} SumOfCountPairs<T(!new)>(xs: seq<T>, ds: seq<T>)
    ensures SumOf(CountPairs(xs, ds), (e: (T, int)) => e.1) == SumOf(ds, d => Count(xs, d))
    decreases |ds|
  {
    if ds != [] {
      var ds' := ds[..|ds| - 1];
      SumOfCountPairs(xs, ds');
      assert CountPairs(xs, ds)[..|ds| - 1] == CountPairs(xs, ds');
    }
  }

  lemma {:induction false} PermutationMembers<T>(a: seq<T>, b: seq<T>)
    requires multiset(a) == multiset(b)
    ensures forall e :: e in a <==> e in b
  {
    forall e ensures e in a <==> e in b {
      assert e in a <==> e in multiset(a);
      assert e in b <==> e in multiset(b);
    }
  }

  /** Each distinct value of `xs` with its number of occurrences, sorted by
      that number, largest first; the order among equal counts is unspecified. */
  function ValueCounts<T(==,!new)>(xs: seq<T>): (r: seq<(T, int)>)
    ensures forall x :: x in xs <==> exists i :: 0 <= i < |r| && r[i].0 == x
    ensures forall i :: 0 <= i < |r| ==> r[i].1 == Count(xs, r[i].0) > 0
    ensures forall i, j :: 0 <= i < j < |r| ==> r[i].1 >= r[j].1
  {
    var ds := Distinct(xs);
    var counted := CountPairs(xs, ds);
    var r := SortBy(counted, (e: (T, int)) => -e.1);
    PermutationMembers(r, counted);
    CountedPairsFacts(xs, ds, r);
    r
  }

  lemma {:induction false} CountedPairsFacts<T(!new)>(xs: seq<T>, ds: seq<T>, r: seq<(T, int)>)
    requires forall x :: x in ds <==> x in xs
    requires forall e :: e in r <==> e in CountPairs(xs, ds)
    ensures forall x :: x in xs <==> exists i :: 0 <= i < |r| && r[i].0 == x
    ensures forall i :: 0 <= i < |r| ==> r[i].1 == Count(xs, r[i].0) > 0
  {
    var counted := CountPairs(xs, ds);
    forall i | 0 <= i < |r| ensures r[i].1 == Count(xs, r[i].0) > 0 {
      assert r[i] in counted;
      var k :| 0 <= k < |counted| && counted[k] == r[i];
      CountPositive(xs, ds[k]);
    }
    forall x | x in xs ensures exists i :: 0 <= i < |r| && r[i].0 == x {
      var k :| 0 <= k < |ds| && ds[k] == x;
      assert counted[k] in r;
      var i :| 0 <= i < |r| && r[i] == counted[k];
    }
    forall x | (exists i :: 0 <= i < |r| && r[i].0 == x) ensures x in xs {
      var i :| 0 <= i < |r| && r[i].0 == x;
      assert r[i] in counted;
    }
  }

  /** The counts add up to the length of `xs`. */
  lemma {:induction false} ValueCountsTotal<T(!new)>(xs: seq<T>)
    ensures SumOf(ValueCounts(xs), (e: (T, int)) => e.1) == |xs|
  {
    var ds := Distinct(xs);
    var counted := CountPairs(xs, ds);
    SumOfPermutation(ValueCounts(xs), counted, (e: (T, int)) => e.1);
    SumOfCountPairs(xs, ds);
    SumOfCounts(ds, xs);
  }

  // ---------------------------------------------------------------------------
  // Per-key count vectors (groupby(...).size() reindexed with fill_value=0)
  // ---------------------------------------------------------------------------

  /** For each key of `ds`, the number of its occurrences in `xs` (0 when absent). */
  function CountsOf<T(==,!new)>(xs: seq<T>, ds: seq<T>): (r: seq<int>)
    ensures |r| == |ds|
    ensures forall i :: 0 <= i < |ds| ==> r[i] == Count(xs, ds[i])
  {
    if ds == [] then [] else CountsOf(xs, ds[..|ds| - 1]) + [Count(xs, ds[|ds| - 1])]
  }

  lemma {:induction false} CountsOfSnoc<T(!new)>(xs: seq<T>, ds: seq<T>, d: T)
    ensures CountsOf(xs, ds + [d]) == CountsOf(xs, ds) + [Count(xs, d)]
  {
    assert (ds + [d])[..|ds|] == ds;
  }

  lemma {:induction false} SumCountsOfIsSumOf<T(!new)>(xs: seq<T>, ds: seq<T>)
    ensures Sum(CountsOf(xs, ds)) == SumOf(ds, d => Count(xs, d))
    decreases |ds|
  {
    if ds != [] {
      var ds' := ds[..|ds| - 1];
      SumCountsOfIsSumOf(xs, ds');
      assert CountsOf(xs, ds)[..|ds| - 1] == CountsOf(xs, ds');
    }
  }

  /** A count vector over distinct keys that cover every element of `xs`
      adds up to the length of `xs`. */
  lemma {:induction false} SumCountsOf<T(!new)>(xs: seq<T>, ds: seq<T>)
    requires NoDuplicates(ds)
    requires forall x :: x in xs ==> x in ds
    ensures Sum(CountsOf(xs, ds)) == |xs|
  {
    SumCountsOfIsSumOf(xs, ds);
    SumOfCounts(ds, xs);
  }

  /** A sequence without duplicates has as many elements as its set. */
  lemma {:induction false} NoDuplicatesCardinality<T(!new)>(s: seq<T>)
    requires NoDuplicates(s)
    ensures |set x | x in s| == |s|
    decreases |s|
  {
    if s != [] {
      var s' := s[..|s| - 1];
      var x := s[|s| - 1];
      assert s == s' + [x];
      NoDuplicatesCardinality(s');
      assert (set y | y in s) == (set y | y in s') + {x};
      assert x !in (set y | y in s');
    }
  }

  /** `unique()` has one entry per distinct value (`nunique()`). */
  lemma {:induction false} DistinctCardinality<T(!new)>(s: seq<T>)
    ensures |Distinct(s)| == |set x | x in s|
  {
    NoDuplicatesCardinality(Distinct(s));
    assert (set x | x in Distinct(s)) == (set x | x in s);
  }

  // ---------------------------------------------------------------------------
  // The union of the elements of several lists (a set updated list by list)
  // ---------------------------------------------------------------------------

  /** The elements of a list, as a set. */
  function Elements<T(!new)>(s: seq<T>): (r: set<T>)
    ensures forall u :: u in r <==> u in s
  {
    set i | 0 <= i < |s| :: s[i]
  }

  /** Every element of every list. */
  function UnionOf<T(!new)>(lists: seq<seq<T>>): set<T>
  {
    if lists == [] then {} else UnionOf(lists[..|lists| - 1]) + Elements(lists[|lists| - 1])
  }

  lemma {:induction false} UnionOfSnoc<T(!new)>(lists: seq<seq<T>>, l: seq<T>)
    ensures UnionOf(lists + [l]) == UnionOf(lists) + Elements(l)
  {
    assert (lists + [l])[..|lists|] == lists;
  }

  /** An element is in the union exactly when some list holds it. */
  lemma {:induction false} UnionOfMembers<T(!new)>(lists: seq<seq<T>>, u: T)
    ensures u in UnionOf(lists) <==> exists i :: 0 <= i < |lists| && u in lists[i]
    decreases |lists|
  {
    if lists != [] {
      var front, n := lists[..|lists| - 1], |lists| - 1;
      UnionOfMembers(front, u);
      if u in UnionOf(lists) && u in UnionOf(front) {
        var i :| 0 <= i < |front| && u in front[i];
        assert front[i] == lists[i];
      }
      if exists i :: 0 <= i < |lists| && u in lists[i] {
        var i :| 0 <= i < |lists| && u in lists[i];
        if i < n {
          assert front[i] == lists[i];
        }
      }
    }
  }
}
