/** First-match search, order-preserving filtering and stable sorting on sequences:
    the list idioms (`for ... return`, comprehensions, `sorted(key=...)`) the server uses. */
module Seqs {
  import opened Wrappers

  /** Index of the first element of `s` that satisfies `p`, if any. */
  function FirstIndex<T>(s: seq<T>, p: T -> bool): (r: Option<nat>)
    ensures r.None? <==> forall i | 0 <= i < |s| :: !p(s[i])
    ensures r.Some? ==> r.value < |s| && p(s[r.value])
    ensures r.Some? ==> forall j | 0 <= j < r.value :: !p(s[j])
  {
    if s == [] then None
    else if p(s[0]) then Some(0)
    else match FirstIndex(s[1..], p)
      case None => None
      case Some(k) => Some(k + 1)
  }

  /** `r` is what a linear search for `p` over `s` with early return yields. */
  ghost predicate IsFirstMatch<T>(s: seq<T>, p: T -> bool, r: Option<T>) {
    match r
    case None => forall i | 0 <= i < |s| :: !p(s[i])
    case Some(x) => exists k | 0 <= k < |s| :: s[k] == x && p(x) && forall j | 0 <= j < k :: !p(s[j])
  }

  /** The first element of `s` that satisfies `p`, if any. */
  function FirstMatch<T>(s: seq<T>, p: T -> bool): (r: Option<T>)
    ensures IsFirstMatch(s, p, r)
  {
    match FirstIndex(s, p)
    case None => None
    case Some(k) => Some(s[k])
  }

  /** A search reaching its first hit at `k` has found what FirstIndex finds. */
  lemma FirstIndexUnique<T>(s: seq<T>, p: T -> bool, k: nat)
    requires k < |s| && p(s[k])
    requires forall j | 0 <= j < k :: !p(s[j])
    ensures FirstIndex(s, p) == Some(k)
  {
  }

  /** Any result of a first-match search is the one FirstMatch gives. */
  lemma FirstMatchUnique<T>(s: seq<T>, p: T -> bool, r: Option<T>)
    requires IsFirstMatch(s, p, r)
    ensures r == FirstMatch(s, p)
  {
    match r
    case None =>
    case Some(x) =>
      var k :| 0 <= k < |s| && s[k] == x && p(x) && forall j | 0 <= j < k :: !p(s[j]);
      FirstIndexUnique(s, p, k);
  }

  /** The elements of `s` that satisfy `p`, in their order in `s` (a list comprehension). */
  function Filter<T>(s: seq<T>, p: T -> bool): (r: seq<T>)
    ensures |r| <= |s|
    ensures forall i | 0 <= i < |r| :: p(r[i]) && r[i] in s
    ensures forall i | 0 <= i < |s| :: p(s[i]) ==> s[i] in r
  {
    if s == [] then []
    else
      assert s == [s[0]] + s[1..];
      (if p(s[0]) then [s[0]] else []) + Filter(s[1..], p)
  }

  /** Filtering distributes over concatenation, so it keeps relative order. */
  lemma {:induction false} FilterAppend<T>(a: seq<T>, b: seq<T>, p: T -> bool)
    ensures Filter(a + b, p) == Filter(a, p) + Filter(b, p)
  {
    if a == [] {
      assert a + b == b;
    } else {
      assert (a + b)[1..] == a[1..] + b;
      FilterAppend(a[1..], b, p);
    }
  }

  /** Filtering a prefix gives a prefix of the filtered sequence. */
  lemma FilterPrefix<T>(s: seq<T>, n: nat, p: T -> bool)
    requires n <= |s|
    ensures Filter(s[..n], p) <= Filter(s, p)
  {
    assert s == s[..n] + s[n..];
    FilterAppend(s[..n], s[n..], p);
  }

  /** The head of a filtered sequence is the first match. */
  lemma {:induction false} FilterHead<T>(s: seq<T>, p: T -> bool)
    ensures Filter(s, p) != [] <==> FirstIndex(s, p).Some?
    ensures Filter(s, p) != [] ==> Filter(s, p)[0] == s[FirstIndex(s, p).value]
  {
    if s != [] && !p(s[0]) {
      FilterHead(s[1..], p);
    }
  }

  /** Keys are non-decreasing along `s`. */
  ghost predicate SortedBy<T>(s: seq<T>, key: T -> int) {
    forall i, j | 0 <= i < j < |s| :: key(s[i]) <= key(s[j])
  }

  /** The elements whose key is `k`. */
  function KeyIs<T>(key: T -> int, k: int): T -> bool {
    x => key(x) == k
  }

  /** Inserts `x` in front of the first element whose key is not smaller than its own. */
  function Insert<T>(x: T, s: seq<T>, key: T -> int): (r: seq<T>)
    ensures multiset(r) == multiset(s) + multiset{x}
  {
    if s == [] || key(x) <= key(s[0]) then [x] + s
    else
      assert s == [s[0]] + s[1..];
      [s[0]] + Insert(x, s[1..], key)
  }

  /** Inserting into a sorted sequence keeps it sorted. */
  lemma {:induction false} InsertSorted<T>(x: T, s: seq<T>, key: T -> int)
    requires SortedBy(s, key)
    ensures SortedBy(Insert(x, s, key), key)
  {
    if s != [] && key(x) > key(s[0]) {
      var t := Insert(x, s[1..], key);
      InsertSorted(x, s[1..], key);
      forall i | 0 <= i < |t| ensures key(s[0]) <= key(t[i]) {
        assert t[i] in multiset(t);
        if t[i] != x {
          assert t[i] in multiset(s[1..]);
          var j :| 0 <= j < |s[1..]| && s[1..][j] == t[i];
          assert s[j + 1] == t[i];
        }
      }
      assert Insert(x, s, key) == [s[0]] + t;
    }
  }

  /** Filtering a sequence with a known first element. */
  lemma FilterCons<T>(a: T, t: seq<T>, p: T -> bool)
    ensures Filter([a] + t, p) == (if p(a) then [a] else []) + Filter(t, p)
  {
    assert ([a] + t)[1..] == t;
  }

  /** The recursive step of InsertStable: `a` has a smaller key than `x`, so at most one of
      the two passes a filter on one key. */
  lemma InsertStableStep<T>(a: T, x: T, t: seq<T>, s: seq<T>, key: T -> int, k: int)
    requires key(a) < key(x)
    requires Filter(t, KeyIs(key, k)) == (if key(x) == k then [x] else []) + Filter(s, KeyIs(key, k))
    ensures Filter([a] + t, KeyIs(key, k)) == (if key(x) == k then [x] else []) + Filter([a] + s, KeyIs(key, k))
  {
    var p := KeyIs(key, k);
    FilterCons(a, t, p);
    FilterCons(a, s, p);
    if key(x) == k {
      assert !p(a);
    } else {
      assert Filter(t, p) == Filter(s, p);
    }
  }

  /** Inserting `x` puts it before every element of equal key and keeps their order. */
  lemma {:induction false} InsertStable<T>(x: T, s: seq<T>, key: T -> int, k: int)
    ensures Filter(Insert(x, s, key), KeyIs(key, k))
         == (if key(x) == k then [x] else []) + Filter(s, KeyIs(key, k))
  {
    if s == [] || key(x) <= key(s[0]) {
      assert Insert(x, s, key) == [x] + s;
      FilterCons(x, s, KeyIs(key, k));
    } else {
      InsertStable(x, s[1..], key, k);
      assert Insert(x, s, key) == [s[0]] + Insert(x, s[1..], key);
      assert s == [s[0]] + s[1..];
      InsertStableStep(s[0], x, Insert(x, s[1..], key), s[1..], key, k);
    }
  }

  /** Insertion sort by `key`; stable, like Python's `sorted`. */
  function SortByKey<T>(s: seq<T>, key: T -> int): (r: seq<T>)
    ensures multiset(r) == multiset(s)
    ensures |r| == |s|
    ensures SortedBy(r, key)
  {
    if s == [] then []
    else
      assert s == [s[0]] + s[1..];
      var t := SortByKey(s[1..], key);
      InsertSorted(s[0], t, key);
      Insert(s[0], t, key)
  }

  /** Stability: the elements of any one key appear in the same order as in the input. */
  lemma {:induction false} SortStable<T>(s: seq<T>, key: T -> int, k: int)
    ensures Filter(SortByKey(s, key), KeyIs(key, k)) == Filter(s, KeyIs(key, k))
  {
    if s != [] {
      SortStable(s[1..], key, k);
      InsertStable(s[0], SortByKey(s[1..], key), key, k);
    }
  }

  /** In a sorted sequence nothing after position n has a smaller key than what precedes it. */
  lemma SortedSuffixNotSmaller<T>(sorted: seq<T>, key: T -> int, n: nat)
    requires n <= |sorted| && SortedBy(sorted, key)
    ensures forall x | x in multiset(sorted[n..]) :: forall i | 0 <= i < n :: key(sorted[i]) <= key(x)
  {
    forall x | x in multiset(sorted[n..]) ensures forall i | 0 <= i < n :: key(sorted[i]) <= key(x) {
      var j :| 0 <= j < |sorted[n..]| && sorted[n..][j] == x;
      assert sorted[n + j] == x;
    }
  }

  /** The first n elements of a sorted rearrangement of `s` are n of the smallest: none of
      the others has a smaller key. */
  lemma SortedPrefixSmallest<T>(sorted: seq<T>, s: seq<T>, key: T -> int, n: nat)
    requires multiset(sorted) == multiset(s) && SortedBy(sorted, key) && n <= |sorted|
    ensures multiset(sorted[..n]) <= multiset(s)
    ensures forall x | x in multiset(s) - multiset(sorted[..n]) ::
      forall i | 0 <= i < n :: key(sorted[i]) <= key(x)
  {
    assert sorted == sorted[..n] + sorted[n..];
    assert multiset(s) - multiset(sorted[..n]) == multiset(sorted[n..]);
    SortedSuffixNotSmaller(sorted, key, n);
  }

  /** The first n elements of the sorted sequence take, for each key, the earliest elements
      of that key in input order. */
  lemma SortedPrefixStable<T>(s: seq<T>, key: T -> int, n: nat)
    requires n <= |s|
    ensures forall d :: Filter(SortByKey(s, key)[..n], KeyIs(key, d)) <= Filter(s, KeyIs(key, d))
  {
    forall d ensures Filter(SortByKey(s, key)[..n], KeyIs(key, d)) <= Filter(s, KeyIs(key, d)) {
      FilterPrefix(SortByKey(s, key), n, KeyIs(key, d));
      SortStable(s, key, d);
    }
  }
}
