/** Sorting and counting over sequences, used for `np.argsort`/`np.sort` and for
    intensity thresholds of the form "the n-th largest value". */
module Sorting {

  /** `s` is in ascending order of `key`. */
  predicate SortedBy<T>(s: seq<T>, key: T -> real) {
    forall i, j :: 0 <= i < j < |s| ==> key(s[i]) <= key(s[j])
  }

  function Insert<T>(x: T, s: seq<T>, key: T -> real): (r: seq<T>)
    requires SortedBy(s, key)
    ensures SortedBy(r, key)
    ensures multiset(r) == multiset(s) + multiset{x}
    ensures |r| == |s| + 1
    ensures r[0] == x || (s != [] && r[0] == s[0])
  {
    if s == [] then [x]
    else if key(x) <= key(s[0]) then
      ConsSorted(x, s, key);
      [x] + s
    else
      var t := Insert(x, s[1..], key);
      assert s == [s[0]] + s[1..];
      InsertBehind(x, s[0], s[1..], t, key);
      [s[0]] + t
  }

  /** Inserting `x` behind a head `h` smaller than it: `h` stays in front of
      the insertion into the rest. */
  lemma InsertBehind<T>(x: T, h: T, rest: seq<T>, t: seq<T>, key: T -> real)
    requires SortedBy([h] + rest, key) && key(h) < key(x)
    requires SortedBy(t, key) && multiset(t) == multiset(rest) + multiset{x}
    requires t != [] && (t[0] == x || (rest != [] && t[0] == rest[0]))
    ensures SortedBy([h] + t, key)
    ensures multiset([h] + t) == multiset([h] + rest) + multiset{x}
  {
    if t[0] != x {
      var hr := [h] + rest;
      assert hr[0] == h && hr[1] == rest[0];
      assert key(hr[0]) <= key(hr[1]);
    }
    ConsSorted(h, t, key);
  }

  /** An element no larger than the head of a sorted sequence can go in front. */
  lemma ConsSorted<T>(y: T, t: seq<T>, key: T -> real)
    requires SortedBy(t, key) && (t != [] ==> key(y) <= key(t[0]))
    ensures SortedBy([y] + t, key)
  {
    var r := [y] + t;
    forall i, j | 0 <= i < j < |r| ensures key(r[i]) <= key(r[j]) {
      if i == 0 {
        assert r[j] == t[j - 1];
        assert j - 1 == 0 || key(t[0]) <= key(t[j - 1]);
      } else {
        assert r[i] == t[i - 1] && r[j] == t[j - 1];
      }
    }
  }

  /** A sort by `key` (insertion sort, stable). */
  function SortBy<T>(s: seq<T>, key: T -> real): (r: seq<T>)
    ensures SortedBy(r, key)
    ensures multiset(r) == multiset(s)
    ensures |r| == |s|
  {
    if s == [] then []
    else
      assert s == [s[0]] + s[1..];
      Insert(s[0], SortBy(s[1..], key), key)
  }

  function Identity(x: real): real { x }

  /** The number of elements of `s` satisfying `p`. */
  function CountIf<T>(s: seq<T>, p: T -> bool): (n: nat)
    ensures n <= |s|
  {
    if s == [] then 0 else (if p(s[0]) then 1 else 0) + CountIf(s[1..], p)
  }

  lemma {:induction false} CountIfConcat<T>(a: seq<T>, b: seq<T>, p: T -> bool)
    ensures CountIf(a + b, p) == CountIf(a, p) + CountIf(b, p)
  {
    if a == [] {
      assert a + b == b;
    } else {
      assert (a + b)[0] == a[0];
      assert (a + b)[1..] == a[1..] + b;
      CountIfConcat(a[1..], b, p);
    }
  }

  lemma {:induction false} CountIfAll<T>(s: seq<T>, p: T -> bool)
    requires forall i :: 0 <= i < |s| ==> p(s[i])
    ensures CountIf(s, p) == |s|
  {
    if s != [] {
      CountIfAll(s[1..], p);
    }
  }

  lemma {:induction false} CountIfNone<T>(s: seq<T>, p: T -> bool)
    requires forall i :: 0 <= i < |s| ==> !p(s[i])
    ensures CountIf(s, p) == 0
  {
    if s != [] {
      CountIfNone(s[1..], p);
    }
  }

  /** A count depends only on the multiset of elements. */
  lemma {:induction false} CountIfMultiset<T>(a: seq<T>, b: seq<T>, p: T -> bool)
    requires multiset(a) == multiset(b)
    ensures CountIf(a, p) == CountIf(b, p)
    decreases |a|
  {
    if a == [] {
      assert |b| == |multiset(b)| == 0;
    } else {
      var x := a[0];
      assert x in multiset(b);
      var j :| 0 <= j < |b| && b[j] == x;
      var b' := b[..j] + b[j + 1..];
      MultisetRemoveAt(a, b, j);
      CountIfMultiset(a[1..], b', p);
      CountIfRemoveAt(b, j, p);
    }
  }

  /** Taking the head of `a` and the same element at `j` out of `b` leaves equal multisets. */
  lemma MultisetRemoveAt<T>(a: seq<T>, b: seq<T>, j: nat)
    requires multiset(a) == multiset(b) && a != [] && j < |b| && b[j] == a[0]
    ensures multiset(a[1..]) == multiset(b[..j] + b[j + 1..])
  {
    var x := a[0];
    assert b == b[..j] + [x] + b[j + 1..];
    assert a == [x] + a[1..];
    assert multiset(b) == multiset(b[..j]) + multiset{x} + multiset(b[j + 1..]);
    assert multiset(b[..j] + b[j + 1..]) == multiset(b[..j]) + multiset(b[j + 1..]);
    assert multiset(a) == multiset{x} + multiset(a[1..]);
    assert multiset(a[1..]) == multiset(a) - multiset{x};
    assert multiset(b[..j] + b[j + 1..]) == multiset(b) - multiset{x};
  }

  /** The count of `b` is that of `b` without position `j`, plus that element. */
  lemma CountIfRemoveAt<T>(b: seq<T>, j: nat, p: T -> bool)
    requires j < |b|
    ensures CountIf(b, p) == CountIf(b[..j] + b[j + 1..], p) + (if p(b[j]) then 1 else 0)
  {
    assert b == b[..j] + [b[j]] + b[j + 1..];
    assert CountIf([b[j]], p) == if p(b[j]) then 1 else 0;
    CountIfConcat(b[..j] + [b[j]], b[j + 1..], p);
    CountIfConcat(b[..j], [b[j]], p);
    CountIfConcat(b[..j], b[j + 1..], p);
  }

  /** The `n`-th largest element: `np.sort(s)[-n]`. */
  function NthLargest(s: seq<real>, n: nat): (t: real)
    requires 1 <= n <= |s|
  {
    SortBy(s, Identity)[|s| - n]
  }

  /** The predicates "at least t" and "above t", as values. */
  function AtLeast(t: real): real -> bool { x => x >= t }
  function Above(t: real): real -> bool { x => x > t }

  /** In an ascending sequence, the element at position m is reached by the
      |ss| - m elements from m on. */
  lemma SortedAtLeast(ss: seq<real>, m: nat)
    requires SortedBy(ss, Identity)
    requires m < |ss|
    ensures CountIf(ss, AtLeast(ss[m])) >= |ss| - m
  {
    var t := ss[m];
    var lo, hi := ss[..m], ss[m..];
    assert ss == lo + hi;
    CountIfConcat(lo, hi, AtLeast(t));
    forall i | 0 <= i < |hi| ensures AtLeast(t)(hi[i]) {
      assert hi[i] == ss[m + i];
      assert Identity(ss[m]) <= Identity(ss[m + i]);
    }
    CountIfAll(hi, AtLeast(t));
  }

  /** In an ascending sequence, the element at position m is exceeded by at
      most the |ss| - m - 1 elements after it. */
  lemma SortedAbove(ss: seq<real>, m: nat)
    requires SortedBy(ss, Identity)
    requires m < |ss|
    ensures CountIf(ss, Above(ss[m])) <= |ss| - m - 1
  {
    var t := ss[m];
    var lo, hi := ss[..m + 1], ss[m + 1..];
    assert ss == lo + hi;
    CountIfConcat(lo, hi, Above(t));
    forall i | 0 <= i < |lo| ensures !Above(t)(lo[i]) {
      assert lo[i] == ss[i];
      assert i == m || Identity(ss[i]) <= Identity(ss[m]);
    }
    CountIfNone(lo, Above(t));
  }

  /** The n-th largest value is an element of the sequence. */
  lemma NthLargestIn(s: seq<real>, n: nat)
    requires 1 <= n <= |s|
    ensures NthLargest(s, n) in s
  {
    var ss := SortBy(s, Identity);
    assert ss[|s| - n] in multiset(ss);
  }

  /** A count over a permutation of an ascending sequence: the element at
      position m is reached by at least |ss| - m elements. */
  lemma PermutedAtLeast(s: seq<real>, ss: seq<real>, m: nat)
    requires SortedBy(ss, Identity) && multiset(s) == multiset(ss)
    requires m < |ss|
    ensures CountIf(s, AtLeast(ss[m])) >= |ss| - m
  {
    SortedAtLeast(ss, m);
    CountIfMultiset(s, ss, AtLeast(ss[m]));
  }

  /** ... and exceeded by at most |ss| - m - 1 of them. */
  lemma PermutedAbove(s: seq<real>, ss: seq<real>, m: nat)
    requires SortedBy(ss, Identity) && multiset(s) == multiset(ss)
    requires m < |ss|
    ensures CountIf(s, Above(ss[m])) <= |ss| - m - 1
  {
    SortedAbove(ss, m);
    CountIfMultiset(s, ss, Above(ss[m]));
  }

  /** At least `n` elements reach the n-th largest value, counted in the
      sorted copy `ss` and carried back to `s`. */
  lemma ReachedInSorted(s: seq<real>, n: nat, ss: seq<real>)
    requires 1 <= n <= |s| && ss == SortBy(s, Identity)
    ensures CountIf(s, AtLeast(NthLargest(s, n))) >= n
  {
    PermutedAtLeast(s, ss, |s| - n);
  }

  /** Fewer than `n` elements exceed the n-th largest value, counted in the
      sorted copy `ss`. */
  lemma ExceededInSorted(s: seq<real>, n: nat, ss: seq<real>)
    requires 1 <= n <= |s| && ss == SortBy(s, Identity)
    ensures CountIf(s, Above(NthLargest(s, n))) < n
  {
    PermutedAbove(s, ss, |s| - n);
  }

  /** At least `n` elements reach the n-th largest value. */
  lemma NthLargestReached(s: seq<real>, n: nat)
    requires 1 <= n <= |s|
    ensures CountIf(s, AtLeast(NthLargest(s, n))) >= n
  {
    ReachedInSorted(s, n, SortBy(s, Identity));
  }

  /** Fewer than `n` elements exceed the n-th largest value. */
  lemma NthLargestExceeded(s: seq<real>, n: nat)
    requires 1 <= n <= |s|
    ensures CountIf(s, Above(NthLargest(s, n))) < n
  {
    ExceededInSorted(s, n, SortBy(s, Identity));
  }

  /** Uniqueness: a value with both counting properties is the n-th largest. */
  lemma NthLargestUnique(s: seq<real>, n: nat, t: real)
    requires 1 <= n <= |s|
    requires CountIf(s, AtLeast(t)) >= n
    requires CountIf(s, Above(t)) < n
    ensures t == NthLargest(s, n)
  {
    var u := NthLargest(s, n);
    NthLargestReached(s, n);
    NthLargestExceeded(s, n);
    if t < u {
      CountIfMono(s, AtLeast(u), Above(t));
    } else if u < t {
      CountIfMono(s, AtLeast(t), Above(u));
    }
  }

  lemma {:induction false} CountIfMono<T>(s: seq<T>, p: T -> bool, q: T -> bool)
    requires forall x :: p(x) ==> q(x)
    ensures CountIf(s, p) <= CountIf(s, q)
  {
    if s != [] {
      CountIfMono(s[1..], p, q);
    }
  }
}
