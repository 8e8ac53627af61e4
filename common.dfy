/** Values shared by every part of the model: optional and failing results, the
    exceptions the core raises or catches, Kotlin's fixed-width integers, and a
    few sequence helpers. */
module Common {

  datatype Option<T> = None | Some(value: T)

  /** The outcome of a call that may throw. */
  datatype Result<T> = Ok(value: T) | Err(error: Throwable)

  /** The exceptions the synchronisation core raises or catches. */
  datatype Throwable =
    | IOFailure(message: string)         // a transport or parse failure reaching a remote host
    | NullPointer                        // a member access on a row that is absent
    | SQLiteConstraint(message: string)  // a UNIQUE or FOREIGN KEY constraint failed

  const LONG_MIN: int := -0x8000_0000_0000_0000
  const LONG_MAX: int := 0x7FFF_FFFF_FFFF_FFFF
  const INT_MIN: int := -0x8000_0000
  const INT_MAX: int := 0x7FFF_FFFF

  /** Kotlin's Long. */
  type Long = x: int | LONG_MIN <= x <= LONG_MAX

  /** Kotlin's Int. */
  type Int32 = x: int | INT_MIN <= x <= INT_MAX

  /** Long.toInt(): keeps the low 32 bits, read as two's complement. */
  function LongToInt(x: Long): (r: Int32)
    ensures (r - x) % 0x1_0000_0000 == 0
    ensures INT_MIN <= x <= INT_MAX ==> r == x
  {
    var low := x % 0x1_0000_0000;
    if low <= INT_MAX then low else low - 0x1_0000_0000
  }

  /** The elements of `xs` that satisfy `p`, in their original order. */
  function Filter<T>(xs: seq<T>, p: T -> bool): seq<T> {
    if xs == [] then []
    else (if p(xs[0]) then [xs[0]] else []) + Filter(xs[1..], p)
  }

  lemma {:induction false} FilterMembership<T>(xs: seq<T>, p: T -> bool, x: T)
    ensures x in Filter(xs, p) <==> x in xs && p(x)
  {
    if xs != [] {
      FilterMembership(xs[1..], p, x);
    }
  }

  lemma {:induction false} FilterAppend<T>(xs: seq<T>, ys: seq<T>, p: T -> bool)
    ensures Filter(xs + ys, p) == Filter(xs, p) + Filter(ys, p)
  {
    if xs == [] {
      assert xs + ys == ys;
    } else {
      var head := if p(xs[0]) then [xs[0]] else [];
      assert (xs + ys)[0] == xs[0];
      assert (xs + ys)[1..] == xs[1..] + ys;
      FilterAppend(xs[1..], ys, p);
      calc {
        Filter(xs + ys, p);
        head + Filter(xs[1..] + ys, p);
        head + (Filter(xs[1..], p) + Filter(ys, p));
        (head + Filter(xs[1..], p)) + Filter(ys, p);
      }
    }
  }

  /** No element occurs twice. */
  ghost predicate Distinct<T>(s: seq<T>) {
    forall i, j :: 0 <= i < j < |s| ==> s[i] != s[j]
  }

  lemma {:induction false} FilterDistinct<T>(xs: seq<T>, p: T -> bool)
    requires Distinct(xs)
    ensures Distinct(Filter(xs, p))
  {
    if xs != [] {
      assert Distinct(xs[1..]);
      FilterDistinct(xs[1..], p);
      FilterMembership(xs[1..], p, xs[0]);
    }
  }

  /** `f` applied to every element of `xs`. */
  function Map<T, U>(xs: seq<T>, f: T -> U): (r: seq<U>)
    ensures |r| == |xs|
    ensures forall i :: 0 <= i < |xs| ==> r[i] == f(xs[i])
  {
    seq(|xs|, i requires 0 <= i < |xs| => f(xs[i]))
  }

  // ---------------------------------------------------------------------------
  // sortedWith(compareBy(key))
  // ---------------------------------------------------------------------------

  /** Insert `x` after every leading element whose key does not exceed its own. */
  function InsertBy<T>(x: T, sorted: seq<T>, key: T -> int): seq<T> {
    if sorted == [] then [x]
    else if key(sorted[0]) <= key(x) then [sorted[0]] + InsertBy(x, sorted[1..], key)
    else [x] + sorted
  }

  /** sortedWith(compareBy(key)), a stable sort, as insertion of each element after
      the sorted elements that precede it. */
  function SortBy<T>(xs: seq<T>, key: T -> int): seq<T> {
    if xs == [] then []
    else InsertBy(xs[|xs| - 1], SortBy(xs[..|xs| - 1], key), key)
  }

  ghost predicate SortedBy<T>(s: seq<T>, key: T -> int) {
    forall i, j :: 0 <= i < j < |s| ==> key(s[i]) <= key(s[j])
  }

  /** The elements of `s` whose key is `k`, in their order in `s`. */
  function WithKey<T>(s: seq<T>, key: T -> int, k: int): seq<T> {
    if s == [] then [] else (if key(s[0]) == k then [s[0]] else []) + WithKey(s[1..], key, k)
  }

  lemma {:induction false} WithKeyAppend<T>(a: seq<T>, b: seq<T>, key: T -> int, k: int)
    ensures WithKey(a + b, key, k) == WithKey(a, key, k) + WithKey(b, key, k)
  {
    if a == [] {
      assert a + b == b;
    } else {
      assert (a + b)[1..] == a[1..] + b;
      WithKeyAppend(a[1..], b, key, k);
    }
  }

  lemma {:induction false} WithKeyAbove<T>(s: seq<T>, key: T -> int, k: int)
    requires forall i :: 0 <= i < |s| ==> key(s[i]) > k
    ensures WithKey(s, key, k) == []
  {
    if s != [] {
      WithKeyAbove(s[1..], key, k);
    }
  }

  /** Inserting adds exactly `x`. */
  lemma {:induction false} InsertByPermutes<T>(x: T, s: seq<T>, key: T -> int)
    ensures multiset(InsertBy(x, s, key)) == multiset(s) + multiset{x}
  {
    if s != [] {
      assert s == [s[0]] + s[1..];
      if key(s[0]) <= key(x) {
        InsertByPermutes(x, s[1..], key);
      }
    }
  }

  /** Inserting into a sorted sequence keeps it sorted. */
  lemma {:induction false} InsertBySorted<T>(x: T, s: seq<T>, key: T -> int)
    requires SortedBy(s, key)
    ensures SortedBy(InsertBy(x, s, key), key)
  {
    if s != [] && key(s[0]) <= key(x) {
      var tail := InsertBy(x, s[1..], key);
      InsertBySorted(x, s[1..], key);
      InsertByPermutes(x, s[1..], key);
      var r := [s[0]] + tail;
      forall j | 0 < j < |r| ensures key(s[0]) <= key(r[j]) {
        assert r[j] == tail[j - 1];
        assert r[j] in multiset(tail);
        assert r[j] in multiset(s[1..]) || r[j] == x;
      }
    }
  }

  /** Inserting into a sorted sequence places `x` after every element with an
      equal key and disturbs no other key. */
  lemma {:induction false} InsertByStable<T>(x: T, s: seq<T>, key: T -> int, k: int)
    requires SortedBy(s, key)
    ensures WithKey(InsertBy(x, s, key), key, k) == WithKey(s, key, k) + (if key(x) == k then [x] else [])
  {
    var extra := if key(x) == k then [x] else [];
    if s == [] {
      assert WithKey([x], key, k) == extra + WithKey([], key, k);
    } else if key(s[0]) <= key(x) {
      var head := if key(s[0]) == k then [s[0]] else [];
      var tail := InsertBy(x, s[1..], key);
      assert SortedBy(s[1..], key);
      InsertByStable(x, s[1..], key, k);
      assert ([s[0]] + tail)[1..] == tail;
      calc {
        WithKey(InsertBy(x, s, key), key, k);
        WithKey([s[0]] + tail, key, k);
        head + WithKey(tail, key, k);
        head + (WithKey(s[1..], key, k) + extra);
        (head + WithKey(s[1..], key, k)) + extra;
        WithKey(s, key, k) + extra;
      }
    } else {
      assert ([x] + s)[1..] == s;
      assert WithKey([x] + s, key, k) == extra + WithKey(s, key, k);
      if key(x) == k {
        WithKeyAbove(s, key, k);
      }
    }
  }

  /** The sort returns a permutation of its input, sorted by key, in which elements
      with equal keys keep their input order. */
  lemma {:induction false} SortByFacts<T>(xs: seq<T>, key: T -> int)
    ensures SortedBy(SortBy(xs, key), key)
    ensures multiset(SortBy(xs, key)) == multiset(xs)
    ensures forall k :: WithKey(SortBy(xs, key), key, k) == WithKey(xs, key, k)
  {
    if xs != [] {
      var init, last := xs[..|xs| - 1], xs[|xs| - 1];
      var sortedInit := SortBy(init, key);
      SortByFacts(init, key);
      InsertBySorted(last, sortedInit, key);
      InsertByPermutes(last, sortedInit, key);
      assert xs == init + [last];
      forall k ensures WithKey(SortBy(xs, key), key, k) == WithKey(xs, key, k) {
        InsertByStable(last, sortedInit, key, k);
        WithKeyAppend(init, [last], key, k);
      }
    }
  }
}
