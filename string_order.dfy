/**
 * The default ordering of `Array.prototype.sort` on strings (lexicographic by
 * character code) and a sort with that ordering, as used by `Object.keys(files).sort()`.
 */
module StringOrder {

  /** `a` sorts strictly before `b`: a proper prefix, or smaller at the first difference. */
  predicate Below(a: string, b: string) {
    if |a| == 0 then |b| > 0
    else if |b| == 0 then false
    else if a[0] == b[0] then Below(a[1..], b[1..])
    else a[0] < b[0]
  }

  /** A string never sorts before itself. */
  lemma {:induction false} BelowIrreflexive(a: string)
    ensures !Below(a, a)
  {
    if |a| > 0 {
      BelowIrreflexive(a[1..]);
    }
  }

  /** Two strings are never each below the other. */
  lemma {:induction false} BelowAsymmetric(a: string, b: string)
    requires Below(a, b)
    ensures !Below(b, a)
  {
    if |a| > 0 && |b| > 0 && a[0] == b[0] {
      BelowAsymmetric(a[1..], b[1..]);
    }
  }

  /** Of two different strings, one sorts before the other. */
  lemma {:induction false} BelowTotal(a: string, b: string)
    requires a != b
    ensures Below(a, b) || Below(b, a)
  {
    if |a| > 0 && |b| > 0 && a[0] == b[0] {
      assert a == [a[0]] + a[1..] && b == [b[0]] + b[1..];
      BelowTotal(a[1..], b[1..]);
    }
  }

  /** The ordering is transitive. */
  lemma {:induction false} BelowTransitive(a: string, b: string, c: string)
    requires Below(a, b) && Below(b, c)
    ensures Below(a, c)
  {
    if |a| > 0 && a[0] == b[0] && b[0] == c[0] {
      BelowTransitive(a[1..], b[1..], c[1..]);
    }
  }

  /** A proper prefix sorts before the longer string. */
  lemma {:induction false} PrefixBelow(p: string, q: string)
    requires |p| < |q| && q[..|p|] == p
    ensures Below(p, q)
  {
    if |p| > 0 {
      assert p[1..] == q[1..][..|p| - 1];
      PrefixBelow(p[1..], q[1..]);
    }
  }

  /** Non-strict order. */
  predicate AtMost(a: string, b: string) {
    a == b || Below(a, b)
  }

  /** Every later element is at least every earlier one. */
  predicate Sorted(s: seq<string>) {
    forall i, j :: 0 <= i < j < |s| ==> AtMost(s[i], s[j])
  }

  /** Every later element is strictly above every earlier one. */
  predicate StrictlySorted(s: seq<string>) {
    forall i, j :: 0 <= i < j < |s| ==> Below(s[i], s[j])
  }

  /** No element occurs twice. */
  predicate Distinct<T(==)>(s: seq<T>) {
    forall i, j :: 0 <= i < j < |s| ==> s[i] != s[j]
  }

  /** Inserts `x` into a sorted list before the first element above it. */
  function InsertSorted(x: string, s: seq<string>): (r: seq<string>)
    requires Sorted(s)
    ensures multiset(r) == multiset(s) + multiset{x}
    ensures Sorted(r)
  {
    if s == [] then [x]
    else if AtMost(x, s[0]) then
      InsertFront(x, s);
      [x] + s
    else
      var rest := InsertSorted(x, s[1..]);
      assert s == [s[0]] + s[1..];
      assert AtMost(s[0], x) by {
        BelowTotal(x, s[0]);
      }
      ConsSorted(s[0], x, s[1..], rest);
      [s[0]] + rest
  }

  /** An element at most the head of a sorted list can go in front of it. */
  lemma InsertFront(x: string, s: seq<string>)
    requires Sorted(s) && s != [] && AtMost(x, s[0])
    ensures Sorted([x] + s)
  {
    forall j | 0 <= j < |s| ensures AtMost(x, s[j]) {
      if x != s[0] && s[0] != s[j] {
        BelowTransitive(x, s[0], s[j]);
      }
    }
    forall i, j | 0 <= i < j < |s| + 1 ensures AtMost(([x] + s)[i], ([x] + s)[j]) {
      if i > 0 {
        assert ([x] + s)[i] == s[i - 1];
      }
    }
  }

  /** A head at most every element of a sorted rest (made of `tail` and `x`) keeps it sorted. */
  lemma ConsSorted(y: string, x: string, tail: seq<string>, rest: seq<string>)
    requires Sorted(tail) && Sorted(rest)
    requires multiset(rest) == multiset(tail) + multiset{x}
    requires AtMost(y, x)
    requires forall j :: 0 <= j < |tail| ==> AtMost(y, tail[j])
    ensures Sorted([y] + rest)
  {
    forall i, j | 0 <= i < j < |rest| + 1 ensures AtMost(([y] + rest)[i], ([y] + rest)[j]) {
      if i == 0 {
        assert rest[j - 1] in multiset(rest);
        assert rest[j - 1] == x || rest[j - 1] in tail;
      }
    }
  }

  /** `Array.prototype.sort()` with the default comparison: a sorted permutation. */
  function Sort(s: seq<string>): (r: seq<string>)
    ensures multiset(r) == multiset(s)
    ensures Sorted(r)
  {
    if s == [] then []
    else
      assert s == [s[0]] + s[1..];
      InsertSorted(s[0], Sort(s[1..]))
  }

  /** Sorting a list without repeats gives a strictly increasing list. */
  lemma SortDistinct(s: seq<string>)
    requires Distinct(s)
    ensures StrictlySorted(Sort(s))
    ensures Distinct(Sort(s))
  {
    var r := Sort(s);
    forall i, j | 0 <= i < j < |r| ensures r[i] != r[j] {
      if r[i] == r[j] {
        MultisetTwice(r, i, j);
        assert multiset(s)[r[i]] >= 2;
        DistinctOnce(s, r[i]);
      }
    }
  }

  /** An element at two indices occurs at least twice. */
  lemma MultisetTwice(r: seq<string>, i: int, j: int)
    requires 0 <= i < j < |r| && r[i] == r[j]
    ensures multiset(r)[r[i]] >= 2
  {
    assert r == r[..i] + [r[i]] + r[i + 1..j] + [r[j]] + r[j + 1..];
  }

  /** In a list without repeats every element occurs at most once. */
  lemma {:induction false} DistinctOnce(s: seq<string>, x: string)
    requires Distinct(s)
    ensures multiset(s)[x] <= 1
  {
    if s != [] {
      assert s == [s[0]] + s[1..];
      DistinctOnce(s[1..], x);
      if x == s[0] {
        assert x !in s[1..];
      }
    }
  }
}
