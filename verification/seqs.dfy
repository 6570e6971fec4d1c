/** Sequence helpers shared by the controllers and the editor:
    `findIndex`, `indexOf` and `filter` as JavaScript arrays have them. */
module Seqs {

  /** `s.findIndex(p)`: the first index satisfying `p`, or -1. */
  function First<T>(s: seq<T>, p: T -> bool): (i: int)
    ensures -1 <= i < |s|
    ensures 0 <= i ==> p(s[i])
  {
    if s == [] then -1
    else if p(s[0]) then 0
    else
      var j := First(s[1..], p);
      if j == -1 then -1 else j + 1
  }

  /** No element before the index `First` returns satisfies `p`, and none
      at all when it returns -1. */
  lemma {:induction false} FirstBefore<T>(s: seq<T>, p: T -> bool, k: int)
    requires 0 <= k < |s| && (First(s, p) == -1 || k < First(s, p))
    ensures !p(s[k])
  {
    if k > 0 && !p(s[0]) {
      FirstBefore(s[1..], p, k - 1);
    }
  }

  /** `First` returns -1 exactly when no element satisfies `p`. */
  lemma FirstNone<T>(s: seq<T>, p: T -> bool)
    ensures First(s, p) == -1 <==> forall k :: 0 <= k < |s| ==> !p(s[k])
  {
    if First(s, p) == -1 {
      forall k | 0 <= k < |s|
        ensures !p(s[k])
      {
        FirstBefore(s, p, k);
      }
    }
  }

  /** `s.indexOf(x)`: the index of the first occurrence of `x`, or -1. */
  function IndexOf<T(==)>(s: seq<T>, x: T): (i: int)
    ensures -1 <= i < |s|
    ensures 0 <= i ==> s[i] == x
  {
    if s == [] then -1
    else if s[0] == x then 0
    else
      var j := IndexOf(s[1..], x);
      if j == -1 then -1 else j + 1
  }

  /** `IndexOf` gives -1 exactly when `x` is absent, and otherwise its first
      occurrence. */
  lemma {:induction false} IndexOfFirst<T>(s: seq<T>, x: T)
    ensures IndexOf(s, x) == -1 <==> x !in s
    ensures 0 <= IndexOf(s, x) ==> x !in s[..IndexOf(s, x)]
  {
    if s != [] && s[0] != x {
      IndexOfFirst(s[1..], x);
      assert s == [s[0]] + s[1..];
      if IndexOf(s, x) >= 0 {
        assert s[..IndexOf(s, x)] == [s[0]] + s[1..][..IndexOf(s[1..], x)];
      }
    }
  }

  /** Before its first occurrence, `x` is found right after the prefix. */
  lemma {:induction false} IndexOfSplit<T>(a: seq<T>, x: T, b: seq<T>)
    requires x !in a
    ensures IndexOf(a + [x] + b, x) == |a|
  {
    if a != [] {
      assert (a + [x] + b)[1..] == a[1..] + [x] + b;
      assert a[0] in a;
      IndexOfSplit(a[1..], x, b);
    }
  }

  /** `s.filter(e => p(e))`, keeping the order of the kept elements. */
  function Filter<T(!new)>(s: seq<T>, p: T -> bool): (r: seq<T>)
    ensures |r| <= |s|
    ensures forall x :: x in r <==> x in s && p(x)
  {
    if s == [] then []
    else (if p(s[0]) then [s[0]] else []) + Filter(s[1..], p)
  }

  /** `s.filter(e => e !== x)`: every occurrence of `x` removed. */
  function Without<T(==,!new)>(s: seq<T>, x: T): (r: seq<T>)
    ensures |r| <= |s|
  {
    if s == [] then []
    else (if s[0] != x then [s[0]] else []) + Without(s[1..], x)
  }

  /** Every occurrence of `x` goes and every other value stays. */
  lemma {:induction false} WithoutMembers<T(!new)>(s: seq<T>, x: T)
    ensures x !in Without(s, x)
    ensures forall y :: y != x ==> (y in Without(s, x) <==> y in s)
  {
    if s != [] {
      assert s == [s[0]] + s[1..];
      WithoutMembers(s[1..], x);
    }
  }

  lemma {:induction false} WithoutConcat<T(!new)>(a: seq<T>, b: seq<T>, x: T)
    ensures Without(a + b, x) == Without(a, x) + Without(b, x)
  {
    if a == [] {
      assert a + b == b;
    } else {
      assert (a + b)[0] == a[0];
      assert (a + b)[1..] == a[1..] + b;
      WithoutConcat(a[1..], b, x);
    }
  }

  /** Removing `x` keeps the number of occurrences of every other value. */
  lemma {:induction false} WithoutCounts<T(!new)>(s: seq<T>, x: T, y: T)
    requires y != x
    ensures multiset(Without(s, x))[y] == multiset(s)[y]
  {
    if s != [] {
      assert s == [s[0]] + s[1..];
      WithoutCounts(s[1..], x, y);
    }
  }

  lemma {:induction false} WithoutAbsent<T(!new)>(s: seq<T>, x: T)
    requires x !in s
    ensures Without(s, x) == s
  {
    if s != [] {
      WithoutAbsent(s[1..], x);
    }
  }

  /** Removing the only occurrences of `x` around which a list is split
      leaves the two sides joined. */
  lemma WithoutSplit<T(!new)>(a: seq<T>, x: T, b: seq<T>)
    requires x !in a && x !in b
    ensures Without(a + [x] + b, x) == a + b
  {
    assert Without([x], x) == [];
    WithoutConcat(a, [x], x);
    WithoutConcat(a + [x], b, x);
    WithoutAbsent(a, x);
    WithoutAbsent(b, x);
    assert a + [] == a;
  }

  /** No element occurs twice. */
  predicate NoDuplicates<T(==)>(s: seq<T>) {
    forall i, j :: 0 <= i < j < |s| ==> s[i] != s[j]
  }

  /** Removing a value keeps a list free of duplicates. */
  lemma {:induction false} WithoutKeepsNoDuplicates<T(!new)>(s: seq<T>, x: T)
    requires NoDuplicates(s)
    ensures NoDuplicates(Without(s, x))
  {
    if s != [] {
      var rest := s[1..];
      assert NoDuplicates(rest) by {
        forall i, j | 0 <= i < j < |rest|
          ensures rest[i] != rest[j]
        {
          assert rest[i] == s[i + 1] && rest[j] == s[j + 1];
        }
      }
      WithoutKeepsNoDuplicates(rest, x);
      WithoutMembers(rest, x);
      var w := Without(rest, x);
      if s[0] != x {
        assert s[0] !in rest by {
          forall k | 0 <= k < |rest|
            ensures rest[k] != s[0]
          {
            assert rest[k] == s[k + 1];
          }
        }
        var r := [s[0]] + w;
        assert Without(s, x) == r;
        forall i, j | 0 <= i < j < |r|
          ensures r[i] != r[j]
        {
          if i == 0 {
            assert r[j] == w[j - 1];
            assert w[j - 1] in w;
          } else {
            assert r[i] == w[i - 1] && r[j] == w[j - 1];
          }
        }
      } else {
        assert Without(s, x) == w;
      }
    }
  }
}
