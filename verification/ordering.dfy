/** Orders and enumerations the source gets from Python's `sorted` and `min`:
    ascending enumeration of a finite set of integers or strings, and a stable
    ascending sort of a sequence of integers. */
module Ordering {

  predicate Sorted(s: seq<int>) {
    forall i, j :: 0 <= i < j < |s| ==> s[i] <= s[j]
  }

  predicate StrictlyIncreasing(s: seq<int>) {
    forall i, j :: 0 <= i < j < |s| ==> s[i] < s[j]
  }

  // ---------------------------------------------------------------------------
  // Integers
  // ---------------------------------------------------------------------------

  lemma {:induction false} LeastElement(s: set<int>) returns (m: int)
    requires s != {}
    ensures m in s && forall x :: x in s ==> m <= x
    decreases |s|
  {
    assert (forall z :: z !in s) ==> s == {};
    var y :| y in s;
    var rest := s - {y};
    if rest == {} {
      assert s == {y};
      m := y;
    } else {
      var m' := LeastElement(rest);
      m := if y < m' then y else m';
      assert forall x :: x in s ==> x == y || x in rest;
    }
  }

  /** The least element of a non-empty finite set. */
  function MinOf(s: set<int>): (m: int)
    requires s != {}
    ensures m in s
    ensures forall x :: x in s ==> m <= x
  {
    assert exists m :: m in s && forall x :: x in s ==> m <= x by {
      var least := LeastElement(s);
    }
    var m :| m in s && forall x :: x in s ==> m <= x;
    m
  }

  /** `max(range(len(xs)), key=lambda i: xs[i])`: Python's `max` keeps the
      first of several equal keys, so this is the first index of a greatest
      element. */
  function FirstMax(xs: seq<int>): (k: int)
    requires |xs| > 0
    ensures 0 <= k < |xs|
    ensures forall i :: 0 <= i < |xs| ==> xs[i] <= xs[k]
    ensures forall i :: 0 <= i < k ==> xs[i] < xs[k]
    decreases |xs|
  {
    if |xs| == 1 then 0
    else
      var k := FirstMax(xs[..|xs| - 1]);
      assert forall i :: 0 <= i < |xs| - 1 ==> xs[..|xs| - 1][i] == xs[i];
      if xs[|xs| - 1] > xs[k] then |xs| - 1 else k
  }

  /** The elements of `s` in ascending order (Python's `sorted` of a set of keys). */
  function SortedElements(s: set<int>): (r: seq<int>)
    ensures StrictlyIncreasing(r)
    ensures forall x :: x in r <==> x in s
    ensures forall i :: 0 <= i < |r| ==> r[i] in s
    ensures |r| == |s|
    decreases |s|
  {
    if s == {} then []
    else
      var m := MinOf(s);
      [m] + SortedElements(s - {m})
  }

  /** Two ascending enumerations of the same elements are the same sequence. */
  lemma {:induction false} StrictlyIncreasingUnique(a: seq<int>, b: seq<int>)
    requires StrictlyIncreasing(a) && StrictlyIncreasing(b)
    requires forall x :: x in a <==> x in b
    ensures a == b
    decreases |a|
  {
    if |a| > 0 {
      assert a[0] in a;
    }
    if |b| > 0 {
      assert b[0] in b;
    }
    if |a| > 0 && |b| > 0 {
      assert a[0] in b;
      assert b[0] in a;
      var i :| 0 <= i < |b| && b[i] == a[0];
      var j :| 0 <= j < |a| && a[j] == b[0];
      assert b[0] <= b[i];
      assert a[0] <= a[j];
      forall x
        ensures x in a[1..] <==> x in b[1..]
      {
        if x in a[1..] {
          var k :| 1 <= k < |a| && a[k] == x;
          assert a[0] < x;
          assert x in b;
        }
        if x in b[1..] {
          var k :| 1 <= k < |b| && b[k] == x;
          assert b[0] < x;
          assert x in a;
        }
      }
      StrictlyIncreasingUnique(a[1..], b[1..]);
      assert a == [a[0]] + a[1..];
      assert b == [b[0]] + b[1..];
    }
  }

  // ---------------------------------------------------------------------------
  // Sorting a sequence of integers (Python's `sorted` on a list)
  // ---------------------------------------------------------------------------

  function Insert(x: int, s: seq<int>): (r: seq<int>)
    requires Sorted(s)
    ensures Sorted(r)
    ensures multiset(r) == multiset(s) + multiset{x}
    ensures |r| == |s| + 1
    ensures r[0] == if |s| > 0 && s[0] < x then s[0] else x
  {
    if |s| == 0 then [x]
    else if x <= s[0] then [x] + s
    else
      assert s == [s[0]] + s[1..];
      [s[0]] + Insert(x, s[1..])
  }

  /** An ascending permutation of `s`. */
  function SortInts(s: seq<int>): (r: seq<int>)
    ensures Sorted(r)
    ensures multiset(r) == multiset(s)
    ensures |r| == |s|
  {
    if |s| == 0 then []
    else
      assert s == s[..|s| - 1] + [s[|s| - 1]];
      Insert(s[|s| - 1], SortInts(s[..|s| - 1]))
  }

  // ---------------------------------------------------------------------------
  // Strings, compared as Python compares `str`: code point by code point, a
  // proper prefix before its extensions.
  // ---------------------------------------------------------------------------

  predicate StrLe(a: string, b: string)
    decreases |a|
  {
    |a| == 0 || (|b| > 0 && (a[0] < b[0] || (a[0] == b[0] && StrLe(a[1..], b[1..]))))
  }

  predicate StrLt(a: string, b: string) {
    StrLe(a, b) && a != b
  }

  lemma {:induction false} StrLeAntisymmetric(a: string, b: string)
    requires StrLe(a, b) && StrLe(b, a)
    ensures a == b
    decreases |a|
  {
    if |a| > 0 {
      StrLeAntisymmetric(a[1..], b[1..]);
      assert a == [a[0]] + a[1..];
      assert b == [b[0]] + b[1..];
    }
  }

  lemma {:induction false} StrLeTransitive(a: string, b: string, c: string)
    requires StrLe(a, b) && StrLe(b, c)
    ensures StrLe(a, c)
    decreases |a|
  {
    if |a| > 0 && a[0] == b[0] && b[0] == c[0] {
      StrLeTransitive(a[1..], b[1..], c[1..]);
    }
  }

  lemma {:induction false} StrLeTotal(a: string, b: string)
    ensures StrLe(a, b) || StrLe(b, a)
    decreases |a|
  {
    if |a| > 0 && |b| > 0 && a[0] == b[0] {
      StrLeTotal(a[1..], b[1..]);
    }
  }

  lemma StrLeAntisymmetricAll()
    ensures forall a, b :: StrLe(a, b) && StrLe(b, a) ==> a == b
  {
    forall a, b | StrLe(a, b) && StrLe(b, a)
      ensures a == b
    {
      StrLeAntisymmetric(a, b);
    }
  }

  lemma {:induction false} LeastString(s: set<string>) returns (m: string)
    requires s != {}
    ensures m in s && forall x :: x in s ==> StrLe(m, x)
    decreases |s|
  {
    assert (forall z :: z !in s) ==> s == {};
    var y :| y in s;
    StrLeReflexive(y);
    var rest := s - {y};
    if rest == {} {
      assert s == {y};
      m := y;
    } else {
      var m' := LeastString(rest);
      StrLeTotal(m', y);
      if StrLe(y, m') {
        forall x | x in s
          ensures StrLe(y, x)
        {
          if x != y {
            StrLeTransitive(y, m', x);
          }
        }
        m := y;
      } else {
        m := m';
      }
    }
  }

  lemma {:induction false} StrLeReflexive(a: string)
    ensures StrLe(a, a)
    decreases |a|
  {
    if |a| > 0 {
      StrLeReflexive(a[1..]);
    }
  }

  /** The least string of a non-empty finite set. */
  function MinString(s: set<string>): (m: string)
    requires s != {}
    ensures m in s
    ensures forall x :: x in s ==> StrLe(m, x)
  {
    assert exists m :: m in s && forall x :: x in s ==> StrLe(m, x) by {
      var least := LeastString(s);
    }
    StrLeAntisymmetricAll();
    var m :| m in s && forall x :: x in s ==> StrLe(m, x);
    m
  }

  predicate StringsAscending(s: seq<string>) {
    forall i, j :: 0 <= i < j < |s| ==> StrLt(s[i], s[j])
  }

  /** The strings of `s` in ascending order, each once (Python's `sorted` of distinct names). */
  function SortedStrings(s: set<string>): (r: seq<string>)
    ensures StringsAscending(r)
    ensures forall x :: x in r <==> x in s
    ensures |r| == |s|
    decreases |s|
  {
    if s == {} then []
    else
      var m := MinString(s);
      var rest := SortedStrings(s - {m});
      assert forall k :: 0 <= k < |rest| ==> StrLt(m, rest[k]) by {
        forall k | 0 <= k < |rest|
          ensures StrLt(m, rest[k])
        {
          assert rest[k] in rest;
          assert rest[k] in s - {m};
        }
      }
      [m] + rest
  }

  /** Ascending strings never repeat. */
  lemma AscendingDistinct(s: seq<string>, i: int, j: int)
    requires StringsAscending(s)
    requires 0 <= i < |s| && 0 <= j < |s| && i != j
    ensures s[i] != s[j]
  {
  }
}
