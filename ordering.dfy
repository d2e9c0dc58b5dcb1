/**
 * Python's ordering of strings (lexicographic by code point) and the strictly
 * ascending, duplicate-free listing that `sorted(set(...))` produces.
 */
module Ordering {
  import opened Sequences

  /** `a < b` on Python strings. */
  predicate StrLess(a: string, b: string)
    decreases |a|
  {
    if a == [] then b != []
    else if b == [] then false
    else if a[0] != b[0] then a[0] < b[0]
    else StrLess(a[1..], b[1..])
  }

  lemma {:induction false} StrLessIrreflexive(a: string)
    ensures !StrLess(a, a)
  {
    if a != [] {
      StrLessIrreflexive(a[1..]);
    }
  }

  lemma {:induction false} StrLessTransitive(a: string, b: string, c: string)
    requires StrLess(a, b) && StrLess(b, c)
    ensures StrLess(a, c)
    decreases |a|
  {
    if a != [] && b != [] && c != [] && a[0] == b[0] && b[0] == c[0] {
      StrLessTransitive(a[1..], b[1..], c[1..]);
    }
  }

  lemma {:induction false} StrLessTotal(a: string, b: string)
    ensures a == b || StrLess(a, b) || StrLess(b, a)
    decreases |a|
  {
    if a != [] && b != [] && a[0] == b[0] {
      StrLessTotal(a[1..], b[1..]);
      if a[1..] == b[1..] {
        assert a == [a[0]] + a[1..] && b == [b[0]] + b[1..];
      }
    }
  }

  lemma {:induction false} StrLessAsymmetric(a: string, b: string)
    ensures !(StrLess(a, b) && StrLess(b, a))
  {
    if StrLess(a, b) && StrLess(b, a) {
      StrLessTransitive(a, b, a);
      StrLessIrreflexive(a);
    }
  }

  /** Ascending with no repeats. */
  predicate StrictlyAscending(xs: seq<string>)
  {
    forall i, j :: 0 <= i < j < |xs| ==> StrLess(xs[i], xs[j])
  }

  lemma AscendingCons(h: string, t: seq<string>)
    requires StrictlyAscending(t)
    requires forall x :: x in t ==> StrLess(h, x)
    ensures StrictlyAscending([h] + t)
  {
    var r := [h] + t;
    forall i, j | 0 <= i < j < |r| ensures StrLess(r[i], r[j]) {
      if i > 0 {
        assert r[i] == t[i - 1] && r[j] == t[j - 1];
      } else {
        assert r[j] == t[j - 1] && t[j - 1] in t;
      }
    }
  }

  /** Adds `p` to an ascending listing, keeping it ascending and free of repeats. */
  function Insert(xs: seq<string>, p: string): (r: seq<string>)
    requires StrictlyAscending(xs)
    ensures StrictlyAscending(r)
    ensures forall x :: x in r <==> x in xs || x == p
  {
    if xs == [] then [p]
    else if p == xs[0] then xs
    else if StrLess(p, xs[0]) then
      (forall x | x in xs ensures StrLess(p, x) {
         var k :| 0 <= k < |xs| && xs[k] == x;
         if k > 0 { StrLessTransitive(p, xs[0], x); }
       }
       AscendingCons(p, xs);
       [p] + xs)
    else
      var rest := Insert(xs[1..], p);
      (StrLessTotal(p, xs[0]);
       forall x | x in rest ensures StrLess(xs[0], x) {
         if x != p {
           var k :| 1 <= k < |xs| && xs[k] == x;
         }
       }
       AscendingCons(xs[0], rest);
       assert xs == [xs[0]] + xs[1..];
       [xs[0]] + rest)
  }

  /**
   * An ascending duplicate-free listing is determined by its elements: any two
   * listings with the same elements are equal.
   */
  lemma {:induction false} AscendingUnique(a: seq<string>, b: seq<string>)
    requires StrictlyAscending(a) && StrictlyAscending(b)
    requires forall x :: x in a <==> x in b
    ensures a == b
    decreases |a|
  {
    assert a != [] ==> a[0] in a;
    assert b != [] ==> b[0] in b;
    if a != [] && b != [] {
      // a[0] and b[0] are both the least element
      if a[0] != b[0] {
        assert a[0] in a && b[0] in b;
        var i :| 0 <= i < |b| && b[i] == a[0];
        var j :| 0 <= j < |a| && a[j] == b[0];
        assert i > 0 && j > 0;
        StrLessAsymmetric(a[0], b[0]);
        assert false;
      }
      forall x ensures x in a[1..] <==> x in b[1..] {
        if x in a[1..] {
          var i :| 1 <= i < |a| && a[i] == x;
          StrLessIrreflexive(x);
          assert x != a[0];
        }
        if x in b[1..] {
          var i :| 1 <= i < |b| && b[i] == x;
          StrLessIrreflexive(x);
          assert x != b[0];
        }
        assert x in a <==> x == a[0] || x in a[1..];
        assert x in b <==> x == b[0] || x in b[1..];
      }
      AscendingUnique(a[1..], b[1..]);
      assert a == [a[0]] + a[1..] && b == [b[0]] + b[1..];
    }
  }
}
