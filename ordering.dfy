/**
 * Python's ordering of `str` values and `sorted` over a finite set of them.
 * Python compares strings code point by code point; when one string is a
 * proper prefix of the other, the shorter one comes first.
 */
module Ordering {

  /** `a < b` on Python strings. */
  predicate Less(a: string, b: string)
  {
    if |a| == 0 then |b| > 0
    else if |b| == 0 then false
    else if a[0] == b[0] then Less(a[1..], b[1..])
    else a[0] < b[0]
  }

  lemma {:induction false} LessIrreflexive(a: string)
    ensures !Less(a, a)
  {
    if |a| > 0 {
      LessIrreflexive(a[1..]);
    }
  }

  lemma {:induction false} LessAsymmetric(a: string, b: string)
    ensures !(Less(a, b) && Less(b, a))
  {
    if |a| > 0 && |b| > 0 && a[0] == b[0] {
      LessAsymmetric(a[1..], b[1..]);
    }
  }

  lemma {:induction false} LessTransitive(a: string, b: string, c: string)
    requires Less(a, b) && Less(b, c)
    ensures Less(a, c)
  {
    if |a| > 0 && |b| > 0 && |c| > 0 && a[0] == b[0] && b[0] == c[0] {
      LessTransitive(a[1..], b[1..], c[1..]);
    }
  }

  /** Any two different strings are ordered one way or the other. */
  lemma {:induction false} LessTotal(a: string, b: string)
    requires a != b
    ensures Less(a, b) || Less(b, a)
  {
    if |a| > 0 && |b| > 0 && a[0] == b[0] {
      assert a == [a[0]] + a[1..] && b == [b[0]] + b[1..];
      LessTotal(a[1..], b[1..]);
    }
  }

  /** Strictly ascending: every element is below every later one. */
  predicate StrictlySorted(r: seq<string>)
  {
    forall i, j :: 0 <= i < j < |r| ==> Less(r[i], r[j])
  }

  /** A strictly sorted sequence holds no element twice. */
  lemma StrictlySortedDistinct(r: seq<string>)
    requires StrictlySorted(r)
    ensures forall i, j :: 0 <= i < j < |r| ==> r[i] != r[j]
  {
    forall i, j | 0 <= i < j < |r|
      ensures r[i] != r[j]
    {
      LessIrreflexive(r[i]);
    }
  }

  /** `m` is the least element of `s`. */
  predicate IsMin(m: string, s: set<string>)
  {
    m in s && forall y :: y in s && y != m ==> Less(m, y)
  }

  lemma {:induction false} MinExists(s: set<string>)
    requires s != {}
    ensures exists m :: IsMin(m, s)
    decreases |s|
  {
    var x :| x in s;
    if s != {x} {
      var rest := s - {x};
      MinExists(rest);
      var m' :| IsMin(m', rest);
      if Less(x, m') {
        forall y | y in s && y != x
          ensures Less(x, y)
        {
          if y != m' {
            LessTransitive(x, m', y);
          }
        }
        assert IsMin(x, s);
      } else {
        LessTotal(x, m');
        assert IsMin(m', s);
      }
    } else {
      assert IsMin(x, s);
    }
  }

  lemma MinUnique(s: set<string>)
    ensures forall m, m' :: IsMin(m, s) && IsMin(m', s) ==> m == m'
  {
    forall m, m' | IsMin(m, s) && IsMin(m', s)
      ensures m == m'
    {
      LessAsymmetric(m, m');
    }
  }

  /**
   * `sorted(s)`: the elements of `s` in ascending order, each exactly once.
   * The least element comes first, followed by the sorted rest.
   */
  function SortedSet(s: set<string>): (r: seq<string>)
    ensures StrictlySorted(r)
    ensures forall x :: x in r <==> x in s
    ensures |r| == |s|
    decreases |s|
  {
    if s == {} then []
    else
      MinExists(s);
      MinUnique(s);
      var m :| IsMin(m, s);
      var rest := SortedSet(s - {m});
      assert forall j :: 0 <= j < |rest| ==> rest[j] in s - {m};
      [m] + rest
  }

  /**
   * The sorted listing is the only strictly ascending sequence holding
   * exactly the elements of `s`: any correct sort of `s` gives it.
   */
  lemma {:induction false} SortedSetUnique(s: set<string>, r: seq<string>)
    requires StrictlySorted(r)
    requires forall x :: x in r <==> x in s
    ensures r == SortedSet(s)
    decreases |s|
  {
    if s == {} {
      assert r == [];
    } else {
      assert r != [] by {
        var x :| x in s;
        assert x in r;
      }
      var m := r[0];
      assert IsMin(m, s) by {
        forall y | y in s && y != m
          ensures Less(m, y)
        {
          var j :| 0 <= j < |r| && r[j] == y;
        }
      }
      MinExists(s);
      MinUnique(s);
      var tail := r[1..];
      assert r == [m] + tail;
      assert forall x :: x in tail <==> x in s - {m} by {
        StrictlySortedDistinct(r);
        forall x
          ensures x in tail <==> x in s - {m}
        {
          if x in tail {
            var j :| 0 <= j < |tail| && tail[j] == x;
            assert r[j + 1] == x;
          }
          if x in s - {m} {
            var j :| 0 <= j < |r| && r[j] == x;
            assert j != 0;
            assert tail[j - 1] == x;
          }
        }
      }
      SortedSetUnique(s - {m}, tail);
    }
  }
}
