/** Python's ordering of `str` values (lexicographic by code point) and
    `sorted()` applied to a set of names. */
module StringOrder {

  /** Python's `a < b` on strings. */
  predicate Less(a: string, b: string)
    decreases |a|
  {
    |b| > 0 && (|a| == 0 || a[0] < b[0] || (a[0] == b[0] && Less(a[1..], b[1..])))
  }

  lemma {:induction false} LessIrreflexive(a: string)
    ensures !Less(a, a)
    decreases |a|
  {
    if |a| > 0 {
      LessIrreflexive(a[1..]);
    }
  }

  lemma {:induction false} LessTransitive(a: string, b: string, c: string)
    requires Less(a, b) && Less(b, c)
    ensures Less(a, c)
    decreases |a|
  {
    if |a| > 0 && a[0] == b[0] && b[0] == c[0] {
      LessTransitive(a[1..], b[1..], c[1..]);
    }
  }

  lemma {:induction false} LessTotal(a: string, b: string)
    ensures a == b || Less(a, b) || Less(b, a)
    decreases |a|
  {
    if |a| > 0 && |b| > 0 && a[0] == b[0] {
      LessTotal(a[1..], b[1..]);
      if a[1..] == b[1..] {
        assert a == [a[0]] + a[1..] && b == [b[0]] + b[1..];
      }
    }
  }

  lemma {:induction false} LessAsymmetric(a: string, b: string)
    requires Less(a, b)
    ensures !Less(b, a)
  {
    if Less(b, a) {
      LessTransitive(a, b, a);
      LessIrreflexive(a);
    }
  }

  /** Strictly increasing, hence also free of duplicates. */
  predicate Ascending(s: seq<string>) {
    forall i, j :: 0 <= i < j < |s| ==> Less(s[i], s[j])
  }

  predicate IsLeast(m: string, s: set<string>) {
    m in s && forall y :: y in s && y != m ==> Less(m, y)
  }

  lemma {:induction false} LeastExists(s: set<string>)
    requires s != {}
    ensures exists m :: IsLeast(m, s)
    decreases s
  {
    var x :| x in s;
    if s == {x} {
      assert IsLeast(x, s);
    } else {
      LeastExists(s - {x});
      var m :| IsLeast(m, s - {x});
      LessTotal(x, m);
      if Less(x, m) {
        forall y | y in s && y != x
          ensures Less(x, y)
        {
          if y != m {
            LessTransitive(x, m, y);
          }
        }
        assert IsLeast(x, s);
      } else {
        assert IsLeast(m, s);
      }
    }
  }

  lemma LeastUnique(s: set<string>)
    ensures forall m1, m2 :: IsLeast(m1, s) && IsLeast(m2, s) ==> m1 == m2
  {
    forall m1, m2 | IsLeast(m1, s) && IsLeast(m2, s)
      ensures m1 == m2
    {
      if m1 != m2 {
        LessAsymmetric(m1, m2);
      }
    }
  }

  /** Python's `sorted(names)`: the names in ascending order, each once. */
  function Sorted(s: set<string>): (r: seq<string>)
    ensures Ascending(r)
    ensures forall n :: n in r <==> n in s
    decreases s
  {
    if s == {} then []
    else
      LeastExists(s);
      LeastUnique(s);
      var m :| m in s && IsLeast(m, s);
      [m] + Sorted(s - {m})
  }

  /** There is only one ascending enumeration of a set of names. */
  lemma {:induction false} AscendingUnique(a: seq<string>, b: seq<string>)
    requires Ascending(a) && Ascending(b)
    requires forall n :: n in a <==> n in b
    ensures a == b
    decreases |a|
  {
    assert |b| > 0 ==> b[0] in b;
    if |a| > 0 {
      assert a[0] in b;
      assert |b| > 0;
      if a[0] != b[0] {
        assert b[0] in a;
        var i :| 0 <= i < |a| && a[i] == b[0];
        var j :| 0 <= j < |b| && b[j] == a[0];
        assert Less(a[0], b[0]);
        assert Less(b[0], a[0]);
        LessAsymmetric(a[0], b[0]);
      }
      LessIrreflexive(a[0]);
      forall n
        ensures n in a[1..] <==> n in b[1..]
      {
        if n in a[1..] {
          var i :| 1 <= i < |a| && a[i] == n;
          assert n in b && n != b[0];
          var j :| 0 <= j < |b| && b[j] == n;
          assert b[1..][j - 1] == n;
        }
        if n in b[1..] {
          var j :| 1 <= j < |b| && b[j] == n;
          assert n in a && n != a[0];
          var i :| 0 <= i < |a| && a[i] == n;
          assert a[1..][i - 1] == n;
        }
      }
      AscendingUnique(a[1..], b[1..]);
      assert a == [a[0]] + a[1..] && b == [b[0]] + b[1..];
    }
  }

  function Below(s: set<string>, n: string): set<string> {
    set k | k in s && Less(k, n)
  }

  function Above(s: set<string>, n: string): set<string> {
    set k | k in s && Less(n, k)
  }

  /** In `sorted(s)`, a member `n` is preceded exactly by the smaller names
      and followed exactly by the larger ones. */
  lemma SortedSplit(s: set<string>, n: string)
    requires n in s
    ensures Sorted(s) == Sorted(Below(s, n)) + [n] + Sorted(Above(s, n))
  {
    var lo, hi := Sorted(Below(s, n)), Sorted(Above(s, n));
    var joined := lo + [n] + hi;
    forall i, j | 0 <= i < j < |joined|
      ensures Less(joined[i], joined[j])
    {
      if j < |lo| {
        assert joined[i] == lo[i] && joined[j] == lo[j];
      } else if i < |lo| && j == |lo| {
        assert joined[i] == lo[i] && lo[i] in Below(s, n) && joined[j] == n;
      } else if i < |lo| {
        assert joined[i] in lo && joined[j] in hi;
        LessTransitive(joined[i], n, joined[j]);
      } else if i == |lo| {
        assert joined[i] == n && joined[j] == hi[j - |lo| - 1] && joined[j] in Above(s, n);
      } else {
        assert joined[i] == hi[i - |lo| - 1] && joined[j] == hi[j - |lo| - 1];
      }
    }
    forall k
      ensures k in joined <==> k in s
    {
      if k in s {
        LessTotal(k, n);
      }
    }
    AscendingUnique(Sorted(s), joined);
  }
}
