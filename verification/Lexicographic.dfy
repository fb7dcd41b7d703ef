/**
 * The order of strings in the database and in the reports: character by character, which for UTF-8 text is also the
 * order of the bytes.
 */
module Lexicographic {
  predicate Less(a: string, b: string) {
    b != [] && (a == [] || a[0] < b[0] || (a[0] == b[0] && Less(a[1..], b[1..])))
  }

  /** At the first place where they differ `a` has the smaller character. */
  ghost predicate SmallerAt(a: string, b: string, i: nat) {
    i < |a| && i < |b| && a[..i] == b[..i] && a[i] < b[i]
  }

  /** A string comes before its proper extensions, and before those with a greater character where they first differ. */
  lemma {:induction false} LessMeans(a: string, b: string)
    ensures Less(a, b) <==> (a != b && a <= b) || exists i: nat :: SmallerAt(a, b, i)
    decreases |a|
  {
    forall i: nat | 0 < i < |a| && i < |b| && a[..i] == b[..i] ensures a[0] == b[0] {
      assert a[0] == a[..i][0] && b[0] == b[..i][0];
    }
    if a == [] || b == [] {
    } else if a[0] == b[0] {
      LessMeans(a[1..], b[1..]);
      assert a == [a[0]] + a[1..] && b == [b[0]] + b[1..];
      if i: nat :| SmallerAt(a[1..], b[1..], i) {
        assert a[..i + 1] == [a[0]] + a[1..][..i] && b[..i + 1] == [b[0]] + b[1..][..i];
        assert SmallerAt(a, b, i + 1);
      }
      if i: nat :| SmallerAt(a, b, i) {
        assert a[1..][..i - 1] == a[..i][1..] && b[1..][..i - 1] == b[..i][1..];
        assert SmallerAt(a[1..], b[1..], i - 1);
      }
    } else if a[0] < b[0] {
      assert SmallerAt(a, b, 0);
    }
  }

  lemma {:induction false} LessOrGreater(a: string, b: string)
    ensures a == b || Less(a, b) || Less(b, a)
  {
    if a != [] && b != [] && a[0] == b[0] {
      LessOrGreater(a[1..], b[1..]);
      assert a == [a[0]] + a[1..] && b == [b[0]] + b[1..];
    }
  }

  lemma {:induction false} LessIsStrict(a: string, b: string)
    requires Less(a, b)
    ensures a != b && !Less(b, a)
  {
    if a != [] && a[0] == b[0] {
      LessIsStrict(a[1..], b[1..]);
    }
  }

  lemma {:induction false} LessTransitive(a: string, b: string, c: string)
    requires Less(a, b) && Less(b, c)
    ensures Less(a, c)
  {
    if a != [] && a[0] == b[0] == c[0] {
      LessTransitive(a[1..], b[1..], c[1..]);
    }
  }

  /** The least string of a set: `MIN` of a column. */
  predicate IsSmallest(s: set<string>, m: string) {
    m in s && forall x | x in s :: x == m || Less(m, x)
  }

  lemma SmallestIsUnique(s: set<string>, m: string, n: string)
    requires IsSmallest(s, m) && IsSmallest(s, n)
    ensures m == n
  {
    if m != n {
      LessIsStrict(m, n);
    }
  }

  lemma {:induction false} SmallestExists(s: set<string>)
    requires s != {}
    ensures exists m :: IsSmallest(s, m)
    decreases |s|
  {
    var x :| x in s;
    var rest := s - {x};
    if rest == {} {
      assert s == rest + {x};
      assert IsSmallest(s, x);
    } else {
      SmallestExists(rest);
      var m :| IsSmallest(rest, m);
      LessOrGreater(m, x);
      if Less(m, x) {
        assert IsSmallest(s, m);
      } else {
        SmallerThanAll(rest, m, x);
        assert s == rest + {x};
      }
    }
  }

  lemma SmallerThanAll(rest: set<string>, m: string, x: string)
    requires IsSmallest(rest, m) && Less(x, m)
    ensures IsSmallest(rest + {x}, x)
  {
    forall y | y in rest + {x} ensures y == x || Less(x, y) {
      if y != x && y != m {
        LessTransitive(x, m, y);
      }
    }
  }

  function Smallest(s: set<string>): (m: string)
    requires s != {}
    ensures IsSmallest(s, m)
  {
    SmallestExists(s);
    assert forall m, n | IsSmallest(s, m) && IsSmallest(s, n) :: m == n by {
      forall m, n | IsSmallest(s, m) && IsSmallest(s, n) ensures m == n {
        SmallestIsUnique(s, m, n);
      }
    }
    var m :| IsSmallest(s, m);
    m
  }
}
