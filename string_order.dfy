/**
 * Python's ordering of `str` values and the `sorted` builtin, as far as
 * compare.py relies on them: benchmark names and report file names are
 * visited in ascending order of this comparison.
 */
module StringOrder {

  /** `a < b` on Python strings: code point by code point, a proper prefix first. */
  predicate Below(a: string, b: string)
  {
    if |a| == 0 then |b| > 0
    else if |b| == 0 then false
    else if a[0] != b[0] then a[0] < b[0]
    else Below(a[1..], b[1..])
  }

  /** Every two positions of `s` are in ascending order, so no name occurs twice. */
  ghost predicate StrictlyIncreasing(s: seq<string>)
  {
    forall i, j :: 0 <= i < j < |s| ==> Below(s[i], s[j])
  }

  /** `m` is the first of `names` in ascending order. */
  predicate IsLeast(m: string, names: set<string>)
  {
    m in names && forall y :: y in names && y != m ==> Below(m, y)
  }

  lemma {:induction false} BelowIrreflexive(a: string)
    ensures !Below(a, a)
  {
    if |a| > 0 {
      BelowIrreflexive(a[1..]);
    }
  }

  lemma {:induction false} BelowTransitive(a: string, b: string, c: string)
    requires Below(a, b) && Below(b, c)
    ensures Below(a, c)
  {
    if |a| > 0 && a[0] == b[0] && b[0] == c[0] {
      BelowTransitive(a[1..], b[1..], c[1..]);
    }
  }

  lemma {:induction false} BelowTotal(a: string, b: string)
    requires a != b
    ensures Below(a, b) || Below(b, a)
  {
    if |a| > 0 && |b| > 0 && a[0] == b[0] {
      assert a == [a[0]] + a[1..] && b == [b[0]] + b[1..];
      BelowTotal(a[1..], b[1..]);
    }
  }

  lemma BelowAsymmetric(a: string, b: string)
    requires Below(a, b)
    ensures !Below(b, a)
  {
    if Below(b, a) {
      BelowTransitive(a, b, a);
      BelowIrreflexive(a);
    }
  }

  /** Every non-empty set of names has a first one. */
  lemma {:induction false} LeastExists(names: set<string>)
    requires names != {}
    ensures exists m :: IsLeast(m, names)
  {
    var x :| x in names;
    var rest := names - {x};
    if rest == {} {
      assert names == {x};
      assert IsLeast(x, names);
    } else {
      LeastExists(rest);
      var m :| IsLeast(m, rest);
      if Below(x, m) {
        forall y | y in names && y != x
          ensures Below(x, y)
        {
          if y != m {
            BelowTransitive(x, m, y);
          }
        }
        assert IsLeast(x, names);
      } else {
        BelowTotal(x, m);
        assert IsLeast(m, names);
      }
    }
  }

  /**
   * `sorted(names)`: the names in ascending order, each once. Python's
   * `sorted` is a library call; this selection of the least remaining name
   * stands for it.
   */
  method Sorted(names: set<string>) returns (r: seq<string>)
    ensures StrictlyIncreasing(r)
    ensures forall x :: x in r <==> x in names
  {
    r := [];
    var rest := names;
    while rest != {}
      invariant StrictlyIncreasing(r)
      invariant forall x :: x in names <==> x in r || x in rest
      invariant forall x, y :: x in r && y in rest ==> Below(x, y)
      decreases rest
    {
      LeastExists(rest);
      var m :| IsLeast(m, rest);
      forall x | x in r ensures x !in rest {
        if x in rest {
          BelowIrreflexive(x);
        }
      }
      r := r + [m];
      rest := rest - {m};
    }
  }

  /**
   * Two ascending sequences of the same names are equal: the order in which
   * `sorted` visits a set of names does not depend on how the set was built.
   */
  lemma {:induction false} SortedUnique(r: seq<string>, s: seq<string>)
    requires StrictlyIncreasing(r) && StrictlyIncreasing(s)
    requires forall x :: x in r <==> x in s
    ensures r == s
  {
    assert r != [] ==> r[0] in s;
    assert s != [] ==> s[0] in r;
    if r != [] && s != [] {
      if r[0] != s[0] {
        assert s[0] in r;
        var i :| 0 <= i < |r| && r[i] == s[0];
        assert r[0] in s;
        var j :| 0 <= j < |s| && s[j] == r[0];
        assert Below(r[0], s[0]);
        assert Below(s[0], r[0]);
        BelowAsymmetric(r[0], s[0]);
      }
      forall x ensures x in r[1..] <==> x in s[1..] {
        if x in r[1..] {
          var i :| 1 <= i < |r| && r[i] == x;
          assert Below(r[0], x);
          BelowIrreflexive(x);
          assert x in r;
          var j :| 0 <= j < |s| && s[j] == x;
          assert j != 0;
          assert s[1..][j - 1] == x;
        }
        if x in s[1..] {
          var j :| 1 <= j < |s| && s[j] == x;
          assert Below(s[0], x);
          BelowIrreflexive(x);
          assert x in s;
          var i :| 0 <= i < |r| && r[i] == x;
          assert i != 0;
          assert r[1..][i - 1] == x;
        }
      }
      SortedUnique(r[1..], s[1..]);
      assert r == [r[0]] + r[1..];
      assert s == [s[0]] + s[1..];
    }
  }
}
