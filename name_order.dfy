/**
 * Python's ordering of `str` values (lexicographic by code point) and the
 * `sorted(set_of_names)` step, which turns a set of tensor names into a
 * strictly increasing list.
 */
module NameOrder {

  /** `a < b` for Python strings: compare code points left to right; a proper prefix is smaller. */
  predicate Below(a: string, b: string)
  {
    if |a| == 0 then |b| > 0
    else if |b| == 0 then false
    else if a[0] != b[0] then a[0] < b[0]
    else Below(a[1..], b[1..])
  }

  lemma {:induction false} BelowIrreflexive(a: string)
    ensures !Below(a, a)
  {
    if |a| > 0 {
      BelowIrreflexive(a[1..]);
    }
  }

  lemma {:induction false} BelowAsymmetric(a: string, b: string)
    requires Below(a, b)
    ensures !Below(b, a)
  {
    if |a| > 0 && |b| > 0 && a[0] == b[0] {
      BelowAsymmetric(a[1..], b[1..]);
    }
  }

  lemma {:induction false} BelowTransitive(a: string, b: string, c: string)
    requires Below(a, b) && Below(b, c)
    ensures Below(a, c)
  {
    if |a| > 0 && a[0] == b[0] && b[0] == c[0] {
      BelowTransitive(a[1..], b[1..], c[1..]);
    }
  }

  lemma {:induction false} BelowTotal(a: string, b: string)
    requires a != b
    ensures Below(a, b) || Below(b, a)
  {
    if |a| > 0 && |b| > 0 && a[0] == b[0] {
      assert a == [a[0]] + a[1..] && b == [b[0]] + b[1..];
      BelowTotal(a[1..], b[1..]);
    }
  }

  /** Every element is strictly below every later one: sorted and free of duplicates. */
  ghost predicate StrictlySorted(s: seq<string>)
  {
    forall i, j :: 0 <= i < j < |s| ==> Below(s[i], s[j])
  }

  /** No value occurs twice. */
  ghost predicate NoDup<T>(s: seq<T>)
  {
    forall i, j :: 0 <= i < j < |s| ==> s[i] != s[j]
  }

  lemma StrictlySortedNoDup(s: seq<string>)
    requires StrictlySorted(s)
    ensures NoDup(s)
  {
    forall i, j | 0 <= i < j < |s|
      ensures s[i] != s[j]
    {
      if s[i] == s[j] {
        BelowIrreflexive(s[i]);
      }
    }
  }

  /** Places `x` into a strictly sorted list, leaving the list as it is when `x` is already there. */
  function Insert(s: seq<string>, x: string): (r: seq<string>)
    requires StrictlySorted(s)
    ensures StrictlySorted(r)
    ensures forall y :: y in r <==> y in s || y == x
  {
    if s == [] then [x]
    else if x == s[0] then s
    else if Below(x, s[0]) then
      assert forall j :: 0 < j < |s| ==> Below(x, s[j]) by {
        forall j | 0 < j < |s| ensures Below(x, s[j]) {
          BelowTransitive(x, s[0], s[j]);
        }
      }
      [x] + s
    else
      BelowTotal(x, s[0]);
      var t := Insert(s[1..], x);
      assert forall y :: y in t ==> Below(s[0], y) by {
        forall y | y in t ensures Below(s[0], y) {
          if y != x {
            var j :| 0 <= j < |s[1..]| && s[1..][j] == y;
            assert s[j + 1] == y;
          }
        }
      }
      [s[0]] + t
  }

  /** A least element of a non-empty set of names under `Below`. */
  lemma {:induction false} LeastExists(s: set<string>)
    requires s != {}
    ensures exists m :: m in s && forall y :: y in s && y != m ==> Below(m, y)
    decreases |s|
  {
    var x :| x in s;
    if s == {x} {
      assert forall y :: y in s && y != x ==> Below(x, y);
    } else {
      LeastExists(s - {x});
      var m :| m in s - {x} && forall y :: y in s - {x} && y != m ==> Below(m, y);
      if Below(m, x) {
        assert forall y :: y in s && y != m ==> Below(m, y);
      } else {
        BelowTotal(m, x);
        forall y | y in s && y != x
          ensures Below(x, y)
        {
          if y != m {
            BelowTransitive(x, m, y);
          }
        }
      }
    }
  }

  /** The value of Python's `sorted(s)` for a set of names. */
  ghost function Listing(s: set<string>): (r: seq<string>)
    ensures StrictlySorted(r)
    ensures forall y :: y in r <==> y in s
    decreases |s|
  {
    if s == {} then []
    else
      LeastExists(s);
      var m :| m in s && forall y :: y in s && y != m ==> Below(m, y);
      var t := Listing(s - {m});
      assert forall j :: 0 <= j < |t| ==> Below(m, t[j]) by {
        forall j | 0 <= j < |t| ensures Below(m, t[j]) {
          assert t[j] in t;
        }
      }
      [m] + t
  }

  /** Two strictly sorted lists with the same elements are the same list. */
  lemma {:induction false} SortedUnique(a: seq<string>, b: seq<string>)
    requires StrictlySorted(a) && StrictlySorted(b)
    requires forall y :: y in a <==> y in b
    ensures a == b
  {
    assert a != [] ==> a[0] in a;
    assert b != [] ==> b[0] in b;
    if a != [] && b != [] {
      assert a[0] in b;
      assert b[0] in a;
      if a[0] != b[0] {
        var i :| 0 <= i < |b| && b[i] == a[0];
        var j :| 0 <= j < |a| && a[j] == b[0];
        assert Below(b[0], a[0]);
        assert Below(a[0], b[0]);
        BelowAsymmetric(a[0], b[0]);
      }
      forall y
        ensures y in a[1..] <==> y in b[1..]
      {
        if y in a[1..] {
          var j :| 0 <= j < |a[1..]| && a[1..][j] == y;
          assert Below(a[0], y);
          BelowIrreflexive(y);
          assert y in b;
        }
        if y in b[1..] {
          var j :| 0 <= j < |b[1..]| && b[1..][j] == y;
          assert Below(b[0], y);
          BelowIrreflexive(y);
          assert y in a;
        }
      }
      SortedUnique(a[1..], b[1..]);
      assert a == [a[0]] + a[1..] && b == [b[0]] + b[1..];
    }
  }

  /** `sorted(s)`: the names of `s` in increasing order, one each. */
  method SortNames(s: set<string>) returns (r: seq<string>)
    ensures r == Listing(s)
    ensures StrictlySorted(r) && |r| == |s|
  {
    var rest := s;
    r := [];
    while rest != {}
      invariant rest <= s
      invariant StrictlySorted(r)
      invariant forall y :: y in r <==> y in s && y !in rest
      decreases |rest|
    {
      var x :| x in rest;
      r := Insert(r, x);
      rest := rest - {x};
    }
    SortedUnique(r, Listing(s));
    StrictlySortedNoDup(r);
    DistinctCard(r, s);
  }

  /** A duplicate-free list has as many entries as the set of its elements. */
  lemma {:induction false} DistinctCard(r: seq<string>, s: set<string>)
    requires NoDup(r)
    requires forall y :: y in r <==> y in s
    ensures |r| == |s|
    decreases |r|
  {
    if r == [] {
      assert s == {};
    } else {
      var last := r[|r| - 1];
      var init := r[..|r| - 1];
      assert forall y :: y in init <==> y in s - {last} by {
        forall y ensures y in init <==> y in s - {last} {
          if y in init {
            var i :| 0 <= i < |init| && init[i] == y;
            assert r[i] == y;
          }
          if y in s - {last} {
            assert y in r;
            var i :| 0 <= i < |r| && r[i] == y;
            assert i < |r| - 1;
            assert init[i] == y;
          }
        }
      }
      DistinctCard(init, s - {last});
    }
  }
}
