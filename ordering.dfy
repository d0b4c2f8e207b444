/** Ascending enumeration of a finite set, as SQL's ORDER BY and Python's
    list.sort() produce it: for step and piece numbers by integer order, for
    station names by the order of Text.LexLess. The ghost functions fix the
    enumeration; the methods compute it. */
module Ordering {
  import opened Text

  /** Some element of a non-empty set (stated generically, where the verifier
      finds the witness without help). */
  lemma Pick<T>(s: set<T>) returns (x: T)
    requires s != {}
    ensures x in s
  {
    x :| x in s;
  }

  ghost predicate IsLeastInt(m: int, s: set<int>) {
    m in s && forall x :: x in s ==> m <= x
  }

  lemma {:induction false} LeastIntExists(s: set<int>)
    requires s != {}
    ensures exists m :: IsLeastInt(m, s)
    decreases |s|
  {
    var x := Pick(s);
    if s != {x} {
      LeastIntExists(s - {x});
      var m :| IsLeastInt(m, s - {x});
      forall y | y in s
        ensures y == x || m <= y
      {
        if y != x {
          assert y in s - {x};
        }
      }
      if x < m {
        assert IsLeastInt(x, s);
      } else {
        assert IsLeastInt(m, s);
      }
    }
    else {
      assert IsLeastInt(x, s);
    }
  }

  predicate Increasing(r: seq<int>) {
    forall i, j :: 0 <= i < j < |r| ==> r[i] < r[j]
  }

  /** The elements of s in ascending order. */
  ghost function SortedInts(s: set<int>): (r: seq<int>)
    ensures |r| == |s|
    ensures forall x {:trigger x in r} :: x in r <==> x in s
    ensures Increasing(r)
    decreases s
  {
    if s == {} then []
    else
      LeastIntExists(s);
      var m :| IsLeastInt(m, s);
      var rest := SortedInts(s - {m});
      assert forall j :: 0 <= j < |rest| ==> rest[j] in rest;
      assert forall j :: 0 <= j < |rest| ==> rest[j] in s && rest[j] != m;
      assert forall j :: 0 <= j < |rest| ==> m < rest[j];
      [m] + rest
  }

  /** The enumeration starts with the least element. */
  lemma SortedIntsUnfold(s: set<int>, m: int)
    requires IsLeastInt(m, s)
    ensures SortedInts(s) == [m] + SortedInts(s - {m})
  {
    var r := SortedInts(s);
    assert r[0] in s;
    assert IsLeastInt(r[0], s) by {
      forall x | x in s
        ensures r[0] <= x
      {
        assert x in r;
        var j :| 0 <= j < |r| && r[j] == x;
      }
    }
    assert r[0] == m;
  }

  method LeastInt(s: set<int>) returns (m: int)
    requires s != {}
    ensures IsLeastInt(m, s)
  {
    ghost var w := Pick(s);
    m :| m in s;
    var rest := s - {m};
    while rest != {}
      invariant rest <= s && m in s && m !in rest
      invariant forall y :: y in s - rest ==> m <= y
      decreases rest
    {
      ghost var w := Pick(rest);
      var x :| x in rest;
      ghost var m0, rest0 := m, rest;
      if x < m {
        m := x;
      }
      rest := rest - {x};
      forall y | y in s - rest
        ensures m <= y
      {
        if y != x {
          assert y in s - rest0;
          assert m0 <= y;
        }
      }
    }
    forall y | y in s
      ensures m <= y
    {
      assert y in s - rest;
    }
  }

  /** Dafny's counterpart of sorting a set of numbers. */
  method SortInts(s: set<int>) returns (r: seq<int>)
    ensures r == SortedInts(s)
  {
    r := [];
    var rest := s;
    while rest != {}
      invariant r + SortedInts(rest) == SortedInts(s)
      decreases rest
    {
      var m := LeastInt(rest);
      SortedIntsUnfold(rest, m);
      ShiftHead(r, m, SortedInts(rest - {m}));
      r := r + [m];
      rest := rest - {m};
    }
  }

  ghost predicate IsLeastName(m: string, s: set<string>) {
    m in s && forall x :: x in s && x != m ==> LexLess(m, x)
  }

  lemma {:induction false} LeastNameExists(s: set<string>)
    requires s != {}
    ensures exists m :: IsLeastName(m, s)
    decreases |s|
  {
    var x :| x in s;
    if s == {x} {
      assert IsLeastName(x, s);
    } else {
      LeastNameExists(s - {x});
      var m :| IsLeastName(m, s - {x});
      LexTotal(x, m);
      if LexLess(x, m) {
        forall y | y in s && y != x
          ensures LexLess(x, y)
        {
          if y != m {
            LexTransitive(x, m, y);
          }
        }
        assert IsLeastName(x, s);
      } else {
        assert IsLeastName(m, s);
      }
    }
  }

  lemma LeastNameUnique(m1: string, m2: string, s: set<string>)
    requires IsLeastName(m1, s) && IsLeastName(m2, s)
    ensures m1 == m2
  {
    if m1 != m2 {
      LexTransitive(m1, m2, m1);
      LexIrreflexive(m1);
    }
  }

  ghost predicate AscendingNames(r: seq<string>) {
    forall i, j :: 0 <= i < j < |r| ==> LexLess(r[i], r[j])
  }

  /** The names of s in ascending LexLess order. */
  ghost function SortedNames(s: set<string>): (r: seq<string>)
    ensures |r| == |s|
    ensures forall x :: x in r <==> x in s
    ensures AscendingNames(r)
    decreases s
  {
    if s == {} then []
    else
      LeastNameExists(s);
      var m :| IsLeastName(m, s);
      [m] + SortedNames(s - {m})
  }

  /** The enumeration starts with the least name. */
  lemma SortedNamesUnfold(s: set<string>, m: string)
    requires IsLeastName(m, s)
    ensures SortedNames(s) == [m] + SortedNames(s - {m})
  {
    var r := SortedNames(s);
    assert r[0] in s;
    assert IsLeastName(r[0], s) by {
      forall x | x in s && x != r[0]
        ensures LexLess(r[0], x)
      {
        var j :| 0 <= j < |r| && r[j] == x;
      }
    }
    LeastNameUnique(r[0], m, s);
  }

  method LeastName(s: set<string>) returns (m: string)
    requires s != {}
    ensures IsLeastName(m, s)
  {
    m :| m in s;
    var rest := s - {m};
    while rest != {}
      invariant rest <= s && m in s && m !in rest
      invariant forall y :: y in s - rest && y != m ==> LexLess(m, y)
      decreases rest
    {
      var x :| x in rest;
      LexTotal(x, m);
      if LexLess(x, m) {
        forall y | y in s - rest && y != x
          ensures LexLess(x, y)
        {
          if y != m {
            LexTransitive(x, m, y);
          }
        }
        m := x;
      }
      rest := rest - {x};
    }
  }

  lemma ShiftHead<T>(r: seq<T>, m: T, t: seq<T>)
    ensures (r + [m]) + t == r + ([m] + t)
  {
  }

  /** Taking the least name off rest keeps the sorted concatenation. */
  lemma SortNamesStep(r: seq<string>, rest: set<string>, m: string)
    requires IsLeastName(m, rest)
    ensures (r + [m]) + SortedNames(rest - {m}) == r + SortedNames(rest)
  {
    SortedNamesUnfold(rest, m);
    ShiftHead(r, m, SortedNames(rest - {m}));
  }

  /** Dafny's counterpart of ORDER BY on a TEXT key. */
  method SortNames(s: set<string>) returns (r: seq<string>)
    ensures r == SortedNames(s)
  {
    r := [];
    var rest := s;
    while rest != {}
      invariant r + SortedNames(rest) == SortedNames(s)
      decreases rest
    {
      var m := LeastName(rest);
      SortNamesStep(r, rest, m);
      r := r + [m];
      rest := rest - {m};
    }
  }
}
