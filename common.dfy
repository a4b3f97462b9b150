/** Option and Result values used for the scripts' empty query results and fatal aborts. */
module Common {

  datatype Option<T> = None | Some(value: T)

  /** Why a batch run aborts before its commit. */
  datatype Fault =
    | EmptyList     // an empty list spliced into SQL (`ARRAY[]`, an empty `VALUES`, `''::geometry`)
    | NoRow         // `fetchall()[0]` or `merge[-1]` on a query that returned no row (IndexError)
    | BadInteger    // `int()` on a label that is not a decimal integer (ValueError)
    | NullValue     // a NULL (Python `None`) spliced into SQL as the word `None`
    | EmptyToken    // `key[-1]` on an empty style token (IndexError)
    | BadNumber     // `float()` on a token that is not a number (ValueError)
    | MissingKey    // a dictionary or attribute lookup of an absent key (KeyError)
    | ShortRing     // a polygon ring of fewer than 4 coordinates once closed (ValueError)

  datatype Result<T> = Ok(value: T) | Fail(fault: Fault)

  /** The end of a step that returns nothing: it finished, or the run aborts. */
  datatype Outcome = Done | Abort(fault: Fault)

  /** Members of a sequence as a set. */
  function Elems(s: seq<int>): set<int>
  {
    set x | x in s
  }

  /** Strictly increasing sequences of ids, the order of `ORDER BY id`. */
  predicate Increasing(s: seq<int>)
  {
    forall i, j :: 0 <= i < j < |s| ==> s[i] < s[j]
  }

  /** A non-empty set of ids has a member (used before every `:|` choice). */
  lemma Inhabited(s: set<int>)
    requires s != {}
    ensures exists x :: x in s
  {
    if forall x :: x !in s {
      assert false;
    }
  }

  /** The least element of a finite non-empty set of ids. */
  method MinOf(s: set<int>) returns (m: int)
    requires s != {}
    ensures m in s
    ensures forall x :: x in s ==> m <= x
  {
    Inhabited(s);
    m :| m in s;
    var rest := s - {m};
    while rest != {}
      invariant rest <= s && m in s
      invariant forall x :: x in s && x !in rest ==> m <= x
      decreases rest
    {
      Inhabited(rest);
      var x :| x in rest;
      if x < m {
        m := x;
      }
      rest := rest - {x};
    }
  }

  /** The ids of a selection in ascending order (`ORDER BY id`). */
  method SortIds(s: set<int>) returns (r: seq<int>)
    ensures Increasing(r)
    ensures Elems(r) == s
    ensures forall x :: x in r <==> x in s
    ensures forall i :: 0 <= i < |r| ==> r[i] in s
  {
    r := [];
    var rest := s;
    while rest != {}
      invariant rest <= s
      invariant Elems(r) == s - rest
      invariant Increasing(r)
      invariant forall i, x :: 0 <= i < |r| && x in rest ==> r[i] < x
      decreases rest
    {
      var m := MinOf(rest);
      assert Elems(r + [m]) == Elems(r) + {m} by {
        forall x
          ensures x in Elems(r + [m]) <==> x in Elems(r) + {m}
        {
        }
      }
      r := r + [m];
      rest := rest - {m};
    }
    assert forall x :: x in r <==> x in Elems(r);
  }

  /** Two increasing sequences with the same members are the same sequence: `ORDER BY id` has one answer. */
  lemma {:induction false} IncreasingUnique(a: seq<int>, b: seq<int>)
    requires Increasing(a) && Increasing(b)
    requires forall x :: x in a <==> x in b
    ensures a == b
    decreases |a|
  {
    IncreasingSize(a, b);
    if a != [] {
      IncreasingHeads(a, b);
      IncreasingUnique(a[1..], b[1..]);
      assert a == [a[0]] + a[1..] && b == [b[0]] + b[1..];
    }
  }

  /** Increasing sequences with the same members have the same length. */
  lemma IncreasingSize(a: seq<int>, b: seq<int>)
    requires Increasing(a) && Increasing(b)
    requires forall x :: x in a <==> x in b
    ensures |a| == |b|
  {
    assert Distinct(a) && Distinct(b);
    DistinctCard(a);
    DistinctCard(b);
    assert Elems(a) == Elems(b);
  }

  /** Non-empty increasing sequences with the same members start alike and go on with the same members. */
  lemma IncreasingHeads(a: seq<int>, b: seq<int>)
    requires Increasing(a) && Increasing(b) && a != [] && b != []
    requires forall x :: x in a <==> x in b
    ensures a[0] == b[0]
    ensures Increasing(a[1..]) && Increasing(b[1..])
    ensures forall x :: x in a[1..] <==> x in b[1..]
  {
    assert a[0] in b && b[0] in a;
    var i :| 0 <= i < |a| && a[i] == b[0];
    var j :| 0 <= j < |b| && b[j] == a[0];
    assert a[0] <= a[i] && b[0] <= b[j];
    forall x
      ensures x in a[1..] <==> x in b[1..]
    {
      if x in a[1..] {
        var k :| 1 <= k < |a| && a[k] == x;
        assert x in b && x != b[0];
      }
      if x in b[1..] {
        var k :| 1 <= k < |b| && b[k] == x;
        assert x in a && x != a[0];
      }
    }
  }

  /** No id occurs twice. */
  predicate Distinct(s: seq<int>)
  {
    forall i, j :: 0 <= i < j < |s| ==> s[i] != s[j]
  }

  /** A sequence without repetitions has as many members as elements. */
  lemma {:induction false} DistinctCard(s: seq<int>)
    requires Distinct(s)
    ensures |Elems(s)| == |s|
  {
    if s != [] {
      var init := s[..|s| - 1];
      DistinctCard(init);
      assert Elems(s) == Elems(init) + {s[|s| - 1]} by {
        forall x
          ensures x in Elems(s) <==> x in Elems(init) + {s[|s| - 1]}
        {
          if x in s {
            var k :| 0 <= k < |s| && s[k] == x;
            if k < |s| - 1 {
              assert init[k] == x;
            }
          }
        }
      }
      assert s[|s| - 1] !in Elems(init);
    }
  }

  /** A member of a non-empty set of ids with the least key. */
  method MinBy(s: set<int>, key: map<int, real>) returns (m: int)
    requires s != {} && s <= key.Keys
    ensures m in s
    ensures forall x :: x in s ==> key[m] <= key[x]
  {
    Inhabited(s);
    m :| m in s;
    var rest := s - {m};
    while rest != {}
      invariant rest <= s && m in s
      invariant forall x :: x in s && x !in rest ==> key[m] <= key[x]
      decreases rest
    {
      Inhabited(rest);
      var x :| x in rest;
      if key[x] < key[m] {
        m := x;
      }
      rest := rest - {x};
    }
  }

  /** The ids of a selection in ascending order of a key (`ORDER BY key ASC`). */
  method SortBy(s: set<int>, key: map<int, real>) returns (r: seq<int>)
    requires s <= key.Keys
    ensures Distinct(r) && Elems(r) == s
    ensures forall i :: 0 <= i < |r| ==> r[i] in s
    ensures forall i, j :: 0 <= i < j < |r| ==> key[r[i]] <= key[r[j]]
  {
    r := [];
    var rest := s;
    while rest != {}
      invariant rest <= s
      invariant Elems(r) == s - rest
      invariant Distinct(r)
      invariant forall i :: 0 <= i < |r| ==> r[i] in s
      invariant forall i, j :: 0 <= i < j < |r| ==> key[r[i]] <= key[r[j]]
      invariant forall i, x :: 0 <= i < |r| && x in rest ==> key[r[i]] <= key[x]
      decreases rest
    {
      var m := MinBy(rest, key);
      assert Elems(r + [m]) == Elems(r) + {m} by {
        forall x
          ensures x in Elems(r + [m]) <==> x in Elems(r) + {m}
        {
        }
      }
      assert forall i :: 0 <= i < |r| ==> r[i] in Elems(r);
      r := r + [m];
      rest := rest - {m};
    }
  }
}
