/** Generic helpers over sequences, sets and maps: duplicate-free lists,
    first-occurrence removal, filtering, counting, and reading a map whose
    keys are positions back as a list in ascending key order (the model of
    SQL's `ORDER BY position`). */
module Seqs {

  /** No element occurs twice. */
  predicate NoDup<T(==)>(s: seq<T>) {
    forall i, j :: 0 <= i < j < |s| ==> s[i] != s[j]
  }

  /** A list is duplicate-free iff its head is not repeated in its tail and
      its tail is duplicate-free. */
  lemma NoDupCons<T>(s: seq<T>)
    requires s != []
    ensures NoDup(s) <==> s[0] !in s[1..] && NoDup(s[1..])
  {
    var t := s[1..];
    assert forall k :: 0 <= k < |t| ==> t[k] == s[k + 1];
  }

  /** Number of occurrences of `x` in `s`. */
  function Count<T(==)>(s: seq<T>, x: T): nat {
    if s == [] then 0 else (if s[0] == x then 1 else 0) + Count(s[1..], x)
  }

  /** Index of the first occurrence of `x` in `s`. */
  function IndexOf<T(==)>(s: seq<T>, x: T): (i: nat)
    requires x in s
    ensures i < |s| && s[i] == x
    ensures forall k :: 0 <= k < i ==> s[k] != x
  {
    if s[0] == x then 0 else 1 + IndexOf(s[1..], x)
  }

  /** Python's `list.remove(x)`: drops the first occurrence of `x`. */
  function RemoveFirst<T(==)>(s: seq<T>, x: T): (r: seq<T>)
    requires x in s
  {
    var i := IndexOf(s, x);
    s[..i] + s[i + 1..]
  }

  /** Removing the first occurrence from a duplicate-free list removes the
      element entirely and keeps every other element. */
  lemma RemoveFirstNoDup<T>(s: seq<T>, x: T)
    requires x in s && NoDup(s)
    ensures x !in RemoveFirst(s, x) && NoDup(RemoveFirst(s, x))
    ensures forall y :: y != x ==> (y in RemoveFirst(s, x) <==> y in s)
  {
    var i := IndexOf(s, x);
    var r := RemoveFirst(s, x);
    assert forall k :: 0 <= k < |r| ==> r[k] == (if k < i then s[k] else s[k + 1]);
    forall y | y != x && y in s
      ensures y in r
    {
      var k :| 0 <= k < |s| && s[k] == y;
      assert k != i;
      if k < i {
        assert r[k] == y;
      } else {
        assert r[k - 1] == y;
      }
    }
  }

  /** Removing an element just appended gives the list back. */
  lemma RemoveFirstAppended<T>(s: seq<T>, x: T)
    requires x !in s
    ensures x in s + [x] && RemoveFirst(s + [x], x) == s
  {
    var t := s + [x];
    assert t[|s|] == x;
    assert forall k :: 0 <= k < |s| ==> t[k] == s[k] && t[k] != x;
    assert IndexOf(t, x) == |s|;
    assert t[..|s|] == s;
  }

  /** The distinct elements of `s` in order of first occurrence (the keys
      of a dict built from `s`). */
  function Dedup<T(==)>(s: seq<T>): (r: seq<T>)
    ensures NoDup(r)
    ensures forall i :: 0 <= i < |r| ==> r[i] in s
    ensures forall i :: 0 <= i < |s| ==> s[i] in r
  {
    if s == [] then []
    else
      var init := s[..|s| - 1];
      var t := Dedup(init);
      assert forall i :: 0 <= i < |init| ==> init[i] == s[i];
      if s[|s| - 1] in t then t else t + [s[|s| - 1]]
  }

  /** The elements of `s` that satisfy `p`, in order. */
  function Filter<T>(s: seq<T>, p: T -> bool): (r: seq<T>)
    ensures |r| <= |s|
    ensures forall i :: 0 <= i < |r| ==> r[i] in s && p(r[i])
    ensures forall i :: 0 <= i < |s| && p(s[i]) ==> s[i] in r
  {
    if s == [] then []
    else (if p(s[0]) then [s[0]] else []) + Filter(s[1..], p)
  }

  /** Python's `sep.join(items)`. */
  function Join(sep: string, items: seq<string>): string {
    if |items| == 0 then ""
    else if |items| == 1 then items[0]
    else items[0] + (sep + Join(sep, items[1..]))
  }

  /** Concatenation of a sequence of sequences. */
  function Flatten<T>(ss: seq<seq<T>>): seq<T> {
    if ss == [] then [] else ss[0] + Flatten(ss[1..])
  }

  lemma FlattenAppend<T>(ss: seq<seq<T>>, s: seq<T>)
    ensures Flatten(ss + [s]) == Flatten(ss) + s
  {
    if ss == [] {
      assert [s][1..] == [];
    } else {
      assert (ss + [s])[1..] == ss[1..] + [s];
      FlattenAppend(ss[1..], s);
    }
  }

  lemma CountAppend<T>(s: seq<T>, t: seq<T>, x: T)
    ensures Count(s + t, x) == Count(s, x) + Count(t, x)
  {
    if s == [] {
      assert s + t == t;
    } else {
      assert (s + t)[1..] == s[1..] + t;
      CountAppend(s[1..], t, x);
    }
  }

  lemma CountPositive<T>(s: seq<T>, x: T)
    ensures Count(s, x) > 0 <==> x in s
  {
    if s != [] {
      CountPositive(s[1..], x);
      assert x in s <==> s[0] == x || x in s[1..];
    }
  }

  /* ---- ordered reads of position-keyed maps ---- */

  lemma Pick(s: set<int>) returns (x: int)
    requires s != {}
    ensures x in s
  {
    if forall y :: y in s ==> false {
      assert false;
    }
    x :| x in s;
  }

  lemma LeastExists(s: set<int>)
    requires s != {}
    ensures exists m :: m in s && forall y :: y in s ==> m <= y
  {
    var x := Pick(s);
    if s != {x} {
      LeastExists(s - {x});
      var m :| m in s - {x} && forall y :: y in s - {x} ==> m <= y;
      var least := if x < m then x else m;
      forall y | y in s
        ensures least <= y
      {
        if y != x {
          assert y in s - {x};
        }
      }
    } else {
      assert forall y :: y in s ==> x <= y;
    }
  }

  /** The least element of a non-empty finite set of integers. */
  function Least(s: set<int>): (m: int)
    requires s != {}
    ensures m in s
    ensures forall y :: y in s ==> m <= y
  {
    LeastExists(s);
    var m :| m in s && forall y :: y in s ==> m <= y;
    m
  }

  lemma GreatestExists(s: set<int>)
    requires s != {}
    ensures exists m :: m in s && forall y :: y in s ==> y <= m
  {
    var x := Pick(s);
    if s != {x} {
      GreatestExists(s - {x});
      var m :| m in s - {x} && forall y :: y in s - {x} ==> y <= m;
      var greatest := if x > m then x else m;
      forall y | y in s
        ensures y <= greatest
      {
        if y != x {
          assert y in s - {x};
        }
      }
    } else {
      assert forall y :: y in s ==> y <= x;
    }
  }

  /** The greatest element of a non-empty finite set of integers. */
  function Greatest(s: set<int>): (m: int)
    requires s != {}
    ensures m in s
    ensures forall y :: y in s ==> y <= m
  {
    GreatestExists(s);
    var m :| m in s && forall y :: y in s ==> y <= m;
    m
  }

  predicate StrictlyIncreasing(r: seq<int>) {
    forall i, j :: 0 <= i < j < |r| ==> r[i] < r[j]
  }

  /** The elements of `s` in ascending order. */
  function SortedElems(s: set<int>): (r: seq<int>)
    ensures |r| == |s|
    ensures forall x :: x in r <==> x in s
    ensures StrictlyIncreasing(r)
    decreases |s|
  {
    if s == {} then []
    else
      var m := Least(s);
      var rest := SortedElems(s - {m});
      assert forall i :: 0 <= i < |rest| ==> m < rest[i] by {
        forall i | 0 <= i < |rest|
          ensures m < rest[i]
        {
          assert rest[i] in s - {m};
        }
      }
      [m] + rest
  }

  lemma HeadIn<T>(s: seq<T>)
    requires s != []
    ensures s[0] in s
  {
  }

  lemma HeadLeast(s: seq<int>, j: int)
    requires StrictlyIncreasing(s) && 0 <= j < |s|
    ensures s[0] <= s[j]
  {
  }

  /** Two strictly increasing sequences with the same elements are equal. */
  lemma {:induction false} IncreasingUnique(a: seq<int>, b: seq<int>)
    requires StrictlyIncreasing(a) && StrictlyIncreasing(b)
    requires forall x :: x in a <==> x in b
    ensures a == b
  {
    if a != [] && b != [] {
      assert b[0] in b && a[0] in a;
      assert b[0] <= a[0] by {
        var j :| 0 <= j < |b| && b[j] == a[0];
        HeadLeast(b, j);
      }
      assert a[0] <= b[0] by {
        var j :| 0 <= j < |a| && a[j] == b[0];
        HeadLeast(a, j);
      }
      forall x
        ensures x in a[1..] <==> x in b[1..]
      {
        if x in a[1..] {
          var i :| 1 <= i < |a| && a[i] == x;
          assert a[0] < x;
          assert x in b;
        }
        if x in b[1..] {
          var i :| 1 <= i < |b| && b[i] == x;
          assert b[0] < x;
          assert x in a;
        }
      }
      IncreasingUnique(a[1..], b[1..]);
      assert a == [a[0]] + a[1..];
      assert b == [b[0]] + b[1..];
    } else if a != [] {
      HeadIn(a);
      assert false;
    } else if b != [] {
      HeadIn(b);
      assert false;
    }
  }

  /** The values of a position-keyed map, in ascending order of position. */
  function Ordered<V>(m: map<int, V>): (r: seq<V>)
    ensures |r| == |m|
    ensures var keys := SortedElems(m.Keys);
            |keys| == |r| && forall i :: 0 <= i < |r| ==> keys[i] in m && r[i] == m[keys[i]]
  {
    var keys := SortedElems(m.Keys);
    assert |keys| == |m.Keys| == |m|;
    assert forall i :: 0 <= i < |keys| ==> keys[i] in m.Keys;
    seq(|keys|, i requires 0 <= i < |keys| => m[keys[i]])
  }

  /** A list stored one row per item, the position being the list index. */
  function Indexed<V>(items: seq<V>): (m: map<int, V>)
    ensures forall i :: i in m <==> 0 <= i < |items|
  {
    map i | 0 <= i < |items| :: items[i]
  }

  /** Storing a list by position and reading it back in position order
      yields the list itself. */
  lemma {:induction false} OrderedIndexed<V>(items: seq<V>)
    ensures Ordered(Indexed(items)) == items
  {
    var m := Indexed(items);
    var keys := SortedElems(m.Keys);
    var range := seq(|items|, i => i);
    assert StrictlyIncreasing(range);
    forall x
      ensures x in keys <==> x in range
    {
      if x in range {
        var i :| 0 <= i < |range| && range[i] == x;
        assert x in m.Keys;
      }
      if x in keys {
        assert 0 <= x < |items|;
        assert range[x] == x;
      }
    }
    IncreasingUnique(keys, range);
  }
}
