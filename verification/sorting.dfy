/** `ORDER BY <text column>`: arranging query rows in ascending order of
    a TEXT key under SQLite's BINARY collation. Rows whose keys tie may
    come out in either order, as in SQLite. */
module Sorting {
  import opened Strings

  /** Every row's key is at most the keys of the rows after it. */
  predicate SortedBy<T>(s: seq<T>, key: T -> string) {
    forall i, j :: 0 <= i < j < |s| ==> StrLessEq(key(s[i]), key(s[j]))
  }

  lemma StrLessEqTransitive(a: string, b: string, c: string)
    requires StrLessEq(a, b) && StrLessEq(b, c)
    ensures StrLessEq(a, c)
  {
    if a != b && b != c {
      StrLessTransitive(a, b, c);
    }
  }

  /** Inserting `x` into a sorted sequence before the first row whose key
      is not smaller keeps it sorted and adds exactly `x`. */
  function Insert<T>(x: T, s: seq<T>, key: T -> string): (r: seq<T>)
    requires SortedBy(s, key)
    ensures SortedBy(r, key)
    ensures multiset(r) == multiset(s) + multiset{x}
    decreases |s|
  {
    if |s| == 0 then [x]
    else if StrLessEq(key(x), key(s[0])) then
      InsertFront(x, s, key);
      [x] + s
    else
      var tail := Insert(x, s[1..], key);
      StrLessTotal(key(x), key(s[0]));
      HeadBelowTail(s, x, tail, key);
      assert s == [s[0]] + s[1..];
      [s[0]] + tail
  }

  /** A row whose key is at most the first key can go in front. */
  lemma InsertFront<T>(x: T, s: seq<T>, key: T -> string)
    requires SortedBy(s, key) && |s| > 0 && StrLessEq(key(x), key(s[0]))
    ensures SortedBy([x] + s, key)
  {
    var r := [x] + s;
    forall i, j | 0 <= i < j < |r|
      ensures StrLessEq(key(r[i]), key(r[j]))
    {
      if i == 0 && j > 1 {
        StrLessEqTransitive(key(x), key(s[0]), key(s[j - 1]));
      }
    }
  }

  /** The old head stays in front of a sorted tail built from the rest and
      a row with a larger key. */
  lemma HeadBelowTail<T>(s: seq<T>, x: T, tail: seq<T>, key: T -> string)
    requires SortedBy(s, key) && |s| > 0
    requires StrLessEq(key(s[0]), key(x))
    requires SortedBy(tail, key)
    requires multiset(tail) == multiset(s[1..]) + multiset{x}
    ensures SortedBy([s[0]] + tail, key)
  {
    var r := [s[0]] + tail;
    forall i, j | 0 <= i < j < |r|
      ensures StrLessEq(key(r[i]), key(r[j]))
    {
      if i == 0 {
        var y := tail[j - 1];
        assert y in multiset(tail);
        if y != x {
          assert y in multiset(s[1..]);
          var k :| 0 <= k < |s[1..]| && s[1..][k] == y;
          assert s[k + 1] == y;
        }
      }
    }
  }

  /** `ORDER BY key` over a result set: the rows of `rows`, each once, in
      ascending key order. */
  method SortRows<T>(rows: set<T>, key: T -> string) returns (s: seq<T>)
    ensures SortedBy(s, key)
    ensures multiset(s) == multiset(rows)
    ensures forall x :: x in s <==> x in rows
    ensures |s| == |rows|
    ensures forall i, j :: 0 <= i < j < |s| ==> s[i] != s[j]
  {
    s := [];
    var rest := rows;
    while rest != {}
      invariant rest <= rows
      invariant SortedBy(s, key)
      invariant multiset(s) + multiset(rest) == multiset(rows)
      decreases |rest|
    {
      var x :| x in rest;
      s := Insert(x, s, key);
      assert multiset(rest) == multiset(rest - {x}) + multiset{x};
      rest := rest - {x};
    }
    assert forall x :: x in s <==> x in multiset(s);
    assert |s| == |multiset(s)| == |multiset(rows)|;
    forall i, j | 0 <= i < j < |s|
      ensures s[i] != s[j]
    {
      RepeatCounts(s, i, j);
      assert multiset(rows)[s[j]] <= 1;
    }
  }

  /** A value at two positions of a sequence occurs there at least twice. */
  lemma RepeatCounts<T>(s: seq<T>, i: int, j: int)
    requires 0 <= i < j < |s|
    ensures s[i] == s[j] ==> multiset(s)[s[j]] >= 2
  {
    assert s == s[..j] + [s[j]] + s[j + 1..];
    assert s[..j][i] == s[i];
    assert s[i] in multiset(s[..j]);
  }
}
