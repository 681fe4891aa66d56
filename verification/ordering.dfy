/**
 * Orderings used by the queries' ORDER BY clauses, and the evaluation of
 * `SELECT ... WHERE ... ORDER BY ...` over a table held as a map from row id
 * to row.
 */
module Ordering {

  /** `le` is total and transitive: a valid ORDER BY key comparison. */
  ghost predicate TotalPreorder<T(!new)>(le: (T, T) -> bool)
  {
    && (forall a, b :: le(a, b) || le(b, a))
    && (forall a, b, c :: le(a, b) && le(b, c) ==> le(a, c))
  }

  /** Every earlier element is `le` every later one. */
  predicate SortedBy<T>(s: seq<T>, le: (T, T) -> bool)
  {
    forall i, j :: 0 <= i < j < |s| ==> le(s[i], s[j])
  }

  /**
   * Text order of SQLite's default BINARY collation. Comparing code points
   * gives the same order as comparing their UTF-8 bytes.
   */
  predicate StrLe(a: string, b: string)
  {
    a == [] || (b != [] && (a[0] < b[0] || (a[0] == b[0] && StrLe(a[1..], b[1..]))))
  }

  lemma {:induction false} StrLeTotal(a: string, b: string)
    ensures StrLe(a, b) || StrLe(b, a)
  {
    if a != [] && b != [] && a[0] == b[0] {
      StrLeTotal(a[1..], b[1..]);
    }
  }

  lemma {:induction false} StrLeTransitive(a: string, b: string, c: string)
    requires StrLe(a, b) && StrLe(b, c)
    ensures StrLe(a, c)
  {
    if a != [] && b != [] && c != [] && a[0] == b[0] && b[0] == c[0] {
      StrLeTransitive(a[1..], b[1..], c[1..]);
    }
  }

  lemma {:induction false} StrLeAntisymmetric(a: string, b: string)
    requires StrLe(a, b) && StrLe(b, a)
    ensures a == b
  {
    if a != [] && b != [] {
      StrLeAntisymmetric(a[1..], b[1..]);
    }
  }

  /** Inserts `x` before the first element it is `le` to. */
  function InsertBy<T>(x: T, s: seq<T>, le: (T, T) -> bool): (r: seq<T>)
    ensures multiset(r) == multiset(s) + multiset{x}
  {
    if s == [] then [x]
    else if le(x, s[0]) then [x] + s
    else
      assert s == [s[0]] + s[1..];
      [s[0]] + InsertBy(x, s[1..], le)
  }

  lemma {:induction false} InsertBySorted<T(!new)>(x: T, s: seq<T>, le: (T, T) -> bool)
    requires TotalPreorder(le)
    requires SortedBy(s, le)
    ensures SortedBy(InsertBy(x, s, le), le)
  {
    if s != [] && !le(x, s[0]) {
      InsertBySorted(x, s[1..], le);
      var r := InsertBy(x, s, le);
      var tail := InsertBy(x, s[1..], le);
      assert r == [s[0]] + tail;
      forall j | 0 < j < |r|
        ensures le(s[0], r[j])
      {
        assert r[j] in multiset(tail);
        if r[j] != x {
          assert r[j] in multiset(s[1..]);
          var k :| 0 <= k < |s[1..]| && s[1..][k] == r[j];
          assert s[k + 1] == r[j];
        }
      }
    }
  }

  /** Evaluates `SELECT * FROM table WHERE keep ORDER BY le`; ties may come out in any order. */
  method Select<T(!new)>(table: map<int, T>, keep: T -> bool, le: (T, T) -> bool) returns (rows: seq<T>)
    requires TotalPreorder(le)
    requires forall a, b :: a in table && b in table && table[a] == table[b] ==> a == b
    ensures SortedBy(rows, le)
    ensures forall k :: k in table && keep(table[k]) ==> table[k] in rows
    ensures forall x :: x in rows ==> keep(x) && exists k :: k in table && table[k] == x
    ensures forall x :: multiset(rows)[x] <= 1
  {
    var rest := table.Keys;
    ghost var done: set<int> := {};
    rows := [];
    while rest != {}
      invariant rest + done == table.Keys && rest !! done
      invariant SortedBy(rows, le)
      invariant forall x :: x in rows <==> exists k :: k in done && table[k] == x && keep(x)
      invariant forall x :: multiset(rows)[x] <= 1
      decreases rest
    {
      assert exists k :: k in rest by {
        var some := Pick(rest);
      }
      var k :| k in rest;
      var x := table[k];
      ghost var before := rows;
      if keep(x) {
        assert x !in rows;
        InsertBySorted(x, rows, le);
        rows := InsertBy(x, rows, le);
      }
      forall y
        ensures y in rows <==> (y in before || (y == x && keep(x)))
      {
        assert y in rows <==> y in multiset(rows);
        assert y in before <==> y in multiset(before);
      }
      rest := rest - {k};
      done := done + {k};
    }
  }

  /** Some element of a non-empty set. */
  ghost function Pick<K>(s: set<K>): (k: K)
    requires s != {}
    ensures k in s
  {
    var k :| k in s; k
  }
}
