/** The relational operators the program's SELECT statements are made of, over tables held as
    sequences of rows.  Nothing here depends on the order in which a table stores its rows. */
module Relational {

  datatype Option<+T> = None | Some(value: T)

  /** The first row satisfying a condition: what `rs.next()` yields on a filtered SELECT. */
  function First<T>(rows: seq<T>, pred: T -> bool): (r: Option<T>)
    ensures r.Some? ==> r.value in rows && pred(r.value)
    ensures r.None? ==> forall x | x in rows :: !pred(x)
  {
    if rows == [] then None
    else if pred(rows[0]) then Some(rows[0])
    else First(rows[1..], pred)
  }

  /** WHERE. */
  function Where<T>(rows: seq<T>, pred: T -> bool): (r: seq<T>)
    ensures |r| <= |rows|
    ensures forall x | x in r :: x in rows && pred(x)
    ensures forall x | x in rows && pred(x) :: x in r
  {
    if rows == [] then []
    else (if pred(rows[0]) then [rows[0]] else []) + Where(rows[1..], pred)
  }

  /** The rows of `bs` that the ON condition pairs with `a`. */
  function Matches<A, B>(a: A, bs: seq<B>, on: (A, B) -> bool): seq<B> {
    if bs == [] then []
    else (if on(a, bs[0]) then [bs[0]] else []) + Matches(a, bs[1..], on)
  }

  function Pairs<A, B>(a: A, bs: seq<B>): seq<(A, B)> {
    seq(|bs|, i requires 0 <= i < |bs| => (a, bs[i]))
  }

  /** JOIN ... ON. */
  function Join<A, B>(xs: seq<A>, bs: seq<B>, on: (A, B) -> bool): seq<(A, B)> {
    if xs == [] then []
    else Pairs(xs[0], Matches(xs[0], bs, on)) + Join(xs[1..], bs, on)
  }

  /** One row of the left table in a LEFT JOIN: padded with NULL when nothing matches. */
  function LeftPairs<A, B>(a: A, bs: seq<B>): seq<(A, Option<B>)> {
    if bs == [] then [(a, None)]
    else seq(|bs|, i requires 0 <= i < |bs| => (a, Some(bs[i])))
  }

  /** LEFT JOIN ... ON. */
  function LeftJoin<A, B>(xs: seq<A>, bs: seq<B>, on: (A, B) -> bool): seq<(A, Option<B>)> {
    if xs == [] then []
    else LeftPairs(xs[0], Matches(xs[0], bs, on)) + LeftJoin(xs[1..], bs, on)
  }

  function HasKey<T, K(==)>(key: T -> K, k: K): T -> bool {
    t => key(t) == k
  }

  function LacksKey<T, K(==)>(key: T -> K, k: K): T -> bool {
    t => key(t) != k
  }

  /** GROUP BY: one group per distinct key, each holding all rows with that key. */
  function GroupBy<T, K(==)>(rows: seq<T>, key: T -> K): (groups: seq<seq<T>>)
    ensures forall i | 0 <= i < |groups| :: groups[i] != []
    decreases |rows|
  {
    if rows == [] then []
    else
      var k := key(rows[0]);
      var rest := Where(rows[1..], LacksKey(key, k));
      var group := [rows[0]] + Where(rows[1..], HasKey(key, k));
      [group] + GroupBy(rest, key)
  }

  /** ORDER BY key DESC promises this and no more: any order among equal keys is possible. */
  ghost predicate Descending<T(!new)>(rows: seq<T>, key: T -> int) {
    forall i, j | 0 <= i < j < |rows| :: key(rows[i]) >= key(rows[j])
  }

  ghost predicate OrderedAnswer<T(!new)>(answer: seq<T>, rows: seq<T>, key: T -> int) {
    multiset(answer) == multiset(rows) && Descending(answer, key)
  }

  lemma SameRows<T>(a: seq<T>, b: seq<T>)
    requires multiset(a) == multiset(b)
    ensures |a| == |b|
    ensures forall x :: x in a <==> x in b
  {
    assert |a| == |multiset(a)| == |multiset(b)| == |b|;
    forall x ensures x in a <==> x in b {
      assert x in a <==> x in multiset(a);
      assert x in b <==> x in multiset(b);
    }
  }

  /** A sequence without its row `n`. */
  function Without<T>(rows: seq<T>, n: nat): seq<T>
    requires n < |rows|
  {
    rows[..n] + rows[n + 1..]
  }

  lemma TakeOut<T>(rows: seq<T>, n: nat)
    requires n < |rows|
    ensures multiset(Without(rows, n)) == multiset(rows) - multiset{rows[n]}
  {
    assert rows == rows[..n] + ([rows[n]] + rows[n + 1..]);
  }

  /** Rearranging rows keeps a key unique. */
  lemma UniqueAnyOrder<T(!new), K>(a: seq<T>, b: seq<T>, key: T -> K)
    requires forall i, j | 0 <= i < j < |a| :: key(a[i]) != key(a[j])
    requires multiset(a) == multiset(b)
    ensures forall i, j | 0 <= i < j < |b| :: key(b[i]) != key(b[j])
  {
    forall i, j | 0 <= i < j < |b| ensures key(b[i]) != key(b[j]) {
      var m, n := FindBoth(a, b, i, j);
      assert m < n || n < m;
    }
  }

  /** Two different rows of a rearrangement are two different rows of the original. */
  lemma FindBoth<T>(a: seq<T>, b: seq<T>, i: nat, j: nat) returns (m: nat, n: nat)
    requires multiset(a) == multiset(b) && i < j < |b|
    ensures m < |a| && n < |a| && m != n && a[m] == b[i] && a[n] == b[j]
  {
    assert b[i] in a by { SameRows(a, b); }
    m :| m < |a| && a[m] == b[i];
    assert b[j] in Without(a, m) by {
      TakeOut(a, m);
      TakeOut(b, i);
      assert b[j] == Without(b, i)[j - 1];
      SameRows(Without(a, m), Without(b, i));
    }
    n := FindAgain(a, m, b[j]);
  }

  lemma FindAgain<T>(rows: seq<T>, m: nat, x: T) returns (n: nat)
    requires m < |rows| && x in Without(rows, m)
    ensures n < |rows| && n != m && rows[n] == x
  {
    var k :| 0 <= k < |Without(rows, m)| && Without(rows, m)[k] == x;
    n := if k < m then k else k + 1;
  }

  /** Where a new row goes in an ordered answer. */
  function Place<T>(rows: seq<T>, key: T -> int, bound: int): (n: nat)
    ensures n <= |rows|
    ensures forall i | 0 <= i < n :: key(rows[i]) >= bound
    ensures n < |rows| ==> key(rows[n]) < bound
  {
    if rows == [] || key(rows[0]) < bound then 0 else 1 + Place(rows[1..], key, bound)
  }

  lemma InsertKeepsRows<T>(rows: seq<T>, n: nat, x: T)
    requires n <= |rows|
    ensures multiset(rows[..n] + [x] + rows[n..]) == multiset([x] + rows)
  {
    assert rows == rows[..n] + rows[n..];
  }

  lemma InsertKeepsOrder<T(!new)>(rows: seq<T>, key: T -> int, x: T)
    requires Descending(rows, key)
    ensures var n := Place(rows, key, key(x)); Descending(rows[..n] + [x] + rows[n..], key)
  {
  }

  /** Every table has an answer to ORDER BY key DESC. */
  lemma {:induction false} OrderedAnswerExists<T(!new)>(rows: seq<T>, key: T -> int) returns (answer: seq<T>)
    ensures OrderedAnswer(answer, rows, key)
  {
    if rows == [] {
      answer := [];
    } else {
      var rest := OrderedAnswerExists(rows[1..], key);
      var n := Place(rest, key, key(rows[0]));
      InsertKeepsRows(rest, n, rows[0]);
      InsertKeepsOrder(rest, key, rows[0]);
      answer := rest[..n] + [rows[0]] + rest[n..];
      assert rows == [rows[0]] + rows[1..];
      assert multiset([rows[0]] + rest) == multiset([rows[0]] + rows[1..]);
    }
  }

  lemma {:induction false} WhereConcat<T>(a: seq<T>, b: seq<T>, pred: T -> bool)
    ensures Where(a + b, pred) == Where(a, pred) + Where(b, pred)
  {
    if a == [] {
      assert a + b == b;
    } else {
      assert (a + b)[0] == a[0] && (a + b)[1..] == a[1..] + b;
      WhereConcat(a[1..], b, pred);
    }
  }

  lemma {:induction false} WhereAll<T>(a: seq<T>, pred: T -> bool)
    requires forall x | x in a :: pred(x)
    ensures Where(a, pred) == a
  {
    if a != [] {
      WhereAll(a[1..], pred);
    }
  }

  lemma {:induction false} WhereNone<T>(a: seq<T>, pred: T -> bool)
    requires forall x | x in a :: !pred(x)
    ensures Where(a, pred) == []
  {
    if a != [] {
      WhereNone(a[1..], pred);
    }
  }

  lemma SplitWhere<T>(a: seq<T>, b: seq<T>, pred: T -> bool)
    requires forall x | x in a :: pred(x)
    requires forall x | x in b :: !pred(x)
    ensures Where(a + b, pred) == a
  {
    WhereConcat(a, b, pred);
    WhereAll(a, pred);
    WhereNone(b, pred);
  }

  lemma DropWhere<T>(a: seq<T>, b: seq<T>, pred: T -> bool)
    requires forall x | x in a :: !pred(x)
    requires forall x | x in b :: pred(x)
    ensures Where(a + b, pred) == b
  {
    WhereConcat(a, b, pred);
    WhereNone(a, pred);
    WhereAll(b, pred);
  }

  /** Rows sharing one key that occurs nowhere else form exactly one group. */
  lemma GroupOff<T, K>(block: seq<T>, rest: seq<T>, key: T -> K, k: K)
    requires block != []
    requires forall x | x in block :: key(x) == k
    requires forall x | x in rest :: key(x) != k
    ensures GroupBy(block + rest, key) == [block] + GroupBy(rest, key)
  {
    var rows := block + rest;
    assert rows[0] == block[0] && key(block[0]) == k;
    assert rows[1..] == block[1..] + rest;
    SplitWhere(block[1..], rest, HasKey(key, k));
    DropWhere(block[1..], rest, LacksKey(key, k));
    assert [block[0]] + block[1..] == block;
  }

  /** A join on a key that identifies rows of `bs` finds exactly the identified row. */
  lemma {:induction false} UniqueMatch<A, B>(a: A, bs: seq<B>, on: (A, B) -> bool, b: B)
    requires b in bs && on(a, b)
    requires forall i, j | 0 <= i < j < |bs| :: !(on(a, bs[i]) && on(a, bs[j]))
    ensures Matches(a, bs, on) == [b]
  {
    if on(a, bs[0]) {
      var n :| 0 <= n < |bs| && bs[n] == b;
      assert n == 0;
      NoMatch(a, bs[1..], on);
    } else {
      UniqueMatch(a, bs[1..], on, b);
    }
  }

  lemma {:induction false} NoMatch<A, B>(a: A, bs: seq<B>, on: (A, B) -> bool)
    requires forall i | 0 <= i < |bs| :: !on(a, bs[i])
    ensures Matches(a, bs, on) == []
  {
    if bs != [] {
      NoMatch(a, bs[1..], on);
    }
  }
}
