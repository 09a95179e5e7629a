/** `orderBy(Metric, Date, Bucket)`: the grouped rows sorted by their key. Spark's
    sort algorithm is not visible; an insertion sort stands in for it, and what is
    proved of it (sorted, a permutation of its input) is all that `orderBy` promises. */
module Ordering {
  import opened Keys
  import opened Aggregation

  predicate Sorted(rows: seq<Summary>) {
    forall i, j :: 0 <= i < j < |rows| ==> KeyLessEq(rows[i].key, rows[j].key)
  }

  predicate StrictlyIncreasing(rows: seq<Summary>) {
    forall i, j :: 0 <= i < j < |rows| ==> KeyLess(rows[i].key, rows[j].key)
  }

  predicate DistinctKeys(rows: seq<Summary>) {
    forall i, j :: 0 <= i < j < |rows| ==> rows[i].key != rows[j].key
  }

  /** Inserts x into sorted rows, in front of the first row whose key is not below x's. */
  function Insert(x: Summary, s: seq<Summary>): (r: seq<Summary>)
    requires Sorted(s)
    ensures Sorted(r)
    ensures multiset(r) == multiset(s) + multiset{x}
  {
    if s == [] then [x]
    else if KeyLess(s[0].key, x.key) then
      var t := Insert(x, s[1..]);
      assert s == [s[0]] + s[1..];
      InsertHeadBelow(s[0], x, s[1..], t);
      [s[0]] + t
    else
      KeyNotLess(x.key, s[0].key);
      forall j | 0 <= j < |s| ensures KeyLessEq(x.key, s[j].key) {
        if j > 0 {
          KeyLessEqTransitive(x.key, s[0].key, s[j].key);
        }
      }
      [x] + s
  }

  /** A row below x and below every row of s stays first once x goes into s. */
  lemma InsertHeadBelow(h: Summary, x: Summary, s: seq<Summary>, t: seq<Summary>)
    requires KeyLess(h.key, x.key)
    requires forall j :: 0 <= j < |s| ==> KeyLessEq(h.key, s[j].key)
    requires Sorted(t) && multiset(t) == multiset(s) + multiset{x}
    ensures Sorted([h] + t)
  {
    forall j | 0 <= j < |t| ensures KeyLessEq(h.key, t[j].key) {
      assert t[j] in multiset(t);
      if t[j] != x {
        assert t[j] in multiset(s);
        var k :| 0 <= k < |s| && s[k] == t[j];
      }
    }
    var r := [h] + t;
    forall i, j | 0 <= i < j < |r| ensures KeyLessEq(r[i].key, r[j].key) {
      if i > 0 {
        assert r[i] == t[i - 1] && r[j] == t[j - 1];
      } else {
        assert r[j] == t[j - 1];
      }
    }
  }

  /** The rows sorted ascending by key, as a permutation of the input. */
  function OrderBy(rows: seq<Summary>): (r: seq<Summary>)
    ensures Sorted(r)
    ensures multiset(r) == multiset(rows)
    ensures |r| == |rows|
  {
    if rows == [] then []
    else
      assert rows == [rows[0]] + rows[1..];
      Insert(rows[0], OrderBy(rows[1..]))
  }

  /** Inserting a row whose key is new keeps strictly increasing rows strictly increasing. */
  lemma {:induction false} InsertStrict(x: Summary, s: seq<Summary>)
    requires StrictlyIncreasing(s)
    requires forall i :: 0 <= i < |s| ==> s[i].key != x.key
    ensures StrictlyIncreasing(Insert(x, s))
  {
    var r := Insert(x, s);
    forall i, j | 0 <= i < j < |r| ensures KeyLess(r[i].key, r[j].key) {
      assert KeyLessEq(r[i].key, r[j].key);
      if r[i].key == r[j].key {
        SameKeyInInsert(x, s, i, j);
      }
    }
  }

  /** Two positions of Insert(x, s) cannot hold the same key when x's key is new and
      the keys of s differ pairwise. */
  lemma {:induction false} SameKeyInInsert(x: Summary, s: seq<Summary>, i: nat, j: nat)
    requires StrictlyIncreasing(s)
    requires forall k :: 0 <= k < |s| ==> s[k].key != x.key
    requires i < j < |Insert(x, s)|
    ensures Insert(x, s)[i].key != Insert(x, s)[j].key
  {
    if s != [] && KeyLess(s[0].key, x.key) {
      if i > 0 {
        SameKeyInInsert(x, s[1..], i - 1, j - 1);
      } else {
        HeadKeyUnique(x, s, j);
      }
    } else if s != [] && i > 0 {
      KeyLessIrreflexive(s[i - 1].key);
    }
  }

  /** When x goes behind the first row of s, no later position repeats that row's key. */
  lemma HeadKeyUnique(x: Summary, s: seq<Summary>, j: nat)
    requires StrictlyIncreasing(s) && s != [] && KeyLess(s[0].key, x.key)
    requires 0 < j < |Insert(x, s)|
    ensures Insert(x, s)[j].key != s[0].key
  {
    var t := Insert(x, s[1..]);
    var y := t[j - 1];
    assert Insert(x, s)[j] == y;
    assert y in multiset(t);
    KeyLessIrreflexive(s[0].key);
    if y != x {
      assert y in multiset(s[1..]);
      var k :| 0 <= k < |s[1..]| && s[1..][k] == y;
      assert s[k + 1] == y;
      assert KeyLess(s[0].key, s[k + 1].key);
    }
  }

  /** Sorting rows with distinct keys yields rows in strictly increasing key order. */
  lemma {:induction false} OrderByStrict(rows: seq<Summary>)
    requires DistinctKeys(rows)
    ensures StrictlyIncreasing(OrderBy(rows))
  {
    if rows != [] {
      var tail := rows[1..];
      OrderByStrict(tail);
      var s := OrderBy(tail);
      forall i | 0 <= i < |s| ensures s[i].key != rows[0].key {
        assert s[i] in multiset(tail);
        var k :| 0 <= k < |tail| && tail[k] == s[i];
        assert rows[k + 1] == s[i];
      }
      InsertStrict(rows[0], s);
    }
  }

  /** In strictly increasing rows each key occurs at one position only. */
  lemma {:induction false} StrictlyIncreasingDistinct(rows: seq<Summary>)
    requires StrictlyIncreasing(rows)
    ensures DistinctKeys(rows)
  {
    forall i, j | 0 <= i < j < |rows| ensures rows[i].key != rows[j].key {
      if rows[i].key == rows[j].key {
        KeyLessIrreflexive(rows[i].key);
      }
    }
  }
}
