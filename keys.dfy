/** The grouping key (Metric, Date, Bucket) and the order `orderBy` sorts it by. */
module Keys {
  import opened Buckets

  datatype Key = Key(metric: string, date: Date, bucket: int)

  /** Lexicographic order on strings, character by character; Spark compares strings
      by their UTF-8 bytes, which orders them as their code points do. */
  predicate StringLess(a: string, b: string) {
    if a == [] then b != []
    else b != [] && (a[0] < b[0] || (a[0] == b[0] && StringLess(a[1..], b[1..])))
  }

  /** Ascending by metric, then date, then bucket. */
  predicate KeyLess(x: Key, y: Key) {
    || StringLess(x.metric, y.metric)
    || (x.metric == y.metric && x.date.epochDay < y.date.epochDay)
    || (x.metric == y.metric && x.date == y.date && x.bucket < y.bucket)
  }

  predicate KeyLessEq(x: Key, y: Key) {
    x == y || KeyLess(x, y)
  }

  lemma {:induction false} StringLessIrreflexive(a: string)
    ensures !StringLess(a, a)
  {
    if a != [] {
      StringLessIrreflexive(a[1..]);
    }
  }

  lemma {:induction false} StringLessTransitive(a: string, b: string, c: string)
    requires StringLess(a, b) && StringLess(b, c)
    ensures StringLess(a, c)
  {
    if a != [] && a[0] == b[0] && b[0] == c[0] {
      StringLessTransitive(a[1..], b[1..], c[1..]);
    }
  }

  lemma {:induction false} StringLessTotal(a: string, b: string)
    ensures a == b || StringLess(a, b) || StringLess(b, a)
  {
    if a != [] && b != [] && a[0] == b[0] {
      StringLessTotal(a[1..], b[1..]);
      if a[1..] == b[1..] {
        assert a == [a[0]] + a[1..] && b == [b[0]] + b[1..];
      }
    }
  }

  lemma {:induction false} StringLessAsymmetric(a: string, b: string)
    requires StringLess(a, b)
    ensures !StringLess(b, a)
  {
    if a != [] && a[0] == b[0] {
      StringLessAsymmetric(a[1..], b[1..]);
    }
  }

  /** KeyLess is a strict total order: irreflexive, ... */
  lemma {:induction false} KeyLessIrreflexive(x: Key)
    ensures !KeyLess(x, x)
  {
    StringLessIrreflexive(x.metric);
  }

  /** ... transitive, ... */
  lemma {:induction false} KeyLessTransitive(x: Key, y: Key, z: Key)
    requires KeyLess(x, y) && KeyLess(y, z)
    ensures KeyLess(x, z)
  {
    if StringLess(x.metric, y.metric) && StringLess(y.metric, z.metric) {
      StringLessTransitive(x.metric, y.metric, z.metric);
    }
  }

  /** ... and any two different keys are related one way. */
  lemma {:induction false} KeyLessTotal(x: Key, y: Key)
    ensures x == y || KeyLess(x, y) || KeyLess(y, x)
  {
    StringLessTotal(x.metric, y.metric);
  }

  lemma {:induction false} KeyLessAsymmetric(x: Key, y: Key)
    requires KeyLess(x, y)
    ensures !KeyLess(y, x)
  {
    if StringLess(x.metric, y.metric) {
      StringLessAsymmetric(x.metric, y.metric);
    } else {
      StringLessIrreflexive(x.metric);
    }
  }

  /** Not being above a key is the same as being at most that key. */
  lemma {:induction false} KeyNotLess(x: Key, y: Key)
    ensures !KeyLess(y, x) <==> KeyLessEq(x, y)
  {
    KeyLessTotal(x, y);
    if KeyLess(x, y) {
      KeyLessAsymmetric(x, y);
    }
    if x == y {
      KeyLessIrreflexive(x);
    }
  }

  lemma {:induction false} KeyLessEqTransitive(x: Key, y: Key, z: Key)
    requires KeyLessEq(x, y) && KeyLessEq(y, z)
    ensures KeyLessEq(x, z)
  {
    if x != y && y != z {
      KeyLessTransitive(x, y, z);
    }
  }
}
