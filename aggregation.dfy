/** Steps 5 and 6 up to the ordering: each record gets its Date and Bucket, and the
    records are grouped by (Metric, Date, Bucket) into average, min and max of Value.
    The grouping is a fold of the records into a map from key to running
    (count, sum, min, max); it is proved against a reference definition that simply
    collects, for a key, the values of the records that have it. */
module Aggregation {
  import opened Buckets
  import opened Keys

  /** A typed input row: Metric, Timestamp, Value. */
  datatype Record = Record(metric: string, timestamp: Timestamp, value: real)

  /** The key a record is grouped under: its metric, the date of its timestamp, and
      the bucket of the hour of its timestamp. */
  function KeyOf(r: Record, d: Duration): (k: Key)
    ensures k.metric == r.metric && k.date == r.timestamp.date
    ensures 0 <= k.bucket <= 23 / d
    ensures k.bucket * d <= r.timestamp.hour < k.bucket * d + d
  {
    Key(r.metric, r.timestamp.date, BucketOf(r.timestamp.hour, d))
  }

  type Count = n: int | n >= 1 witness 1

  /** The running state of one group; a group exists only once a record has been
      seen for it, so its count is at least one. */
  datatype Accumulator = Accumulator(count: Count, sum: real, min: real, max: real)

  /** One output row: Metric, Date, Bucket, Average, Min, Max. */
  datatype Summary = Summary(key: Key, average: real, min: real, max: real)

  /** The accumulator of a group whose first record has value v. */
  function Start(v: real): Accumulator {
    Accumulator(1, v, v, v)
  }

  /** The accumulator of a group after one more record with value v. */
  function Add(a: Accumulator, v: real): Accumulator {
    Accumulator(a.count + 1, a.sum + v, if v < a.min then v else a.min, if v > a.max then v else a.max)
  }

  /** Feeds one record into the map: its group is created or updated, and no other
      group changes. */
  function Ingest(m: map<Key, Accumulator>, r: Record, d: Duration): (m': map<Key, Accumulator>)
    ensures m'.Keys == m.Keys + {KeyOf(r, d)}
    ensures forall k :: k in m && k != KeyOf(r, d) ==> m'[k] == m[k]
  {
    var k := KeyOf(r, d);
    if k in m then m[k := Add(m[k], r.value)] else m[k := Start(r.value)]
  }

  /** The fold of all records, in input order, into the map of groups: there is a
      group for exactly the keys that some record has. */
  function Accumulate(rs: seq<Record>, d: Duration): (m: map<Key, Accumulator>)
    ensures forall k :: k in m <==> HasGroup(rs, k, d)
  {
    if rs == [] then map[]
    else
      HasGroupStep(rs, d);
      Ingest(Accumulate(rs[..|rs| - 1], d), rs[|rs| - 1], d)
  }

  // ---------------------------------------------------------------------------
  // Reference definition of a group

  /** Some record has key k. */
  predicate HasGroup(rs: seq<Record>, k: Key, d: Duration) {
    exists i :: 0 <= i < |rs| && KeyOf(rs[i], d) == k
  }

  /** The values of the records whose key is k, in input order. */
  function ValuesOf(rs: seq<Record>, k: Key, d: Duration): seq<real> {
    if rs == [] then []
    else ValuesOf(rs[..|rs| - 1], k, d) + (if KeyOf(rs[|rs| - 1], d) == k then [rs[|rs| - 1].value] else [])
  }

  function Sum(vs: seq<real>): real {
    if vs == [] then 0.0 else Sum(vs[..|vs| - 1]) + vs[|vs| - 1]
  }

  predicate IsMin(m: real, vs: seq<real>) {
    m in vs && forall v :: v in vs ==> m <= v
  }

  predicate IsMax(m: real, vs: seq<real>) {
    m in vs && forall v :: v in vs ==> v <= m
  }

  /** The accumulator holds the count, sum, minimum and maximum of vs. */
  predicate Summarises(a: Accumulator, vs: seq<real>) {
    a.count == |vs| && a.sum == Sum(vs) && IsMin(a.min, vs) && IsMax(a.max, vs)
  }

  /** The row is the group of its key: that group is not empty, the average is its
      sum over its count, and min and max are its least and greatest values. */
  predicate SummarisesGroup(row: Summary, rs: seq<Record>, d: Duration) {
    var vs := ValuesOf(rs, row.key, d);
    vs != [] && row.average == Sum(vs) / (|vs| as real) && IsMin(row.min, vs) && IsMax(row.max, vs)
  }

  // ---------------------------------------------------------------------------
  // The fold computes the reference groups

  /** A first value makes a group of one. */
  lemma StartSummarises(v: real)
    ensures Summarises(Start(v), [v])
  {
    SumAppend([], v);
  }

  /** Adding a value to an accumulator of vs gives the accumulator of vs + [v]. */
  lemma {:induction false} AddSummarises(a: Accumulator, vs: seq<real>, v: real)
    requires Summarises(a, vs)
    ensures Summarises(Add(a, v), vs + [v])
  {
    SumAppend(vs, v);
  }

  /** Ingesting a record extends its own group by the record's value: if the map held
      the group vs of the record's key (or no group, when vs is empty), it afterwards
      holds the group vs + [value]. */
  lemma {:induction false} IngestExtendsGroup(m: map<Key, Accumulator>, r: Record, d: Duration, vs: seq<real>)
    requires KeyOf(r, d) in m ==> Summarises(m[KeyOf(r, d)], vs)
    requires KeyOf(r, d) !in m ==> vs == []
    ensures Summarises(Ingest(m, r, d)[KeyOf(r, d)], vs + [r.value])
  {
    var k := KeyOf(r, d);
    if k in m {
      AddSummarises(m[k], vs, r.value);
    } else {
      assert vs + [r.value] == [r.value];
      StartSummarises(r.value);
    }
  }

  /** The keys of the records are those of all but the last, plus the last one's. */
  lemma HasGroupStep(rs: seq<Record>, d: Duration)
    requires rs != []
    ensures forall k :: HasGroup(rs, k, d) <==> HasGroup(rs[..|rs| - 1], k, d) || k == KeyOf(rs[|rs| - 1], d)
  {
    var p := rs[..|rs| - 1];
    forall k
      ensures HasGroup(rs, k, d) <==> HasGroup(p, k, d) || k == KeyOf(rs[|rs| - 1], d)
    {
      if HasGroup(p, k, d) {
        var i :| 0 <= i < |p| && KeyOf(p[i], d) == k;
        assert rs[i] == p[i];
      }
      if HasGroup(rs, k, d) && k != KeyOf(rs[|rs| - 1], d) {
        var i :| 0 <= i < |rs| && KeyOf(rs[i], d) == k;
        assert p[i] == rs[i];
      }
    }
  }

  /** A key has a non-empty group exactly when some record has that key. */
  lemma {:induction false} ValuesOfNonEmpty(rs: seq<Record>, k: Key, d: Duration)
    ensures ValuesOf(rs, k, d) != [] <==> HasGroup(rs, k, d)
  {
    if rs != [] {
      var p := rs[..|rs| - 1];
      ValuesOfNonEmpty(p, k, d);
      if HasGroup(p, k, d) {
        var i :| 0 <= i < |p| && KeyOf(p[i], d) == k;
        assert rs[i] == p[i];
      }
      if HasGroup(rs, k, d) && KeyOf(rs[|rs| - 1], d) != k {
        var i :| 0 <= i < |rs| && KeyOf(rs[i], d) == k;
        assert p[i] == rs[i];
      }
    }
  }

  /** Sum of a sequence extended by one value. */
  lemma SumAppend(vs: seq<real>, v: real)
    ensures Sum(vs + [v]) == Sum(vs) + v
  {
    assert (vs + [v])[..|vs|] == vs;
  }

  /** For every key, the accumulator the fold builds summarises exactly the values of
      the records with that key; the fold has a group for a key exactly when that
      group is not empty. */
  lemma {:induction false} AccumulateIsGroupBy(rs: seq<Record>, k: Key, d: Duration)
    ensures k in Accumulate(rs, d) <==> ValuesOf(rs, k, d) != []
    ensures k in Accumulate(rs, d) ==> Summarises(Accumulate(rs, d)[k], ValuesOf(rs, k, d))
  {
    if rs != [] {
      var p, x := rs[..|rs| - 1], rs[|rs| - 1];
      AccumulateIsGroupBy(p, k, d);
      var m, vs := Accumulate(p, d), ValuesOf(p, k, d);
      if KeyOf(x, d) == k {
        assert ValuesOf(rs, k, d) == vs + [x.value];
        IngestExtendsGroup(m, x, d, vs);
      } else {
        assert ValuesOf(rs, k, d) == vs;
      }
    }
  }

  /** The distinct keys of the records, in the order in which they first appear. */
  function GroupKeys(rs: seq<Record>, d: Duration): (ks: seq<Key>)
    ensures forall i, j :: 0 <= i < j < |ks| ==> ks[i] != ks[j]
    ensures forall k :: k in ks <==> HasGroup(rs, k, d)
  {
    if rs == [] then []
    else
      var p := rs[..|rs| - 1];
      var ks := GroupKeys(p, d);
      var k := KeyOf(rs[|rs| - 1], d);
      HasGroupStep(rs, d);
      if k in ks then ks else ks + [k]
  }

  /** With 24-hour buckets, records of the same metric on the same date share one
      group, whatever their hours. */
  lemma {:induction false} WholeDayGroup(r1: Record, r2: Record)
    requires r1.metric == r2.metric && r1.timestamp.date == r2.timestamp.date
    ensures KeyOf(r1, 24) == KeyOf(r2, 24)
  {
    WholeDayBucket(r1.timestamp.hour);
    WholeDayBucket(r2.timestamp.hour);
  }

  /** The average of a group lies between its minimum and its maximum. */
  lemma {:induction false} AverageWithinBounds(row: Summary, rs: seq<Record>, d: Duration)
    requires SummarisesGroup(row, rs, d)
    ensures row.min <= row.average <= row.max
  {
    var vs := ValuesOf(rs, row.key, d);
    AverageOfBounded(vs, row.min, row.max);
  }

  /** The mean of values between lo and hi lies between lo and hi. */
  lemma AverageOfBounded(vs: seq<real>, lo: real, hi: real)
    requires vs != [] && forall v :: v in vs ==> lo <= v <= hi
    ensures lo <= Sum(vs) / (|vs| as real) <= hi
  {
    SumBounds(vs, lo, hi);
    DivisionBounds(Sum(vs), |vs| as real, lo, hi);
  }

  /** A sum of values between lo and hi lies between |vs| * lo and |vs| * hi. */
  lemma {:induction false} SumBounds(vs: seq<real>, lo: real, hi: real)
    requires forall v :: v in vs ==> lo <= v <= hi
    ensures (|vs| as real) * lo <= Sum(vs) <= (|vs| as real) * hi
  {
    if vs != [] {
      var p := vs[..|vs| - 1];
      assert forall v :: v in p ==> v in vs;
      SumBounds(p, lo, hi);
      assert vs[|vs| - 1] in vs;
      assert (|vs| as real) * lo == (|p| as real) * lo + lo;
      assert (|vs| as real) * hi == (|p| as real) * hi + hi;
    }
  }

  /** Bounds on s that are n times lo and n times hi bound s / n by lo and hi. */
  lemma DivisionBounds(s: real, n: real, lo: real, hi: real)
    requires n > 0.0 && n * lo <= s <= n * hi
    ensures lo <= s / n <= hi
  {
    assert s == (s / n) * n;
  }

  /** The output row of key k from its group's accumulator: average is sum / count. */
  function Summarise(k: Key, a: Accumulator): Summary {
    Summary(k, a.sum / (a.count as real), a.min, a.max)
  }

  /** The row made from an accumulator of k's group is the summary of that group. */
  lemma SummariseIsGroupRow(k: Key, a: Accumulator, rs: seq<Record>, d: Duration)
    requires Summarises(a, ValuesOf(rs, k, d))
    ensures SummarisesGroup(Summarise(k, a), rs, d)
  {
  }

  /** `groupBy(Metric, Date, Bucket).agg(avg, min, max)`: one row per distinct key,
      in the order in which the keys first appear. No two rows share a key, each row
      is the summary of its group, and the rows' keys are exactly the records' keys. */
  function GroupBy(rs: seq<Record>, d: Duration): (rows: seq<Summary>)
    ensures forall i, j :: 0 <= i < j < |rows| ==> rows[i].key != rows[j].key
    ensures forall i :: 0 <= i < |rows| ==> SummarisesGroup(rows[i], rs, d)
    ensures forall k :: HasGroup(rs, k, d) <==> exists i :: 0 <= i < |rows| && rows[i].key == k
  {
    var m := Accumulate(rs, d);
    var ks := GroupKeys(rs, d);
    GroupedKeysInMap(rs, d, ks);
    var rows := seq(|ks|, i requires 0 <= i < |ks| => Summarise(ks[i], m[ks[i]]));
    RowsOfGroups(rs, d, ks, rows);
    rows
  }

  lemma RowsOfGroups(rs: seq<Record>, d: Duration, ks: seq<Key>, rows: seq<Summary>)
    requires forall k :: k in ks <==> HasGroup(rs, k, d)
    requires forall k :: k in ks ==> k in Accumulate(rs, d) && Summarises(Accumulate(rs, d)[k], ValuesOf(rs, k, d))
    requires |rows| == |ks| && forall i :: 0 <= i < |ks| ==> rows[i] == Summarise(ks[i], Accumulate(rs, d)[ks[i]])
    ensures forall i :: 0 <= i < |rows| ==> SummarisesGroup(rows[i], rs, d)
    ensures forall k :: HasGroup(rs, k, d) <==> exists i :: 0 <= i < |rows| && rows[i].key == k
  {
    forall i | 0 <= i < |rows| ensures SummarisesGroup(rows[i], rs, d) {
      assert ks[i] in ks;
      SummariseIsGroupRow(ks[i], Accumulate(rs, d)[ks[i]], rs, d);
    }
    forall k | HasGroup(rs, k, d) ensures exists i :: 0 <= i < |rows| && rows[i].key == k {
      var i :| 0 <= i < |ks| && ks[i] == k;
      assert rows[i].key == k;
    }
    forall k | exists i :: 0 <= i < |rows| && rows[i].key == k ensures HasGroup(rs, k, d) {
      var i :| 0 <= i < |rows| && rows[i].key == k;
      assert ks[i] in ks;
    }
  }

  /** Every first-appearance key has an accumulator that summarises its group. */
  lemma GroupedKeysInMap(rs: seq<Record>, d: Duration, ks: seq<Key>)
    requires forall k :: k in ks <==> HasGroup(rs, k, d)
    ensures forall k :: k in ks ==> k in Accumulate(rs, d) && Summarises(Accumulate(rs, d)[k], ValuesOf(rs, k, d))
  {
    forall k | k in ks
      ensures k in Accumulate(rs, d) && Summarises(Accumulate(rs, d)[k], ValuesOf(rs, k, d))
    {
      ValuesOfNonEmpty(rs, k, d);
      AccumulateIsGroupBy(rs, k, d);
    }
  }
}
