/** The whole job on already-typed records: configure from the arguments, then group,
    aggregate and order. Reading and writing the CSV files, and the Spark session
    around them, are outside the model. */
module Job {
  import opened Results
  import opened Buckets
  import opened Keys
  import opened Arguments
  import opened Aggregation
  import opened Ordering

  /** Steps 5 and 6: the summaries of all groups, ordered by key. The output is
      strictly increasing by (Metric, Date, Bucket), so no key occurs twice; every
      row is the summary of its group, with min <= average <= max; and the output
      keys are exactly the keys of the records. */
  function Aggregate(rs: seq<Record>, d: Duration): (out: seq<Summary>)
    ensures StrictlyIncreasing(out)
    ensures forall i :: 0 <= i < |out| ==> SummarisesGroup(out[i], rs, d)
    ensures forall i :: 0 <= i < |out| ==> out[i].min <= out[i].average <= out[i].max
    ensures forall k :: HasGroup(rs, k, d) <==> exists i :: 0 <= i < |out| && out[i].key == k
  {
    var rows := GroupBy(rs, d);
    var out := OrderBy(rows);
    OrderByStrict(rows);
    SameRows(rows, out, rs, d);
    out
  }

  /** The sorted rows are the grouped rows, so they carry the same facts. */
  lemma SameRows(rows: seq<Summary>, out: seq<Summary>, rs: seq<Record>, d: Duration)
    requires multiset(out) == multiset(rows)
    requires forall i :: 0 <= i < |rows| ==> SummarisesGroup(rows[i], rs, d)
    requires forall k :: HasGroup(rs, k, d) <==> exists i :: 0 <= i < |rows| && rows[i].key == k
    ensures forall i :: 0 <= i < |out| ==> SummarisesGroup(out[i], rs, d)
    ensures forall i :: 0 <= i < |out| ==> out[i].min <= out[i].average <= out[i].max
    ensures forall k :: HasGroup(rs, k, d) <==> exists i :: 0 <= i < |out| && out[i].key == k
  {
    forall i | 0 <= i < |out|
      ensures SummarisesGroup(out[i], rs, d) && out[i].min <= out[i].average <= out[i].max
    {
      assert out[i] in multiset(rows);
      var j :| 0 <= j < |rows| && rows[j] == out[i];
      AverageWithinBounds(out[i], rs, d);
    }
    forall k | HasGroup(rs, k, d) ensures exists i :: 0 <= i < |out| && out[i].key == k {
      var j :| 0 <= j < |rows| && rows[j].key == k;
      assert rows[j] in multiset(out);
      var i :| 0 <= i < |out| && out[i] == rows[j];
    }
    forall k | exists i :: 0 <= i < |out| && out[i].key == k ensures HasGroup(rs, k, d) {
      var i :| 0 <= i < |out| && out[i].key == k;
      assert out[i] in multiset(rows);
      var j :| 0 <= j < |rows| && rows[j] == out[i];
    }
  }

  /** A record's value is one of the values of the group of its key. */
  lemma {:induction false} RecordInItsGroup(rs: seq<Record>, i: nat, d: Duration)
    requires i < |rs|
    ensures rs[i].value in ValuesOf(rs, KeyOf(rs[i], d), d)
  {
    var p := rs[..|rs| - 1];
    if i < |rs| - 1 {
      RecordInItsGroup(p, i, d);
      assert p[i] == rs[i];
    }
  }

  /** Every input record falls into exactly one output row, the one for its key, and
      its value lies between that row's min and max. */
  lemma {:induction false} EveryRecordInOneGroup(rs: seq<Record>, i: nat, d: Duration)
    requires i < |rs|
    ensures var out := Aggregate(rs, d);
      exists j :: 0 <= j < |out| && out[j].key == KeyOf(rs[i], d)
        && out[j].min <= rs[i].value <= out[j].max
        && forall j' :: 0 <= j' < |out| && out[j'].key == KeyOf(rs[i], d) ==> j' == j
  {
    RowOfRecord(Aggregate(rs, d), rs, i, d);
  }

  /** The same, for any rows with the properties that `Aggregate` guarantees. */
  lemma RowOfRecord(out: seq<Summary>, rs: seq<Record>, i: nat, d: Duration)
    requires i < |rs|
    requires StrictlyIncreasing(out)
    requires forall j :: 0 <= j < |out| ==> SummarisesGroup(out[j], rs, d)
    requires forall k :: HasGroup(rs, k, d) <==> exists j :: 0 <= j < |out| && out[j].key == k
    ensures exists j ::
      && 0 <= j < |out| && out[j].key == KeyOf(rs[i], d)
      && out[j].min <= rs[i].value <= out[j].max
      && forall j' :: 0 <= j' < |out| && out[j'].key == KeyOf(rs[i], d) ==> j' == j
  {
    var k := KeyOf(rs[i], d);
    assert HasGroup(rs, k, d);
    var j :| 0 <= j < |out| && out[j].key == k;
    RecordInItsGroup(rs, i, d);
    StrictlyIncreasingDistinct(out);
    assert SummarisesGroup(out[j], rs, d);
  }

  /** No input, no output: grouping nothing gives no rows and no error. */
  lemma {:induction false} EmptyInput(d: Duration)
    ensures Aggregate([], d) == []
  {
    assert GroupBy([], d) == [];
  }

  /** The job: stop with the configuration error if the arguments or the duration are
      rejected, otherwise aggregate the records under the configured duration. */
  function Run(args: seq<Nullable<string>>, parse: string -> int, rs: seq<Record>): (r: Result<seq<Summary>, JobError>)
    ensures r.Failure? <==> Configure(args, parse).Failure?
    ensures r.Failure? ==> r.error == Configure(args, parse).error
    ensures r.Success? ==> r.value == Aggregate(rs, Configure(args, parse).value.bucketHours)
  {
    match Configure(args, parse)
    case Failure(e) => Failure(e)
    case Success(config) => Success(Aggregate(rs, config.bucketHours))
  }

  /** A rejected configuration is decided before any record is looked at: the records
      do not change the outcome. */
  lemma {:induction false} RejectionIgnoresRecords(args: seq<Nullable<string>>, parse: string -> int, rs: seq<Record>, rs': seq<Record>)
    requires Run(args, parse, rs).Failure?
    ensures Run(args, parse, rs') == Run(args, parse, rs)
  {
  }

  /** Durations of 0 or 25 hours are rejected whatever the records. */
  lemma {:induction false} DurationZeroOrTwentyFive(args: seq<Nullable<string>>, parse: string -> int, rs: seq<Record>)
    requires CheckArguments(args).Success?
    requires parse(Trim(args[3].value)) in {0, 25}
    ensures Run(args, parse, rs) == Failure(DurationOutOfRange(parse(Trim(args[3].value))))
  {
  }

  /** Two CPU readings at 02:00 and 03:00 on 2024-01-01 (day 19723) under 4-hour
      buckets form one group, bucket 0, with average 15, min 10 and max 20. */
  lemma ScenarioTwoReadings()
    ensures Aggregate([Record("CPU", Timestamp(Date(19723), 2), 10.0),
                       Record("CPU", Timestamp(Date(19723), 3), 20.0)], 4)
         == [Summary(Key("CPU", Date(19723), 0), 15.0, 10.0, 20.0)]
  {
    var rs := [Record("CPU", Timestamp(Date(19723), 2), 10.0),
               Record("CPU", Timestamp(Date(19723), 3), 20.0)];
    var k := Key("CPU", Date(19723), 0);
    var row := Summary(k, 15.0, 10.0, 20.0);
    TwoReadingsKeys(rs, k);
    TwoReadingsFold(rs, k);
    TwoReadingsRows(rs, k);
    assert OrderBy([row]) == Insert(row, OrderBy([]));
  }

  /** The scenario's grouping: one key and its folded accumulator give the single row
      of average 15, min 10 and max 20. */
  lemma TwoReadingsRows(rs: seq<Record>, k: Key)
    requires GroupKeys(rs, 4) == [k]
    requires Accumulate(rs, 4) == map[k := Accumulator(2, 30.0, 10.0, 20.0)]
    ensures GroupBy(rs, 4) == [Summary(k, 15.0, 10.0, 20.0)]
  {
    SingleGroup(rs, 4, k);
    assert Summarise(k, Accumulator(2, 30.0, 10.0, 20.0)) == Summary(k, 15.0, 10.0, 20.0);
  }

  /** Records whose only key is k group into the single row of k's accumulator. */
  lemma SingleGroup(rs: seq<Record>, d: Duration, k: Key)
    requires GroupKeys(rs, d) == [k] && k in Accumulate(rs, d)
    ensures GroupBy(rs, d) == [Summarise(k, Accumulate(rs, d)[k])]
  {
  }

  /** Both readings of the scenario have key k, which is the only group key. */
  lemma TwoReadingsKeys(rs: seq<Record>, k: Key)
    requires rs == [Record("CPU", Timestamp(Date(19723), 2), 10.0),
                    Record("CPU", Timestamp(Date(19723), 3), 20.0)]
    requires k == Key("CPU", Date(19723), 0)
    ensures KeyOf(rs[0], 4) == k && KeyOf(rs[1], 4) == k
    ensures GroupKeys(rs, 4) == [k]
  {
    BucketMembers(2, 4, 0);
    BucketMembers(3, 4, 0);
    var p := rs[..1];
    assert p == [rs[0]] && p[..0] == [];
    assert GroupKeys(p, 4) == [k];
  }

  /** Folding the two readings gives one accumulator: count 2, sum 30, min 10, max 20. */
  lemma TwoReadingsFold(rs: seq<Record>, k: Key)
    requires |rs| == 2 && rs[0].value == 10.0 && rs[1].value == 20.0
    requires KeyOf(rs[0], 4) == k && KeyOf(rs[1], 4) == k
    ensures Accumulate(rs, 4) == map[k := Accumulator(2, 30.0, 10.0, 20.0)]
  {
    var p := rs[..1];
    assert p == [rs[0]] && p[..0] == [];
    assert Accumulate(p, 4) == Ingest(map[], rs[0], 4) == map[k := Start(10.0)];
    assert Accumulate(rs, 4) == Ingest(map[k := Start(10.0)], rs[1], 4);
  }
}
