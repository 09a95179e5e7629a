# Metrics aggregator: a verified model

The job reads a delimited time-series file with the columns Metric, Timestamp and
Value. It gives each record a Date (the calendar date of its timestamp, read in UTC)
and a Bucket (`floor(hour / d)` for a bucket duration `d` given on the command
line). It then groups the records by (Metric, Date, Bucket), computes the average,
minimum and maximum of Value per group, sorts the groups by (Metric, Date, Bucket)
and writes them out. Before any of that, it checks its five arguments and requires
`1 <= d <= 24`.

This project models that logic as pure functions over typed records:

- `Arguments`: the argument guard, the trimming of the arguments, and the duration
  range check. A run that stops is modelled as a `JobError` value.
- `Buckets`: timestamps as (date, hour) pairs, and bucket assignment. Spark computes
  the bucket as floating-point division followed by `floor`. The model does the same
  on exact reals and proves that the result equals integer division.
- `Keys`: the grouping key and its lexicographic order, proved to be a strict total
  order.
- `Aggregation`: the group-by as a fold of the records into a map from key to a
  running (count, sum, min, max). It is proved equal to a reference definition, the
  list of values of the records that share a key. One row is emitted per key.
- `Ordering`: `orderBy` as a sort, proved sorted and a permutation of its input. On
  distinct keys the result is proved strictly increasing.
- `Job`: the pipeline `Run` and its end-to-end properties.

The class comment and the code disagree in two places, and the model follows the
code. First, step 1 is documented as rejecting missing or blank arguments
(MetricsAggregator.java:29), but each disjunct of the guard reads
`args[i] == null && args[i].trim().isEmpty()`. For a non-null argument the left
operand is already false, so a blank argument is never rejected. For a null argument
the right operand calls `trim()` on null and throws a NullPointerException; the model
reports that as `NullArgument(i)`. So with no null arguments the guard rejects only
arrays shorter than five (`Arguments.GuardRejectsOnlyShortArrays`,
`Arguments.BlankArgumentAccepted`). Second, the comment at line 25 calls a valid
duration "greater than 1", but the check at line 80 accepts 1, as its own message
says (`Arguments.ValidateDuration`).

Values are `real`. The average is `sum / count`, computed once per group after all
records are in, so the bounds on it are exact.

## Model

| member | source | states |
|---|---|---|
| `Arguments.BlankCheck` | src/main/java/org/mausam/poc/aggregator/MetricsAggregator.java:63-67 | a disjunct `args[i] == null && ...` never fires on a non-null argument, and fails with a null dereference on a null one |
| `Arguments.GuardFrom` | src/main/java/org/mausam/poc/aggregator/MetricsAggregator.java:62-67 | the disjuncts, evaluated left to right, never make the guard fire; they pass exactly when the remaining arguments are non-null, and otherwise fail at the first null |
| `Arguments.CheckArguments` | src/main/java/org/mausam/poc/aggregator/MetricsAggregator.java:62-70 | rejects with "insufficient arguments" exactly when fewer than five are given; passes exactly when the first five are non-null, and yields them; otherwise names the first null |
| `Arguments.GuardRejectsOnlyShortArrays` | src/main/java/org/mausam/poc/aggregator/MetricsAggregator.java:62-69 | with no null argument, the job stops at step 1 exactly when fewer than five arguments are given |
| `Arguments.BlankArgumentAccepted` | src/main/java/org/mausam/poc/aggregator/MetricsAggregator.java:62-77 | with five or more non-null arguments, a blank one passes the guard and reaches the configuration as the empty string |
| `Arguments.TrimStart` | src/main/java/org/mausam/poc/aggregator/MetricsAggregator.java:73-77 | the result is a suffix of the input, only removable characters were dropped, and it does not start with one |
| `Arguments.TrimEnd` | src/main/java/org/mausam/poc/aggregator/MetricsAggregator.java:73-77 | the result is a prefix of the input, only removable characters were dropped, and it does not end with one |
| `Arguments.Trim` | src/main/java/org/mausam/poc/aggregator/MetricsAggregator.java:73-77 | `trim()` yields the slice of the input between a blank prefix and a blank suffix; it is empty exactly for blank input, and otherwise starts and ends with a character that `trim` keeps |
| `Arguments.ValidateDuration` | src/main/java/org/mausam/poc/aggregator/MetricsAggregator.java:80-83 | a duration is accepted exactly when `1 <= d <= 24`, and otherwise rejected with that duration |
| `Arguments.Configure` | src/main/java/org/mausam/poc/aggregator/MetricsAggregator.java:62-83 | the run is configured exactly when the guard passes and the parsed duration is in range; the guard's error comes first; the configuration holds the trimmed arguments |
| `Buckets.BucketOf` | src/main/java/org/mausam/poc/aggregator/MetricsAggregator.java:105 | the bucket `floor(h / d)` covers the hour (`b*d <= h < b*d + d`) and lies in `[0, 23 / d]` |
| `Buckets.FloorOfQuotient` | src/main/java/org/mausam/poc/aggregator/MetricsAggregator.java:105 | the floor of the real quotient is the integer quotient |
| `Buckets.BucketIsIntegerDivision` | src/main/java/org/mausam/poc/aggregator/MetricsAggregator.java:105 | bucket assignment is integer division of the hour by the duration |
| `Buckets.BucketMonotone` | src/main/java/org/mausam/poc/aggregator/MetricsAggregator.java:105 | for a fixed duration, the bucket never decreases as the hour grows |
| `Buckets.BucketMembers` | src/main/java/org/mausam/poc/aggregator/MetricsAggregator.java:46-53 | bucket b holds exactly the hours from `b*d` to `b*d + d - 1` |
| `Buckets.EveryBucketIsUsed` | src/main/java/org/mausam/poc/aggregator/MetricsAggregator.java:36-38 | every index from 0 to `23 / d` is the bucket of some hour: bucket ids start at zero with no gaps |
| `Buckets.BucketsPerDay` | src/main/java/org/mausam/poc/aggregator/MetricsAggregator.java:36-38 | a day has `23 / d + 1 = ceil(24 / d)` buckets: 6 for a 4-hour and 4 for a 6-hour duration |
| `Buckets.SixHourBuckets` | src/main/java/org/mausam/poc/aggregator/MetricsAggregator.java:46-53 | with 6-hour buckets, bucket 1 holds exactly the hours 6 to 11 |
| `Buckets.WholeDayBucket` | src/main/java/org/mausam/poc/aggregator/MetricsAggregator.java:105 | with a 24-hour duration every hour is in bucket 0 |
| `Buckets.HourlyBuckets` | src/main/java/org/mausam/poc/aggregator/MetricsAggregator.java:105 | with a 1-hour duration the bucket is the hour |
| `Keys.StringLessIrreflexive` | src/main/java/org/mausam/poc/aggregator/MetricsAggregator.java:110 | no metric name sorts before itself |
| `Keys.StringLessTransitive` | src/main/java/org/mausam/poc/aggregator/MetricsAggregator.java:110 | the order on metric names is transitive |
| `Keys.StringLessTotal` | src/main/java/org/mausam/poc/aggregator/MetricsAggregator.java:110 | any two different metric names are ordered one way or the other |
| `Keys.StringLessAsymmetric` | src/main/java/org/mausam/poc/aggregator/MetricsAggregator.java:110 | two metric names are never ordered both ways |
| `Keys.KeyLessIrreflexive` | src/main/java/org/mausam/poc/aggregator/MetricsAggregator.java:110 | the (Metric, Date, Bucket) order is irreflexive |
| `Keys.KeyLessTransitive` | src/main/java/org/mausam/poc/aggregator/MetricsAggregator.java:110 | the (Metric, Date, Bucket) order is transitive |
| `Keys.KeyLessTotal` | src/main/java/org/mausam/poc/aggregator/MetricsAggregator.java:110 | any two different keys are ordered one way or the other |
| `Keys.KeyLessAsymmetric` | src/main/java/org/mausam/poc/aggregator/MetricsAggregator.java:110 | two keys are never ordered both ways |
| `Keys.KeyNotLess` | src/main/java/org/mausam/poc/aggregator/MetricsAggregator.java:110 | "not after" is the same as "before or equal" for keys |
| `Keys.KeyLessEqTransitive` | src/main/java/org/mausam/poc/aggregator/MetricsAggregator.java:110 | "before or equal" on keys is transitive |
| `Aggregation.KeyOf` | src/main/java/org/mausam/poc/aggregator/MetricsAggregator.java:104-108 | a record's key has its metric and date, and a bucket in `[0, 23 / d]` that covers its hour |
| `Aggregation.Ingest` | src/main/java/org/mausam/poc/aggregator/MetricsAggregator.java:108-109 | one record adds its own key to the groups and leaves every other group unchanged |
| `Aggregation.StartSummarises` | src/main/java/org/mausam/poc/aggregator/MetricsAggregator.java:109 | a group's first value gives count 1 and that value as sum, min and max |
| `Aggregation.AddSummarises` | src/main/java/org/mausam/poc/aggregator/MetricsAggregator.java:109 | adding a value to the accumulator of a group of values gives the count, sum, min and max of the group extended by that value |
| `Aggregation.IngestExtendsGroup` | src/main/java/org/mausam/poc/aggregator/MetricsAggregator.java:108-109 | ingesting a record turns the accumulator of its key's group (or no accumulator, for an empty group) into the accumulator of that group extended by the record's value |
| `Aggregation.Accumulate` | src/main/java/org/mausam/poc/aggregator/MetricsAggregator.java:108-109 | the fold of all records has a group for exactly the keys that some record has |
| `Aggregation.ValuesOfNonEmpty` | src/main/java/org/mausam/poc/aggregator/MetricsAggregator.java:108 | a key has a non-empty group exactly when some record has that key |
| `Aggregation.AccumulateIsGroupBy` | src/main/java/org/mausam/poc/aggregator/MetricsAggregator.java:108-109 | the fold has a group for a key exactly when its reference group is non-empty; the group's count, sum, min and max are those of the values of the records with that key |
| `Aggregation.GroupKeys` | src/main/java/org/mausam/poc/aggregator/MetricsAggregator.java:108 | the distinct keys of the records: pairwise different, and exactly the keys that some record has |
| `Aggregation.HasGroupStep` | src/main/java/org/mausam/poc/aggregator/MetricsAggregator.java:108 | the keys of the records are those of all but the last record, plus the last record's key |
| `Aggregation.WholeDayGroup` | src/main/java/org/mausam/poc/aggregator/MetricsAggregator.java:105-108 | with 24-hour buckets, records with the same metric and date share one group whatever their hours |
| `Aggregation.SumBounds` | src/main/java/org/mausam/poc/aggregator/MetricsAggregator.java:109 | a sum of n values between lo and hi lies between `n * lo` and `n * hi` |
| `Aggregation.AverageOfBounded` | src/main/java/org/mausam/poc/aggregator/MetricsAggregator.java:109 | the mean of values between lo and hi lies between lo and hi |
| `Aggregation.AverageWithinBounds` | src/main/java/org/mausam/poc/aggregator/MetricsAggregator.java:109 | for a row that summarises its group, `min <= average <= max` |
| `Aggregation.SummariseIsGroupRow` | src/main/java/org/mausam/poc/aggregator/MetricsAggregator.java:109 | the row made from the accumulator of a key's group, with average sum / count, is the summary of that group |
| `Aggregation.GroupBy` | src/main/java/org/mausam/poc/aggregator/MetricsAggregator.java:108-109 | one row per key, no key twice; each row's average is sum/count of its group and its min and max are the group's least and greatest values; the row keys are exactly the record keys |
| `Ordering.Insert` | src/main/java/org/mausam/poc/aggregator/MetricsAggregator.java:110 | inserting into sorted rows keeps them sorted and adds exactly the one row |
| `Ordering.InsertHeadBelow` | src/main/java/org/mausam/poc/aggregator/MetricsAggregator.java:110 | a row below the inserted row and below all others stays in front and keeps the rows sorted |
| `Ordering.OrderBy` | src/main/java/org/mausam/poc/aggregator/MetricsAggregator.java:110 | the output is sorted ascending by (Metric, Date, Bucket) and is a permutation of the input |
| `Ordering.InsertStrict` | src/main/java/org/mausam/poc/aggregator/MetricsAggregator.java:110 | inserting a row with a new key keeps strictly increasing rows strictly increasing |
| `Ordering.SameKeyInInsert` | src/main/java/org/mausam/poc/aggregator/MetricsAggregator.java:110 | after inserting a row with a new key into rows with distinct keys, no two positions share a key |
| `Ordering.OrderByStrict` | src/main/java/org/mausam/poc/aggregator/MetricsAggregator.java:110 | sorting rows with distinct keys gives strictly increasing keys |
| `Ordering.StrictlyIncreasingDistinct` | src/main/java/org/mausam/poc/aggregator/MetricsAggregator.java:108-110 | in strictly increasing output no two rows share a key |
| `Job.Aggregate` | src/main/java/org/mausam/poc/aggregator/MetricsAggregator.java:104-110 | the output is strictly increasing by key; every row summarises its group with `min <= average <= max`; the output keys are exactly the keys of the records |
| `Job.SameRows` | src/main/java/org/mausam/poc/aggregator/MetricsAggregator.java:110 | reordering the grouped rows keeps each row a group summary and keeps the set of keys |
| `Job.RecordInItsGroup` | src/main/java/org/mausam/poc/aggregator/MetricsAggregator.java:108-109 | each record's value is among the values of its key's group |
| `Job.RowOfRecord` | src/main/java/org/mausam/poc/aggregator/MetricsAggregator.java:108-110 | in any rows with the guarantees of the aggregate, each record has exactly one row, the one of its key, and lies between its min and max |
| `Job.EveryRecordInOneGroup` | src/main/java/org/mausam/poc/aggregator/MetricsAggregator.java:108-109 | each input record falls into exactly one output row, the one with its key, and lies between that row's min and max |
| `Job.EmptyInput` | src/main/java/org/mausam/poc/aggregator/MetricsAggregator.java:104-110 | no records give no output rows, and no error |
| `Job.Run` | src/main/java/org/mausam/poc/aggregator/MetricsAggregator.java:60-110 | the job fails exactly when the configuration is rejected, with that error; otherwise it outputs the aggregate under the configured duration |
| `Job.RejectionIgnoresRecords` | src/main/java/org/mausam/poc/aggregator/MetricsAggregator.java:62-83 | a rejected configuration stops the job before any record matters: the outcome is the same for every input |
| `Job.DurationZeroOrTwentyFive` | src/main/java/org/mausam/poc/aggregator/MetricsAggregator.java:80-83 | durations 0 and 25 are rejected with a duration error whatever the records |
| `Job.SingleGroup` | src/main/java/org/mausam/poc/aggregator/MetricsAggregator.java:108-109 | records with a single key group into the one row made from that key's accumulator |
| `Job.ScenarioTwoReadings` | src/main/java/org/mausam/poc/aggregator/MetricsAggregator.java:104-110 | CPU readings 10 and 20 at 02:00 and 03:00 on one day, with 4-hour buckets, give the single row (CPU, that day, 0, 15, 10, 20) |

## Left out

- The Spark session (builder, `local[*]` master, UTC time-zone setting, close): runtime plumbing. Its parallelism is the engine's concern. The UTC reading is assumed: timestamps arrive as (date, hour) pairs.
- CSV reading with header and schema inference, and CSV writing with overwrite: file I/O through a library. The model starts from typed records and ends with the ordered rows.
- Console messages and `System.exit(-1)`: termination is the `Failure` of `JobError`.
- `Integer.valueOf` on the fourth argument, and its `NumberFormatException`: the parse is the function parameter `parse` of `Configure` and `Run`.
- Parsing the timestamp text, `to_date` and `hour`: a timestamp is an abstract (date, hour) pair, with the date numbered by days since 1970-01-01.
- Malformed rows and null fields. The source has no policy of its own, and Spark's null handling is library behaviour. Skipping and counting bad rows is not something the source does, so it is not modelled.
- A `combine` of two partial accumulators is not in the source, which leaves partial aggregation to Spark. It is not modelled.
- Floating-point rounding of the division in `floor(hour / d)`, of the sum and of `avg`: values are exact reals. For the bucket this loses nothing, because the floor of the rounded quotient of two integers below 25 equals the exact floor.
- Spark does not fix the order of `groupBy`'s output. The model emits groups in order of first appearance. After `orderBy` the order is fixed anyway, because keys are unique and the output is strictly increasing.
- Spark's sort algorithm is not visible, so `Ordering.OrderBy` uses an insertion sort in its place. The properties proved (sorted, and a permutation) are all that `orderBy` promises.
- Metric names compare by code point. For valid strings this agrees with Spark's byte-wise UTF-8 comparison.
