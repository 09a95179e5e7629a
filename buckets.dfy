/** Timestamps as the job sees them once Spark has read them under UTC, and the
    assignment of an hour of the day to a bucket of a configurable duration. */
module Buckets {

  /** An hour of the day, as `hour(...)` yields it. */
  type Hour = h: int | 0 <= h <= 23

  /** A bucket duration the job accepts: between 1 and 24 hours, both inclusive. */
  type Duration = d: int | 1 <= d <= 24 witness 1

  /** A calendar date as `to_date(...)` yields it, numbered by days since 1970-01-01;
      dates compare chronologically by that number. */
  datatype Date = Date(epochDay: int)

  /** A timestamp reduced to what the job reads of it: its date and its hour. */
  datatype Timestamp = Timestamp(date: Date, hour: Hour)

  /** `floor(hour(Timestamp).divide(d))`: Spark divides in floating point and then
      takes the floor. The division is done here on exact reals; for an hour below
      24 and a duration of at most 24 the rounded quotient has the same floor. */
  function BucketOf(h: Hour, d: Duration): (b: int)
    ensures b * d <= h < b * d + d
    ensures 0 <= b <= 23 / d
  {
    FloorOfQuotient(h, d);
    BucketBound(h, d, h / d);
    ((h as real) / (d as real)).Floor
  }

  /** The floor of the real quotient is Dafny's integer quotient. */
  lemma FloorOfQuotient(h: nat, d: int)
    requires d >= 1
    ensures ((h as real) / (d as real)).Floor == h / d
    ensures (h / d) * d <= h < (h / d) * d + d
  {
    var q, r := h / d, h % d;
    var dr := d as real;
    assert h as real == (q as real) * dr + r as real;
    var f := (r as real) / dr;
    assert 0.0 <= f < 1.0 by {
      FractionBelowOne(r, d);
    }
    assert (h as real) / dr == q as real + f by {
      SplitQuotient(q as real, r as real, dr);
    }
  }

  /** A remainder over its divisor is a fraction in [0, 1). */
  lemma FractionBelowOne(r: int, d: int)
    requires 0 <= r < d
    ensures 0.0 <= (r as real) / (d as real) < 1.0
  {
  }

  /** Dividing q * d + r by d splits into q and r / d. */
  lemma SplitQuotient(q: real, r: real, d: real)
    requires d > 0.0
    ensures (q * d + r) / d == q + r / d
  {
  }

  /** A bucket index whose range of hours contains an hour of the day is at most 23 / d. */
  lemma BucketBound(h: Hour, d: Duration, b: int)
    requires b * d <= h < b * d + d
    ensures 0 <= b <= 23 / d
  {
    FactorBound(0, b, d);
    var m := 23 / d;
    assert m * d <= 23 < m * d + d;
    FactorBound(b, m, d);
  }

  /** The bucket is plain integer division of the hour by the duration. */
  lemma {:induction false} BucketIsIntegerDivision(h: Hour, d: Duration)
    ensures BucketOf(h, d) == h / d
  {
    FloorOfQuotient(h, d);
  }

  /** For a fixed duration, later hours never fall into earlier buckets. */
  lemma {:induction false} BucketMonotone(h1: Hour, h2: Hour, d: Duration)
    requires h1 <= h2
    ensures BucketOf(h1, d) <= BucketOf(h2, d)
  {
    FactorBound(BucketOf(h1, d), BucketOf(h2, d), d);
  }

  /** The hours that share bucket b are exactly those from b * d up to b * d + d - 1. */
  lemma {:induction false} BucketMembers(h: Hour, d: Duration, b: int)
    ensures BucketOf(h, d) == b <==> b * d <= h < b * d + d
  {
    var c := BucketOf(h, d);
    if b * d <= h < b * d + d {
      FactorBound(c, b, d);
      FactorBound(b, c, d);
    }
  }

  /** Every index from 0 to 23 / d is the bucket of some hour, namely its first one. */
  lemma {:induction false} EveryBucketIsUsed(d: Duration, b: int)
    requires 0 <= b <= 23 / d
    ensures b * d <= 23 && BucketOf(b * d, d) == b
  {
    assert b * d <= (23 / d) * d <= 23;
    BucketMembers(b * d, d, b);
  }

  /** A day therefore has 23 / d + 1 buckets, which is 24 / d rounded up. */
  lemma {:induction false} BucketsPerDay(d: Duration)
    ensures 23 / d + 1 == (24 + d - 1) / d
    ensures d == 4 ==> 23 / d + 1 == 6
    ensures d == 6 ==> 23 / d + 1 == 4
  {
    var m := 23 / d;
    assert m * d <= 23 < m * d + d;
    assert (m + 1) * d <= 23 + d < (m + 2) * d;
    DivisionFromBounds(23 + d, d, m + 1);
  }

  /** Integer division is determined by lying between two consecutive multiples. */
  lemma DivisionFromBounds(n: nat, d: int, q: int)
    requires d >= 1
    requires q * d <= n < (q + 1) * d
    ensures n / d == q
  {
    var q' := n / d;
    assert q' * d <= n < q' * d + d;
    FactorBound(q', q, d);
    FactorBound(q, q', d);
  }

  /** Multiplication by a positive factor preserves order. */
  lemma MulMonotone(a: int, b: int, d: int)
    requires a <= b && d >= 0
    ensures a * d <= b * d
  {
    assert b * d - a * d == (b - a) * d;
  }

  /** If a * d lies below the end of the d hours starting at b * d, then a <= b. */
  lemma FactorBound(a: int, b: int, d: int)
    requires d >= 1 && a * d < b * d + d
    ensures a <= b
  {
    if a > b {
      MulMonotone(b + 1, a, d);
    }
  }

  /** With 6-hour buckets, the hours 6 to 11 form bucket 1. */
  lemma {:induction false} SixHourBuckets(h: Hour)
    ensures BucketOf(h, 6) == 1 <==> 6 <= h <= 11
  {
    BucketMembers(h, 6, 1);
  }

  /** A 24-hour duration collapses the whole day into bucket 0. */
  lemma {:induction false} WholeDayBucket(h: Hour)
    ensures BucketOf(h, 24) == 0
  {
    BucketMembers(h, 24, 0);
  }

  /** A 1-hour duration gives every hour its own bucket, numbered by the hour. */
  lemma {:induction false} HourlyBuckets(h: Hour)
    ensures BucketOf(h, 1) == h
  {
    BucketMembers(h, 1, h);
  }
}
