/** GoTime: instants as integer nanoseconds since the Unix epoch, with the parts of Go's
    `time` and integer arithmetic that place an event in a bucket. */
module GoTime {
  type Pos = n: int | n > 0 witness 1

  const SECOND: Pos := 1_000_000_000

  /** The zero `time.Time`, January 1 of year 1, which Truncate counts from. */
  const ZERO_TIME: int := -62_135_596_800 * SECOND

  /** It lies 1969 Gregorian years before the Unix epoch. */
  lemma {:induction false} ZeroTimeIsYearOne()
    ensures ZERO_TIME == -(1969 * 365 + 1969 / 4 - 1969 / 100 + 1969 / 400) * 24 * 60 * 60 * 1_000_000_000
  {
  }

  /** `Time.Truncate`: down to a multiple of `d` since the zero time, also before it. */
  function Truncate(t: int, d: Pos): int {
    t - (t - ZERO_TIME) % d
  }

  /** `Time.Unix`: whole seconds, rounded down. */
  function Unix(t: int): int {
    t / SECOND
  }

  function BucketSecond(t: int, size: Pos): int {
    Unix(Truncate(t, size))
  }

  lemma {:induction false} MultipleAtLeast(d: Pos, k: Pos)
    ensures d * k >= d
    decreases k
  {
    if k == 1 {
    } else {
      MultipleAtLeast(d, k - 1);
      assert d * k == d * (k - 1) + d;
    }
  }

  lemma {:induction false} MultiplesAreOrdered(d: Pos, a: int, b: int)
    ensures a < b ==> d * a + d <= d * b
  {
    if a < b {
      MultipleAtLeast(d, b - a);
      assert d * (b - a) == d * b - d * a;
    }
  }

  lemma {:induction false} TruncateMonotone(s: int, t: int, d: Pos)
    requires s <= t
    ensures Truncate(s, d) <= Truncate(t, d)
  {
    var x, y := s - ZERO_TIME, t - ZERO_TIME;
    assert x == d * (x / d) + x % d && y == d * (y / d) + y % d;
    MultiplesAreOrdered(d, y / d, x / d);
    MultiplesAreOrdered(d, x / d, y / d);
  }

  /** A later instant is never placed in an earlier bucket. */
  lemma {:induction false} BucketSecondMonotone(s: int, t: int, size: Pos)
    requires s <= t
    ensures BucketSecond(s, size) <= BucketSecond(t, size)
  {
    TruncateMonotone(s, t, size);
  }

  /** Truncated instants are the multiples of `d` since the zero time. */
  lemma {:induction false} TruncateIsMultiple(t: int, d: Pos)
    ensures Truncate(t, d) == ZERO_TIME + d * ((t - ZERO_TIME) / d)
  {
    DivisionIdentity(t - ZERO_TIME, d);
  }

  lemma {:induction false} MultipleIsTruncated(d: Pos, k: int)
    ensures Truncate(ZERO_TIME + d * k, d) == ZERO_TIME + d * k
  {
    UniqueRemainder(d * k, d, k, 0);
  }

  /** With one-second buckets the bucket is the instant's own second. */
  lemma {:induction false} OneSecondBuckets(t: int)
    ensures BucketSecond(t, SECOND) == t / SECOND
  {
  }

  /** Go's `%`: the remainder takes the sign of the dividend. */
  function Rem(a: int, b: Pos): int {
    if a >= 0 then a % b else -((-a) % b)
  }

  /** The ring slot of a second: its least non-negative residue, also for seconds before 1970. */
  function BucketIndex(unixSecond: int, bucketCount: Pos): (index: nat)
    ensures index < bucketCount
    ensures index == unixSecond % bucketCount
  {
    var index := Rem(unixSecond, bucketCount);
    assert unixSecond < 0 ==> unixSecond % bucketCount == if index == 0 then 0 else index + bucketCount by {
      if unixSecond < 0 {
        NegatedRemainder(unixSecond, bucketCount);
      }
    }
    if index < 0 then index + bucketCount else index
  }

  lemma {:induction false} NegatedRemainder(a: int, n: Pos)
    requires a < 0
    ensures a % n == if (-a) % n == 0 then 0 else n - (-a) % n
  {
    var k, r := (-a) / n, (-a) % n;
    assert -a == n * k + r;
    var k', r' := if r == 0 then -k else -k - 1, if r == 0 then 0 else n - r;
    assert a == n * k' + r';
    UniqueRemainder(a, n, k', r');
  }

  lemma {:induction false} UniqueRemainder(a: int, n: Pos, k: int, r: int)
    requires a == n * k + r && 0 <= r < n
    ensures a % n == r
  {
    assert a == n * (a / n) + a % n;
    MultiplesAreOrdered(n, k, a / n);
    MultiplesAreOrdered(n, a / n, k);
  }

  /** Two different seconds share a slot only at a distance of a multiple of the ring's length;
      hence any `bucketCount` consecutive seconds have distinct slots. */
  lemma {:induction false} SlotClash(a: int, b: int, n: Pos)
    requires BucketIndex(a, n) == BucketIndex(b, n) && a < b
    ensures b - a >= n
    ensures b - a < 2 * n ==> b == a + n
  {
    DivisionIdentity(a, n);
    DivisionIdentity(b, n);
    SameRemainder(a / n, b / n, a % n, n);
  }

  lemma {:induction false} DivisionIdentity(a: int, n: Pos)
    ensures a == n * (a / n) + a % n
  {
  }

  lemma {:induction false} SameRemainder(i: int, j: int, r: int, n: Pos)
    requires n * i + r < n * j + r
    ensures n * j - n * i >= n
    ensures n * j - n * i < 2 * n ==> n * j == n * i + n
  {
    MultiplesAreOrdered(n, j, i);
    assert i < j;
    MultiplesAreOrdered(n, i, j);
    MultiplesAreOrdered(n, i + 1, j);
    assert n * (i + 1) == n * i + n;
    assert j == i + 1 ==> n * j == n * i + n;
  }
}
