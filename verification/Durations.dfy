/** `time.Duration` arithmetic in wrapping 64-bit integers: where the conversions between days,
    seconds and nanoseconds are exact. */
module Durations {

  const TWO_63: int := 0x8000_0000_0000_0000
  const TWO_64: int := 0x1_0000_0000_0000_0000
  const SECOND: int := 1_000_000_000
  const HOUR: int := 3_600_000_000_000
  const DAY: int := 86_400_000_000_000

  /** The last day count and the last second count whose nanoseconds fit. */
  const MAX_DAYS: int := 106_751
  const MAX_SECONDS: int := 9_223_372_036

  predicate Int64(x: int) {
    -TWO_63 <= x < TWO_63
  }

  /** What a 64-bit operation leaves of an exact result. */
  function Wrap(x: int): (w: int)
    ensures Int64(w)
    ensures Int64(x) ==> w == x
  {
    (x + TWO_63) % TWO_64 - TWO_63
  }

  /** Go's `/` truncates toward zero. */
  function Quotient(a: int, b: int): int
    requires b > 0
  {
    if a >= 0 then a / b else -(-a / b)
  }

  /** `-time.Duration(days) * 24 * time.Hour`, each operation in 64 bits. */
  function PruneOffset(days: int): int {
    Wrap(Wrap(Wrap(-days) * 24) * HOUR)
  }

  /** `time.Duration(seconds) * time.Second`. */
  function FromSeconds(seconds: int): int {
    Wrap(seconds * SECOND)
  }

  /** `int(d / time.Second)`. */
  function ToSeconds(d: int): int {
    Quotient(d, SECOND)
  }

  /** The prune cutoff lies exactly `days` days before now if and only if the day count fits:
      the bound is the caller's to check, and the first day count beyond it already fails. */
  lemma PruneOffsetExact(days: int)
    requires 0 < days && Int64(days)
    ensures PruneOffset(days) == -(days * DAY) <==> days <= MAX_DAYS
  {
    if days <= MAX_DAYS {
      assert Wrap(-days) * 24 * HOUR == -(days * DAY);
    } else {
      assert !Int64(-(days * DAY));
    }
  }

  /** Within the bound, asking for more days never moves the cutoff closer. */
  lemma PruneOffsetMonotone(days: int, more: int)
    requires 0 < days <= more <= MAX_DAYS
    ensures PruneOffset(more) <= PruneOffset(days) < 0
  {
    PruneOffsetExact(days);
    PruneOffsetExact(more);
  }

  /** One day past the bound the cutoff lies in the future, so a prune would take everything. */
  lemma PruneOffsetWraps()
    ensures PruneOffset(MAX_DAYS + 1) > 0
  {
    assert Wrap(-(MAX_DAYS + 1)) == -106_752;
    assert -106_752 * 24 * HOUR == -9_223_372_800_000_000_000;
    assert (-9_223_372_800_000_000_000 + TWO_63) % TWO_64 == -9_223_372_800_000_000_000 + TWO_63 + TWO_64;
  }

  /** Seconds survive the trip through a duration if and only if their nanoseconds fit. */
  lemma SecondsRoundTrip(seconds: int)
    requires Int64(seconds)
    ensures ToSeconds(FromSeconds(seconds)) == seconds <==> -MAX_SECONDS <= seconds <= MAX_SECONDS
  {
    if -MAX_SECONDS <= seconds <= MAX_SECONDS {
      assert FromSeconds(seconds) == seconds * SECOND;
      MultipleOfSecond(seconds);
    } else {
      QuotientBound(FromSeconds(seconds));
    }
  }

  lemma MultipleOfSecond(seconds: int)
    ensures ToSeconds(seconds * SECOND) == seconds
  {
    if seconds < 0 {
      assert -(seconds * SECOND) == (-seconds) * SECOND;
      assert ((-seconds) * SECOND) / SECOND == -seconds;
    } else {
      assert (seconds * SECOND) / SECOND == seconds;
    }
  }

  lemma QuotientBound(d: int)
    requires Int64(d)
    ensures -MAX_SECONDS <= ToSeconds(d) <= MAX_SECONDS
  {
  }

  /** A duration survives the trip through seconds if and only if it is a whole number of them. */
  lemma WholeSeconds(d: int)
    requires Int64(d)
    ensures FromSeconds(ToSeconds(d)) == d <==> d % SECOND == 0
  {
    QuotientBound(d);
    var q := ToSeconds(d);
    assert FromSeconds(q) == q * SECOND;
    if d % SECOND == 0 {
      MultipleOfSecond(d / SECOND);
      assert d == (d / SECOND) * SECOND;
    }
  }
}
