/** The `time_ago` template filter: how long ago a moment was, as a short
    English phrase. Times are integers in microseconds. */
module TimeAgo {
  import opened Text

  const MicrosPerSecond: int := 1000000
  const SecondsPerDay: int := 86400
  const MicrosPerDay: int := MicrosPerSecond * SecondsPerDay

  /** A `timedelta` as the filter reads it: whole days (negative for a moment
      in the future) and the seconds left over, microseconds dropped. */
  datatype Duration = Duration(days: int, seconds: int)

  /** `now - dt` for a difference of `micros` microseconds: Python keeps
      `seconds` in [0, 86400) and puts the sign in `days`, so both parts
      are floor divisions. Together they count the whole seconds elapsed,
      rounded down. */
  function Elapsed(micros: int): (d: Duration)
    ensures 0 <= d.seconds < SecondsPerDay
    ensures d.days * SecondsPerDay + d.seconds == micros / MicrosPerSecond
  {
    var d := Duration(micros / MicrosPerDay, (micros % MicrosPerDay) / MicrosPerSecond);
    FloorSplit(micros);
    d
  }

  /** Flooring by a day's worth of microseconds is flooring to seconds and
      then to days. */
  lemma FloorSplit(micros: int)
    ensures (micros / MicrosPerDay) * SecondsPerDay + (micros % MicrosPerDay) / MicrosPerSecond == micros / MicrosPerSecond
  {
    var q, r := micros / MicrosPerDay, micros % MicrosPerDay;
    assert micros == q * MicrosPerDay + r && 0 <= r < MicrosPerDay;
    var s, u := r / MicrosPerSecond, r % MicrosPerSecond;
    assert r == s * MicrosPerSecond + u && 0 <= u < MicrosPerSecond;
    assert micros == (q * SecondsPerDay + s) * MicrosPerSecond + u;
    DivUnique(micros, MicrosPerSecond, q * SecondsPerDay + s, u);
  }

  /** Division by a positive divisor is determined by quotient and remainder. */
  lemma DivUnique(a: int, b: int, q: int, u: int)
    requires b > 0 && a == q * b + u && 0 <= u < b
    ensures a / b == q
  {
    var q', u' := a / b, a % b;
    assert (q' - q) * b == u - u' by {
      assert q' * b + u' == q * b + u;
    }
    SmallMultiple(q' - q, b);
  }

  /** The only multiple of `b` strictly between `-b` and `b` is 0. */
  lemma SmallMultiple(k: int, b: int)
    requires b > 0 && -b < k * b < b
    ensures k == 0
  {
  }

  /** `"{n} {unit} ago"`. */
  function Ago(n: int, unit: string): string {
    IntToDecimal(n) + " " + unit + " ago"
  }

  /** `time_ago_filter`, on the difference it computes: years past 365 days,
      months past 30, days past none, hours past 3600 seconds, minutes past
      60 seconds, and "just now" otherwise. */
  function Phrase(d: Duration): string {
    if d.days > 365 then Ago(d.days / 365, "years")
    else if d.days > 30 then Ago(d.days / 30, "months")
    else if d.days > 0 then Ago(d.days, "days")
    else if d.seconds > 3600 then Ago(d.seconds / 3600, "hours")
    else if d.seconds > 60 then Ago(d.seconds / 60, "minutes")
    else "just now"
  }

  /** The filter for a moment `dt` seen at `now` (the clock is a parameter). */
  function TimeAgoFilter(now: int, dt: int): string {
    Phrase(Elapsed(now - dt))
  }

  /** For a moment in the past, the phrase by whole seconds elapsed `s`: each
      unit is `s` floored to that unit (a year being 365 days and a month 30),
      the boundaries lie just above 365 days, 30 days, 1 day, 3600 seconds
      and 60 seconds, and up to a minute is "just now". */
  lemma PastBuckets(now: int, dt: int)
    requires dt <= now
    ensures var s := (now - dt) / MicrosPerSecond;
      var r := TimeAgoFilter(now, dt);
      (s >= 366 * 86400 ==> r == Ago(s / (365 * 86400), "years")) &&
      (31 * 86400 <= s < 366 * 86400 ==> r == Ago(s / (30 * 86400), "months")) &&
      (86400 <= s < 31 * 86400 ==> r == Ago(s / 86400, "days")) &&
      (3600 < s < 86400 ==> r == Ago(s / 3600, "hours")) &&
      (60 < s <= 3600 ==> r == Ago(s / 60, "minutes")) &&
      (s <= 60 ==> r == "just now")
  {
    var d := Elapsed(now - dt);
    var s := (now - dt) / MicrosPerSecond;
    assert s == d.days * 86400 + d.seconds;
    assert d.days == s / 86400 by { DivUnique(s, 86400, d.days, d.seconds); }
    assert d.days >= 0;
    if d.days > 365 {
      NestedFloor(s, 86400, 365);
    } else if d.days > 30 {
      NestedFloor(s, 86400, 30);
    }
  }

  /** Flooring by `a` and then by `b` is flooring by `a * b`. */
  lemma NestedFloor(s: int, a: int, b: int)
    requires s >= 0 && a > 0 && b > 0
    ensures (s / a) / b == s / (a * b)
  {
    var q1, r1 := s / a, s % a;
    var q2, r2 := q1 / b, q1 % b;
    Regroup(q2, b, r2, a);
    assert s == q2 * (a * b) + (r2 * a + r1);
    RemainderBound(r2, b, a);
    DivUnique(s, a * b, q2, r2 * a + r1);
  }

  lemma Regroup(q: int, b: int, r: int, a: int)
    ensures (q * b + r) * a == q * (a * b) + r * a
  {
  }

  lemma RemainderBound(r: int, b: int, a: int)
    requires 0 <= r < b && a > 0
    ensures r * a + a <= a * b
  {
    var k := b - r;
    assert k * a == (k - 1) * a + a;
    assert (k - 1) * a >= 0;
    assert k * a == b * a - r * a;
  }

  /** The hours phrase, for a moment in the past or the future, names
      between 1 and 23 hours. */
  lemma HoursRange(d: Duration)
    requires 0 <= d.seconds < SecondsPerDay && d.days <= 0 && d.seconds > 3600
    ensures Phrase(d) == Ago(d.seconds / 3600, "hours") && 1 <= d.seconds / 3600 <= 23
  {
  }

  /** Exactly an hour ago reads "60 minutes ago": the hours phrase starts
      above 3600 seconds. */
  lemma ExactlyAnHour(now: int)
    ensures TimeAgoFilter(now, now - 3600 * MicrosPerSecond) == "60 minutes ago"
  {
  }

  /** A moment one second in the future reads "23 hours ago": the difference
      is -1 day plus 86399 seconds, and only `days` carries the sign. */
  lemma OneSecondAhead(now: int)
    ensures TimeAgoFilter(now, now + MicrosPerSecond) == "23 hours ago"
  {
    assert Elapsed(-MicrosPerSecond) == Duration(-1, 86399);
    assert NatToDecimal(23) == "23" by {
      assert NatToDecimal(2) == "2" && DigitChar(3) == '3';
    }
  }
}
