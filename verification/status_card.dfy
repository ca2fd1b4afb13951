/** The two helpers of components/RabbitStatusCard.js: how far a phase of
    the reproduction cycle has progressed, and how many days remain until
    a target date.

    A `Date` is reduced to its time value in milliseconds, NaN for an
    invalid date; "now" is a parameter, since the source reads the clock. */
module StatusCard {
  import opened Numbers

  /** The time value of a `Date`: NaN for an invalid one. */
  datatype Time = InvalidTime | At(ms: int)

  /** A JavaScript number that is a ratio: NaN or a real value. */
  datatype Ratio = NaNRatio | Ratio(value: real)

  /** `calculateProgress(startDate, endDate)`: 0 before the start, 1 after
      the end, otherwise the elapsed fraction `(now - start) / (end - start)`.
      Every comparison with an invalid date is false, and a phase whose
      start and end coincide yields 0/0 at that instant, so those cases
      give NaN. */
  function CalculateProgress(start: Time, end: Time, now: int): (r: Ratio)
    ensures start.At? && now < start.ms ==> r == Ratio(0.0)
    ensures !(start.At? && now < start.ms) && end.At? && now > end.ms ==> r == Ratio(1.0)
    ensures start.At? && end.At? && start.ms < end.ms ==> r.Ratio? && 0.0 <= r.value <= 1.0
    ensures start.At? && end.At? && start.ms <= now <= end.ms && start.ms < end.ms ==>
              r.value * (end.ms - start.ms) as real == (now - start.ms) as real
    ensures r.NaNRatio? <==>
              && !(start.At? && now < start.ms) && !(end.At? && now > end.ms)
              && (start.InvalidTime? || end.InvalidTime? || start.ms == end.ms)
  {
    if start.At? && now < start.ms then Ratio(0.0)
    else if end.At? && now > end.ms then Ratio(1.0)
    else if start.InvalidTime? || end.InvalidTime? then NaNRatio
    else
      var total := end.ms - start.ms;
      var current := now - start.ms;
      if total == 0 then NaNRatio
      else
        FractionBounds(current, total);
        Ratio(current as real / total as real)
  }

  /** A part of a whole, divided by the whole, lies between 0 and 1. */
  lemma FractionBounds(part: int, whole: int)
    requires 0 <= part <= whole && whole != 0
    ensures 0.0 <= part as real / whole as real <= 1.0
    ensures (part as real / whole as real) * whole as real == part as real
  {
    var q := part as real / whole as real;
    assert q * whole as real == part as real;
  }

  /** Over a phase that lasts, progress never goes backwards. */
  lemma ProgressMonotone(start: int, end: int, now1: int, now2: int)
    requires start < end && now1 <= now2
    ensures CalculateProgress(At(start), At(end), now1).value <= CalculateProgress(At(start), At(end), now2).value
  {
    var p1 := CalculateProgress(At(start), At(end), now1);
    var p2 := CalculateProgress(At(start), At(end), now2);
    if start <= now1 && now2 <= end {
      var total := (end - start) as real;
      assert p1.value * total == (now1 - start) as real;
      assert p2.value * total == (now2 - start) as real;
      assert (p2.value - p1.value) * total == (now2 - now1) as real;
      NonNegativeFactor(p2.value - p1.value, total);
    }
  }

  lemma NonNegativeFactor(d: real, t: real)
    requires t > 0.0 && d * t >= 0.0
    ensures d >= 0.0
  {
  }

  /** `getDaysRemaining(targetDate)`: `Math.ceil((target - now) / 86400000)`,
      NaN for an invalid target. It is positive exactly when the target is
      still to come. */
  function GetDaysRemaining(target: Time, now: int): (r: Number)
    ensures r.NaN? <==> target.InvalidTime?
    ensures target.At? ==> (r.value > 0 <==> target.ms > now)
    ensures target.At? ==> (r.value - 1) * MsPerDay < target.ms - now <= r.value * MsPerDay
  {
    match target
    case InvalidTime => NaN
    case At(t) => Int(CeilDays(t - now))
  }

  /** A target exactly `k` days away is `k` days away, in either
      direction. */
  lemma WholeDaysRemaining(now: int, k: int)
    ensures GetDaysRemaining(At(now + k * MsPerDay), now) == Int(k)
  {
    var r := GetDaysRemaining(At(now + k * MsPerDay), now).value;
    assert (r - 1) * MsPerDay < k * MsPerDay <= r * MsPerDay;
  }
}
