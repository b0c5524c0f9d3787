/** The deadline traffic light of lib/utils.ts. Timestamps are integer
    milliseconds since the epoch; the clock reading is a parameter. */
module TimeStatus {
  import opened Seqs

  datatype Light = Green | Yellow | Red

  const HourMs: int := 3_600_000
  /** The yellow band: four hours before the target. */
  const WarningMs: int := 4 * HourMs

  /** Green is best, red is worst. */
  function Severity(l: Light): nat {
    match l
    case Green => 0
    case Yellow => 1
    case Red => 2
  }

  /** `getTimeStatus(targetTime, actualTime?)`: the reference instant is the
      completion time when there is one, otherwise `now`. The source divides
      the difference by 3,600,000 and compares the hours with 4 and 0; for
      whole-millisecond differences below 2^53 in magnitude (exact doubles,
      with 4 hours an exact quotient) that is the same as comparing the
      milliseconds with 14,400,000 and 0. */
  function GetTimeStatus(target: int, actual: Option<int>, now: int): (r: Light)
    ensures actual.Some? ==> (r == Green <==> actual.value <= target)
    ensures actual.Some? ==> (r == Red <==> actual.value > target)
    ensures actual.None? && target - now > 14_400_000 ==> r == Green
    ensures actual.None? && 0 < target - now <= 14_400_000 ==> r == Yellow
    ensures actual.None? && target - now <= 0 ==> r == Red
  {
    var reference := if actual.Some? then actual.value else now;
    var remaining := target - reference;
    if actual.Some? && actual.value <= target then Green
    else if remaining > WarningMs then Green
    else if remaining > 0 then Yellow
    else Red
  }

  /** With the target fixed and nothing completed, a later clock reading never
      gives a better light. */
  lemma StatusWorsensOverTime(target: int, now1: int, now2: int)
    requires now1 <= now2
    ensures Severity(GetTimeStatus(target, None, now1)) <= Severity(GetTimeStatus(target, None, now2))
  {
  }

  /** A completed item's light never depends on the clock. */
  lemma CompletedIgnoresClock(target: int, actual: int, now1: int, now2: int)
    ensures GetTimeStatus(target, Some(actual), now1) == GetTimeStatus(target, Some(actual), now2)
  {
  }
}
