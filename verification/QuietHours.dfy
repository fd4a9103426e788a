/** Quiet hours, in minutes of the day: when a delayed notification is sent. */
module QuietHours {
  const DAY: int := 24 * 60

  predicate IsWithinQuietHours(current: int, start: int, end: int) {
    if start == end then false
    else if start < end then start <= current < end
    else current >= start || current < end
  }

  /** Minutes from now to the scheduled end. */
  function MinutesUntilEnd(current: int, end: int): int {
    var until := end - current;
    if until <= 0 then until + DAY else until
  }

  function After(current: int, minutes: nat): (m: int)
    ensures 0 <= m < 1440
  {
    (current + minutes) % DAY
  }

  /** Quiet hours are the minutes met walking round the clock from the start, short of the end. */
  predicate OnTheWay(current: int, start: int, end: int) {
    exists k | 0 <= k < (end - start) % DAY :: After(start, k) == current
  }

  lemma QuietIffOnTheWay(current: int, start: int, end: int)
    requires 0 <= current < 1440 && 0 <= start < 1440 && 0 <= end < 1440
    ensures IsWithinQuietHours(current, start, end) <==> OnTheWay(current, start, end)
  {
    if IsWithinQuietHours(current, start, end) {
      var k := (current - start) % DAY;
      assert After(start, k) == current;
    }
  }

  predicate Earliest(current: int, start: int, end: int, delay: int) {
    && 1 <= delay <= DAY
    && !IsWithinQuietHours(After(current, delay), start, end)
    && forall k | 0 <= k < delay :: IsWithinQuietHours(After(current, k), start, end)
  }

  /** A notification is delayed to the earliest minute that is not quiet, and, being delayed at all,
      only when the present minute is quiet: outside quiet hours the delay is never the earliest. */
  lemma DelayIsEarliestIff(current: int, start: int, end: int)
    requires 0 <= current < 1440 && 0 <= start < 1440 && 0 <= end < 1440
    ensures 1 <= MinutesUntilEnd(current, end) <= 1440 && (current + MinutesUntilEnd(current, end)) % 1440 == end
    ensures Earliest(current, start, end, MinutesUntilEnd(current, end)) <==> IsWithinQuietHours(current, start, end)
  {
    var delay := MinutesUntilEnd(current, end);
    assert After(current, 0) == current;
    if IsWithinQuietHours(current, start, end) {
      assert After(current, delay) == end;
      forall k | 0 <= k < delay ensures IsWithinQuietHours(After(current, k), start, end) {
        assert After(current, k) == if current + k < DAY then current + k else current + k - DAY;
      }
    }
  }
}
