/** The time helpers of utils.ts, with the clock passed in as milliseconds. */
module Utils {
  import opened LnsTypes

  /** `Math.ceil(ms / 1000)`: the clock in whole seconds, rounded up. */
  function CeilSeconds(ms: int): (s: int)
    ensures 1000 * (s - 1) < ms <= 1000 * s
  {
    (ms + 999) / 1000
  }

  /** The integer formula is Math.ceil of the real quotient: the least integer
      not below ms / 1000. */
  lemma CeilSecondsIsCeiling(ms: int, k: int)
    ensures (ms as real) / 1000.0 <= CeilSeconds(ms) as real < (ms as real) / 1000.0 + 1.0
    ensures (ms as real) / 1000.0 <= k as real ==> CeilSeconds(ms) <= k
  {
    var s := CeilSeconds(ms);
    var x := (ms as real) / 1000.0;
    assert x * 1000.0 == ms as real;
    assert (ms as real) <= 1000.0 * (s as real);
    assert 1000.0 * ((s - 1) as real) < ms as real;
    if x <= k as real {
      assert ms as real <= 1000.0 * (k as real);
      assert ms <= 1000 * k;
      assert 1000 * (s - 1) < 1000 * k;
    }
  }

  lemma CeilSecondsMonotone(ms1: int, ms2: int)
    requires ms1 <= ms2
    ensures CeilSeconds(ms1) <= CeilSeconds(ms2)
  {
    var s1, s2 := CeilSeconds(ms1), CeilSeconds(ms2);
    assert 1000 * (s1 - 1) < 1000 * s2;
  }

  /** `isTTLPassed`: `updatedAt + ttl` is still later than the current second. */
  predicate IsTTLPassed(lnsObject: LNSNode, nowMs: int)
  {
    lnsObject.updatedAt + lnsObject.ttl > CeilSeconds(nowMs)
  }

  /** `isExpired`: adds the absolute `expiry` timestamp to `updatedAt`. */
  predicate IsExpired(lnsObject: LNSNode, nowMs: int)
  {
    lnsObject.updatedAt + lnsObject.expiry > CeilSeconds(nowMs)
  }

  /** Despite its name, `isTTLPassed` holds exactly while the clock is at or before
      the start of the second before `updatedAt + ttl`: it is true BEFORE the TTL
      has elapsed and false from then on. */
  lemma IsTTLPassedBeforeDeadline(lnsObject: LNSNode, nowMs: int)
    ensures IsTTLPassed(lnsObject, nowMs) <==>
            nowMs <= 1000 * (lnsObject.updatedAt + lnsObject.ttl - 1)
  {
    var s := CeilSeconds(nowMs);
    var d := lnsObject.updatedAt + lnsObject.ttl;
    if nowMs <= 1000 * (d - 1) {
      assert 1000 * (s - 1) < 1000 * (d - 1);
    } else {
      assert 1000 * (d - 1) < 1000 * s;
    }
  }

  /** Once `isTTLPassed` is false, it stays false as the clock moves on. */
  lemma IsTTLPassedAntiMonotone(lnsObject: LNSNode, nowMs1: int, nowMs2: int)
    requires nowMs1 <= nowMs2
    requires !IsTTLPassed(lnsObject, nowMs1)
    ensures !IsTTLPassed(lnsObject, nowMs2)
  {
    CeilSecondsMonotone(nowMs1, nowMs2);
  }

  /** `isExpired` does not treat `expiry` as a deadline: a record stamped at a
      positive `updatedAt` whose expiry second has not come yet is reported expired,
      and a record whose expiry second is long gone may still be. */
  lemma IsExpiredIgnoresDeadline(lnsObject: LNSNode, nowMs: int)
    ensures lnsObject.updatedAt > 0 && CeilSeconds(nowMs) <= lnsObject.expiry ==>
            IsExpired(lnsObject, nowMs)
    ensures IsExpired(lnsObject, nowMs) <==>
            nowMs <= 1000 * (lnsObject.updatedAt + lnsObject.expiry - 1)
  {
    var s := CeilSeconds(nowMs);
    var d := lnsObject.updatedAt + lnsObject.expiry;
    if nowMs <= 1000 * (d - 1) {
      assert 1000 * (s - 1) < 1000 * (d - 1);
    } else {
      assert 1000 * (d - 1) < 1000 * s;
    }
  }

  /** The local-time calendar behind JavaScript's Date: the full year of an instant,
      and the instant with its full year replaced (Feb 29 rolling over, time zone). */
  datatype Calendar = Calendar(fullYear: int -> int, withFullYear: (int, int) -> int)

  /** `date.setFullYear(date.getFullYear() + yearsToAdd)` on an instant. */
  function AddYearsMs(cal: Calendar, ms: int, yearsToAdd: int): int
  {
    cal.withFullYear(ms, cal.fullYear(ms) + yearsToAdd)
  }

  /** A JavaScript Date: a mutable instant in milliseconds. */
  class Date {
    var time: int

    constructor (ms: int)
      ensures time == ms
    {
      time := ms;
    }

    method SetFullYear(cal: Calendar, year: int)
      modifies this
      ensures time == cal.withFullYear(old(time), year)
    {
      time := cal.withFullYear(time, year);
    }
  }

  /** `addYears`: shifts a copy of `now`; `now` itself is left as it was. */
  method AddYears(cal: Calendar, now: Date, yearsToAdd: int) returns (date: Date)
    ensures fresh(date)
    ensures date.time == AddYearsMs(cal, now.time, yearsToAdd)
    ensures now.time == old(now.time)
  {
    date := new Date(now.time);
    date.SetFullYear(cal, cal.fullYear(date.time) + yearsToAdd);
  }
}
