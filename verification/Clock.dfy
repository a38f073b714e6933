/** Time stamps and ages. */
module Clock {
  /** Time stamps are whole microseconds; this one stands for "never". */
  const INIT_TIME := 0

  const SECOND := 1_000_000
  const DAY := 86_400 * SECOND

  /** `(now - then).seconds`: whole days are dropped, also from a negative difference. */
  function AgeSeconds(now: int, then_: int): (s: nat)
    ensures s < 86_400
  {
    ((now - then_) / SECOND) % 86_400
  }

  /** `changed_within_seconds` */
  predicate ChangedWithin(lastChange: int, now: int, maxAge: nat) {
    lastChange != INIT_TIME && AgeSeconds(now, lastChange) < maxAge
  }

  /** What counts as recent: being less than `maxAge` beyond a number of whole days. */
  lemma RecentIff(then_: int, now: int, maxAge: nat)
    requires INIT_TIME < then_ <= now && maxAge <= 86_400
    ensures ChangedWithin(then_, now, maxAge) <==>
      exists days: nat :: days * DAY <= now - then_ < days * DAY + maxAge * SECOND
  {
    var days: nat, s := (now - then_) / DAY, AgeSeconds(now, then_);
    assert days * DAY + s * SECOND <= now - then_ < days * DAY + (s + 1) * SECOND;
    if d: nat :| d * DAY <= now - then_ < d * DAY + maxAge * SECOND {
      SameDays(d, days, now - then_);
    }
  }

  lemma SameDays(d: nat, e: nat, age: nat)
    requires d * DAY <= age < (d + 1) * DAY && e * DAY <= age < (e + 1) * DAY
    ensures d == e
  {
  }

  /** Within a day the dropped days do not show. */
  lemma WithinADay(now: int, then_: int, maxAge: nat)
    requires then_ <= now < then_ + DAY && then_ != INIT_TIME
    ensures ChangedWithin(then_, now, maxAge) <==> now - then_ < maxAge * SECOND
  {
  }
}
