/** Colour temperature of a dimmer: kelvin outside, a level between two mired values inside. */
module ColorTemp {
  import opened Wrappers
  import opened LevelCodec

  const MAX_KELVIN := 1_000_000
  const MAX_MIREDS := 500
  const MIN_MIREDS := 153

  /** The level `turn_on` sends for a temperature in kelvin. */
  function LevelOf(kelvin: nat): real
    requires kelvin > 0
  {
    (MAX_MIREDS - MAX_KELVIN / kelvin) as real / (MAX_MIREDS - MIN_MIREDS) as real
  }

  /** The mireds a level stands for; no level counts as 0. */
  function MiredsOf(level: Option<real>): int {
    var l := match level case None => 0.0 case Some(x) => x;
    Truncate(MAX_MIREDS as real - (MAX_MIREDS - MIN_MIREDS) as real * l)
  }

  /** `color_temp_kelvin` */
  function KelvinOf(level: Option<real>): int
    requires MiredsOf(level) > 0
  {
    MAX_KELVIN / MiredsOf(level)
  }

  lemma QuotientBounds(n: nat, d: nat)
    requires d > 0
    ensures n / d * d <= n < (n / d + 1) * d
  {
  }

  lemma QuotientIs(n: nat, d: nat, q: nat)
    requires d > 0 && q * d <= n < (q + 1) * d
    ensures n / d == q
  {
    QuotientBounds(n, d);
    var r := n / d;
    if r < q {
      Monotone(r + 1, q, d);
    } else if r > q {
      Monotone(q + 1, r, d);
    }
  }

  lemma Monotone(a: nat, b: nat, d: nat)
    requires a <= b
    ensures a * d <= b * d
  {
  }

  /** Reading back what was set loses nothing but the rounding of the mireds: the level decodes to the mireds it was
      made from. */
  lemma MiredsRoundTrip(kelvin: nat)
    requires kelvin > 0 && MAX_KELVIN / kelvin <= MAX_MIREDS
    ensures MiredsOf(Some(LevelOf(kelvin))) == MAX_KELVIN / kelvin
  {
    var m := MAX_KELVIN / kelvin;
    assert 347.0 * ((MAX_MIREDS - m) as real / 347.0) == (MAX_MIREDS - m) as real;
    assert MAX_MIREDS as real - (MAX_MIREDS - m) as real == m as real;
  }

  /** Setting k and reading back gives k' with 0 <= k' - k <= 42, and setting k' reads back k' again. */
  lemma KelvinRoundTrip(kelvin: nat)
    requires kelvin > 0 && MIN_MIREDS <= MAX_KELVIN / kelvin <= MAX_MIREDS
    ensures MiredsOf(Some(LevelOf(kelvin))) > 0
    ensures var back := KelvinOf(Some(LevelOf(kelvin)));
      && 0 <= back - kelvin <= 42
      && MiredsOf(Some(LevelOf(back))) == MiredsOf(Some(LevelOf(kelvin)))
      && KelvinOf(Some(LevelOf(back))) == back
  {
    hide LevelOf, MiredsOf;
    var m := MAX_KELVIN / kelvin;
    var back := MAX_KELVIN / m;
    MiredsRoundTrip(kelvin);
    BackBounds(kelvin, m, back);
    MiredsRoundTrip(back);
  }

  lemma DeltaBound(m: nat, kelvin: nat, delta: nat)
    requires m >= MIN_MIREDS && m * kelvin <= MAX_KELVIN && m * delta < kelvin
    ensures delta <= 42
  {
    var square := MIN_MIREDS * MIN_MIREDS;
    Monotone(MIN_MIREDS, m, MIN_MIREDS);
    Monotone(MIN_MIREDS, m, m);
    assert square <= m * m;
    Monotone(m * delta, kelvin, m);
    Monotone(square, m * m, delta);
    assert m * m * delta == m * delta * m;
  }

  lemma BackBounds(kelvin: nat, m: nat, back: nat)
    requires kelvin > 0 && m == MAX_KELVIN / kelvin && MIN_MIREDS <= m && back == MAX_KELVIN / m
    ensures kelvin <= back <= kelvin + 42 && MAX_KELVIN / back == m
  {
    QuotientBounds(MAX_KELVIN, kelvin);
    QuotientBounds(MAX_KELVIN, m);
    assert m * kelvin <= MAX_KELVIN < m * kelvin + kelvin;
    assert m * back <= MAX_KELVIN < m * back + m;
    if back < kelvin {
      Monotone(back + 1, kelvin, m);
    }
    assert m * (back - kelvin) < kelvin;
    DeltaBound(m, kelvin, back - kelvin);
    Monotone(kelvin, back, m + 1);
    QuotientIs(MAX_KELVIN, back, m);
  }

  /** The levels sent for temperatures within the limits lie between 0 and 1: 0 at 2000 kelvin, 1 at 6535 kelvin, and
      never less for a higher temperature. */
  lemma LevelsSent(kelvin: nat, higher: nat)
    requires 0 < kelvin <= higher && 153 <= 1_000_000 / higher && 1_000_000 / kelvin <= 500
    ensures 0.0 <= LevelOf(kelvin) <= LevelOf(higher) <= 1.0
    ensures LevelOf(2000) == 0.0 && LevelOf(6535) == 1.0
  {
    var low, high := MAX_KELVIN / higher, MAX_KELVIN / kelvin;
    QuotientBounds(MAX_KELVIN, higher);
    QuotientBounds(MAX_KELVIN, kelvin);
    if low > high {
      Monotone(high + 1, low, kelvin);
      Monotone(kelvin, higher, low);
    }
    Quotients(500 - high, 500 - low);
  }

  lemma Quotients(a: nat, b: nat)
    requires a <= b <= 347
    ensures 0.0 <= a as real / 347.0 <= b as real / 347.0 <= 1.0
  {
  }

  /** A light that is off, or reports no level, counts as 2000 kelvin; at full level it is 6535 kelvin. */
  lemma KelvinRead()
    ensures MiredsOf(None) == MiredsOf(Some(0.0)) == 500 && KelvinOf(None) == KelvinOf(Some(0.0)) == 2000
    ensures MiredsOf(Some(1.0)) == 153 && KelvinOf(Some(1.0)) == 6535
  {
  }
}
