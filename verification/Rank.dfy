/** The server rating shared by the failover controller and the restricted-network pool. */
module Rank {

  datatype Metrics = Metrics(delayMs: int, speedMbps: real, stabilityRatio: real, healthSuccesses: nat,
          healthFailures: nat)

  type Rating = Metrics -> real

  /** Rounding half away from zero. */
  function Round(x: real): int {
    if x >= 0.0 then (x + 0.5).Floor else -((-x + 0.5).Floor)
  }

  function Min(a: real, b: real): real {
    if a < b then a else b
  }

  function Latency(m: Metrics): (r: real)
    ensures 0.0 < r <= 1.0
  {
    if m.delayMs > 0 then
      var d := 1.0 + m.delayMs as real / 150.0;
      Reciprocal(d);
      1.0 / d
    else 0.5
  }

  /** `logRatio(x)` stands for log(1 + x) / log(101). */
  function Speed(logRatio: real -> real, m: Metrics): real {
    if m.speedMbps > 0.0 then Min(logRatio(m.speedMbps), 1.0) else 0.5
  }

  function HealthStability(m: Metrics): (r: real)
    ensures 0.0 < r < 1.0
  {
    var up, all := (m.healthSuccesses + 2) as real, (m.healthSuccesses + m.healthFailures + 4) as real;
    ProperFraction(up, all);
    up / all
  }

  function Stability(m: Metrics): (r: real)
    ensures 0.0 < r <= 1.0
  {
    if 0.0 < m.stabilityRatio <= 1.0 then (m.stabilityRatio + HealthStability(m)) / 2.0 else HealthStability(m)
  }

  function Score(logRatio: real -> real, m: Metrics): real {
    var value := Latency(m) * 400.0 + Speed(logRatio, m) * 350.0 + Stability(m) * 250.0;
    Round(value * 100.0) as real / 100.0
  }

  lemma {:induction false} Reciprocal(d: real)
    requires d >= 1.0
    ensures 0.0 < 1.0 / d <= 1.0
  {
    assert (1.0 / d) * d == 1.0;
  }

  lemma {:induction false} ProperFraction(a: real, b: real)
    requires 0.0 < a < b
    ensures 0.0 < a / b < 1.0
  {
    var q := a / b;
    assert q * b == a;
    assert (1.0 - q) * b == b - a;
    SignOfFactor(1.0 - q, b);
    SignOfFactor(q, b);
  }

  lemma {:induction false} SignOfFactor(x: real, y: real)
    requires x * y > 0.0 && y > 0.0
    ensures x > 0.0
  {
  }

  ghost predicate Bounded(rating: Rating) {
    forall m :: 0.0 <= rating(m) <= 1000.0
  }

  /** Whatever the logarithm is, as long as it is not negative, the score lies between 0 and 1000. */
  lemma {:induction false} ScoreIsBounded(logRatio: real -> real, m: Metrics)
    requires m.speedMbps > 0.0 ==> logRatio(m.speedMbps) >= 0.0
    ensures 0.0 <= Score(logRatio, m) <= 1000.0
  {
    var value := Latency(m) * 400.0 + Speed(logRatio, m) * 350.0 + Stability(m) * 250.0;
    assert 0.0 <= Speed(logRatio, m) <= 1.0;
    assert 0.0 <= value <= 1000.0;
    assert 0 <= Round(value * 100.0) <= 100_000;
  }

  /** The score as a rating. */
  function ScoreRating(logRatio: real -> real): Rating {
    (m: Metrics) => Score(logRatio, m)
  }

  lemma {:induction false} ScoreRatingIsBounded(logRatio: real -> real)
    requires forall x :: x > 0.0 ==> logRatio(x) >= 0.0
    ensures Bounded(ScoreRating(logRatio))
  {
    forall m
      ensures 0.0 <= Score(logRatio, m) <= 1000.0
    {
      ScoreIsBounded(logRatio, m);
    }
  }

  // ----- What counts, and how much

  /** The score grows with its parts. */
  lemma {:induction false} ScoreByParts(logRatio: real -> real, a: Metrics, b: Metrics)
    requires Latency(a) <= Latency(b) && Speed(logRatio, a) <= Speed(logRatio, b) && Stability(a) <= Stability(b)
    ensures Score(logRatio, a) <= Score(logRatio, b)
    ensures Latency(a) == Latency(b) && Speed(logRatio, a) == Speed(logRatio, b) && Stability(a) == Stability(b) ==>
              Score(logRatio, a) == Score(logRatio, b)
  {
    hide Latency, Speed, Stability;
    var x := Latency(a) * 400.0 + Speed(logRatio, a) * 350.0 + Stability(a) * 250.0;
    var y := Latency(b) * 400.0 + Speed(logRatio, b) * 350.0 + Stability(b) * 250.0;
    assert x <= y;
    RoundGrows(x * 100.0, y * 100.0);
  }

  lemma {:induction false} RoundGrows(x: real, y: real)
    requires x <= y
    ensures Round(x) <= Round(y)
  {
  }

  lemma {:induction false} ReciprocalFalls(a: real, b: real)
    requires 0.0 < a <= b
    ensures 1.0 / b <= 1.0 / a
  {
    var x, y := 1.0 / a, 1.0 / b;
    assert x * a == 1.0 && y * b == 1.0;
    assert (x - y) * (a * b) == b - a;
    SignOfQuotient(x - y, a * b);
  }

  lemma {:induction false} FractionOrder(a: real, b: real, c: real, d: real)
    requires 0.0 < b && 0.0 < d && a * d <= c * b
    ensures a / b <= c / d
  {
    var x, y := a / b, c / d;
    assert x * b == a && y * d == c;
    assert (y - x) * (b * d) == c * b - a * d;
    SignOfQuotient(y - x, b * d);
  }

  lemma {:induction false} SignOfQuotient(x: real, y: real)
    requires x * y >= 0.0 && y > 0.0
    ensures x >= 0.0
  {
  }

  /** More successes or fewer failures speak for a server. */
  lemma {:induction false} HealthCounts(m: Metrics, better: Metrics)
    requires m.healthSuccesses <= better.healthSuccesses && m.healthFailures >= better.healthFailures
    ensures HealthStability(m) <= HealthStability(better)
  {
    var a, b := m.healthSuccesses + 2, m.healthSuccesses + m.healthFailures + 4;
    var c, d := better.healthSuccesses + 2, better.healthSuccesses + better.healthFailures + 4;
    CrossProduct(m.healthSuccesses, m.healthFailures, better.healthSuccesses, better.healthFailures);
    assert (a * d) as real <= (c * b) as real;
    FractionOrder(a as real, b as real, c as real, d as real);
  }

  lemma {:induction false} CrossProduct(s: nat, f: nat, t: nat, g: nat)
    requires s <= t && g <= f
    ensures (s + 2) * (t + g + 4) <= (t + 2) * (s + f + 4)
  {
    assert (t + 2) * (s + f + 4) - (s + 2) * (t + g + 4) == (t + 2) * (f + 2) - (s + 2) * (g + 2);
    assert (t + 2) * (f + 2) >= (s + 2) * (f + 2) >= (s + 2) * (g + 2);
  }

  /** A server that is no worse in any respect does not score lower: a shorter delay, a higher speed, more successes,
      fewer failures, a higher stability ratio. */
  lemma {:induction false} BetterScoresHigher(logRatio: real -> real, m: Metrics, better: Metrics)
    requires (m.delayMs == better.delayMs) || 0 < better.delayMs <= m.delayMs
    requires m.speedMbps == better.speedMbps
             || (0.0 < m.speedMbps <= better.speedMbps && logRatio(m.speedMbps) <= logRatio(better.speedMbps))
    requires m.healthSuccesses <= better.healthSuccesses && m.healthFailures >= better.healthFailures
    requires m.stabilityRatio == better.stabilityRatio || 0.0 < m.stabilityRatio <= better.stabilityRatio <= 1.0
    ensures Score(logRatio, m) <= Score(logRatio, better)
  {
    HealthCounts(m, better);
    if m.delayMs > 0 {
      assert better.delayMs as real / 150.0 <= m.delayMs as real / 150.0;
      ReciprocalFalls(1.0 + better.delayMs as real / 150.0, 1.0 + m.delayMs as real / 150.0);
    }
    hide HealthStability;
    assert Stability(m) <= Stability(better) && Latency(m) <= Latency(better);
    ScoreByParts(logRatio, m, better);
  }

  /** Missing evidence is neutral: no delay counts as 150 ms, no speed as one half of the scale, an even history as
      none,
      and a stability ratio outside of its range as none. */
  lemma {:induction false} MissingIsNeutral(logRatio: real -> real, m: Metrics, speed: real)
    requires speed > 0.0 && logRatio(speed) == 0.5
    ensures m.delayMs <= 0 ==> Score(logRatio, m) == Score(logRatio, m.(delayMs := 150))
    ensures m.speedMbps <= 0.0 ==> Score(logRatio, m) == Score(logRatio, m.(speedMbps := speed))
    ensures m.stabilityRatio <= 0.0 || m.stabilityRatio > 1.0 ==>
              Score(logRatio, m) == Score(logRatio, m.(stabilityRatio := 0.0))
    ensures m.healthSuccesses == m.healthFailures ==>
              Score(logRatio, m) == Score(logRatio, m.(healthSuccesses := 0, healthFailures := 0))
  {
    assert m.delayMs <= 0 ==> Latency(m) == Latency(m.(delayMs := 150));
    if m.delayMs <= 0 {
      ScoreByParts(logRatio, m, m.(delayMs := 150));
    }
    if m.speedMbps <= 0.0 {
      ScoreByParts(logRatio, m, m.(speedMbps := speed));
    }
    if m.stabilityRatio <= 0.0 || m.stabilityRatio > 1.0 {
      ScoreByParts(logRatio, m, m.(stabilityRatio := 0.0));
    }
    if m.healthSuccesses == m.healthFailures {
      EvenHistory(m);
      EvenHistory(m.(healthSuccesses := 0, healthFailures := 0));
      hide HealthStability;
      ScoreByParts(logRatio, m, m.(healthSuccesses := 0, healthFailures := 0));
    }
  }

  lemma {:induction false} EvenHistory(m: Metrics)
    requires m.healthSuccesses == m.healthFailures
    ensures HealthStability(m) == 0.5
  {
    var up, all := (m.healthSuccesses + 2) as real, (m.healthSuccesses + m.healthFailures + 4) as real;
    assert all == 2.0 * up;
    FractionOrder(up, all, 1.0, 2.0);
    FractionOrder(1.0, 2.0, up, all);
  }

  /** How much each part counts, from a server nothing is known of: 500 points, of which the delay moves 400, the speed
      350 and the stability 250. */
  lemma {:induction false} PartsCount(logRatio: real -> real, speed: real)
    requires speed > 0.0
    ensures var none := Metrics(0, 0.0, 0.0, 0, 0);
            && Score(logRatio, none) == 500.0
            && Score(logRatio, none.(delayMs := 50)) == 600.0 && Score(logRatio, none.(delayMs := 450)) == 400.0
            && (logRatio(speed) >= 1.0 ==> Score(logRatio, none.(speedMbps := speed)) == 675.0)
            && (logRatio(speed) == 0.25 ==> Score(logRatio, none.(speedMbps := speed)) == 412.5)
            && Score(logRatio, none.(stabilityRatio := 1.0)) == 562.5
            && Score(logRatio, none.(healthFailures := 4)) == 437.5
  {
    var none := Metrics(0, 0.0, 0.0, 0, 0);
    EvenHistory(none);
    assert HealthStability(none.(healthFailures := 4)) == 2.0 / 8.0;
    assert Latency(none.(delayMs := 50)) == 0.75 && Latency(none.(delayMs := 450)) == 0.25;
    assert Stability(none.(stabilityRatio := 1.0)) == 0.75;
    hide HealthStability;
    assert Stability(none) == 0.5;
    assert Stability(none.(delayMs := 50)) == 0.5 && Stability(none.(delayMs := 450)) == 0.5;
    assert Stability(none.(speedMbps := speed)) == 0.5;
    hide Stability, Latency;
    Rounded(500.0);
    Rounded(600.0);
    Rounded(400.0);
    Rounded(675.0);
    Rounded(412.5);
    Rounded(562.5);
    Rounded(437.5);
  }

  /** Hundredths are not rounded. */
  lemma {:induction false} Rounded(x: real)
    requires x >= 0.0 && x * 100.0 == (x * 100.0).Floor as real
    ensures Round(x * 100.0) as real / 100.0 == x
  {
    var n := (x * 100.0).Floor;
    FloorOf(n as real + 0.5, n);
  }

  lemma {:induction false} FloorOf(x: real, n: int)
    requires n as real <= x < n as real + 1.0
    ensures x.Floor == n
  {
  }
}
