/**
 * The scoring helpers of scripts/seed-data.js: `calculateMaxAvailableSpeed`,
 * the 65% realistic estimate, `getSpeedRating` and `calculateRemoteWorkScore`.
 * Numbers are exact reals; `Math.round(x)` is `floor(x + 0.5)`.
 */
module Scoring {

  /** `Math.round`: the nearest integer, halves rounded up. */
  function Round(x: real): (r: int)
    ensures r as real - 0.5 <= x < r as real + 0.5
  {
    (x + 0.5).Floor
  }

  /** `Math.max(0, x)`. */
  function Max0(x: real): real {
    if x < 0.0 then 0.0 else x
  }

  /** The coverage-weighted speed before rounding: each exclusive tier weighted by its speed, no service at 5 and gigabit capped at 500. */
  function WeightedSpeed(s10: real, s25: real, s100: real, s250: real, s1000: real): real {
    Max0(1.0 - s10) * 5.0
    + Max0(s10 - s25) * 10.0
    + Max0(s25 - s100) * 25.0
    + Max0(s100 - s250) * 100.0
    + Max0(s250 - s1000) * 250.0
    + s1000 * 500.0
  }

  /** `calculateMaxAvailableSpeed`: the weighted speed rounded to the nearest multiple of 5. */
  function MaxAvailableSpeed(s10: real, s25: real, s100: real, s250: real, s1000: real): (r: int)
    ensures r % 5 == 0
    ensures r as real - 2.5 <= WeightedSpeed(s10, s25, s100, s250, s1000) < r as real + 2.5
  {
    Round(WeightedSpeed(s10, s25, s100, s250, s1000) / 5.0) * 5
  }

  /** Coverage fractions as the FCC publishes them: each in [0, 1], and a faster tier never covers more than a slower one. */
  predicate NestedCoverage(s10: real, s25: real, s100: real, s250: real, s1000: real) {
    0.0 <= s1000 <= s250 <= s100 <= s25 <= s10 <= 1.0
  }

  /** For nested coverage the weighted speed is an average of the tier speeds, so it lies between 5 and 500. */
  lemma WeightedSpeedBounds(s10: real, s25: real, s100: real, s250: real, s1000: real)
    requires NestedCoverage(s10, s25, s100, s250, s1000)
    ensures 5.0 <= WeightedSpeed(s10, s25, s100, s250, s1000) <= 500.0
  {
    var w := WeightedSpeed(s10, s25, s100, s250, s1000);
    assert w == 5.0 + 5.0 * s10 + 15.0 * s25 + 75.0 * s100 + 150.0 * s250 + 250.0 * s1000;
  }

  /** The published maximum speed lies between 5 and 500 Mbps. */
  lemma MaxAvailableSpeedBounds(s10: real, s25: real, s100: real, s250: real, s1000: real)
    requires NestedCoverage(s10, s25, s100, s250, s1000)
    ensures 5 <= MaxAvailableSpeed(s10, s25, s100, s250, s1000) <= 500
  {
    WeightedSpeedBounds(s10, s25, s100, s250, s1000);
  }

  /** A county with no coverage at all gets the 5 Mbps floor; full gigabit coverage gets 500. */
  lemma MaxAvailableSpeedExtremes()
    ensures MaxAvailableSpeed(0.0, 0.0, 0.0, 0.0, 0.0) == 5
    ensures MaxAvailableSpeed(1.0, 1.0, 1.0, 1.0, 1.0) == 500
  {
    assert WeightedSpeed(0.0, 0.0, 0.0, 0.0, 0.0) == 5.0;
    assert Round(1.0) == 1;
    assert WeightedSpeed(1.0, 1.0, 1.0, 1.0, 1.0) == 500.0;
    assert Round(100.0) == 100;
  }

  /**
   * A mixed county: 100% at 10 Mbps, 80% at 25, 30% at 100, 5% at 250 weighs
   * 52 and publishes 50, which estimates to 33 (32.5 rounded up) and rates Basic.
   */
  lemma MaxAvailableSpeedExample()
    ensures MaxAvailableSpeed(1.0, 0.8, 0.3, 0.05, 0.0) == 50
    ensures EstimatedSpeed(50) == 33 && GetSpeedRating(33) == Basic
  {
    assert WeightedSpeed(1.0, 0.8, 0.3, 0.05, 0.0) == 52.0;
    assert Round(52.0 / 5.0) == 10;
    assert Round(32.5) == 33;
  }

  /** `Math.round(maxAvailableSpeed * 0.65)`: the realistic speed most subscribers get. */
  function EstimatedSpeed(maxAvailableSpeed: int): (r: int)
    ensures r as real - 0.5 <= maxAvailableSpeed as real * 0.65 < r as real + 0.5
  {
    Round(maxAvailableSpeed as real * 0.65)
  }

  /** The estimate never decreases as the maximum grows and stays between 3 and 325 for a published maximum. */
  lemma EstimatedSpeedMonotone(m1: int, m2: int)
    requires m1 <= m2
    ensures EstimatedSpeed(m1) <= EstimatedSpeed(m2)
    ensures 5 <= m1 <= 500 ==> 3 <= EstimatedSpeed(m1) <= 325
  {
    if 5 <= m1 <= 500 {
      assert 3.25 <= m1 as real * 0.65 <= 325.0;
    }
  }

  datatype SpeedRating = Excellent | Good | Moderate | Basic | Poor

  /** `getSpeedRating`: the band the estimated speed falls in, lower bounds inclusive. */
  function GetSpeedRating(mbps: int): (r: SpeedRating)
    ensures r == Excellent <==> 250 <= mbps
    ensures r == Good <==> 100 <= mbps < 250
    ensures r == Moderate <==> 50 <= mbps < 100
    ensures r == Basic <==> 25 <= mbps < 50
    ensures r == Poor <==> mbps < 25
  {
    if mbps >= 250 then Excellent
    else if mbps >= 100 then Good
    else if mbps >= 50 then Moderate
    else if mbps >= 25 then Basic
    else Poor
  }

  /** The bands in order, Poor lowest. */
  function Rank(r: SpeedRating): nat {
    match r
    case Poor => 0
    case Basic => 1
    case Moderate => 2
    case Good => 3
    case Excellent => 4
  }

  /** A faster county never gets a worse rating. */
  lemma SpeedRatingMonotone(a: int, b: int)
    requires a <= b
    ensures Rank(GetSpeedRating(a)) <= Rank(GetSpeedRating(b))
  {
  }

  /** Speed points (0-50) of `calculateRemoteWorkScore`. */
  function SpeedPoints(speed: int): (p: int)
    ensures 0 <= p <= 50
  {
    if speed >= 500 then 50
    else if speed >= 300 then 45
    else if speed >= 200 then 40
    else if speed >= 100 then 30
    else if speed >= 50 then 20
    else if speed >= 25 then 10
    else 0
  }

  /** Cost-of-living points (5-30): cheaper states earn more. */
  function CostPoints(costOfLivingIndex: int): (p: int)
    ensures 5 <= p <= 30
  {
    if costOfLivingIndex <= 82 then 30
    else if costOfLivingIndex <= 90 then 25
    else if costOfLivingIndex <= 98 then 20
    else if costOfLivingIndex <= 110 then 10
    else 5
  }

  /** Rural bonus: 20 for a rural county, a baseline of 5 otherwise. */
  function RuralPoints(ruralStatus: bool): (p: int)
    ensures p == if ruralStatus then 20 else 5
  {
    if ruralStatus then 20 else 5
  }

  /** `calculateRemoteWorkScore({ estimatedSpeed, costOfLivingIndex, ruralStatus })`. */
  function RemoteWorkScore(estimatedSpeed: int, costOfLivingIndex: int, ruralStatus: bool): (r: int)
    ensures 10 <= r <= 100
    // the cap at 100 never cuts anything: the three parts add up to at most 100
    ensures r == SpeedPoints(estimatedSpeed) + CostPoints(costOfLivingIndex) + RuralPoints(ruralStatus)
  {
    var score := SpeedPoints(estimatedSpeed) + CostPoints(costOfLivingIndex) + RuralPoints(ruralStatus);
    if score < 100 then score else 100
  }

  /** More speed never lowers the score. */
  lemma {:induction false} ScoreMonotoneInSpeed(s1: int, s2: int, c: int, rural: bool)
    requires s1 <= s2
    ensures RemoteWorkScore(s1, c, rural) <= RemoteWorkScore(s2, c, rural)
  {
    assert SpeedPoints(s1) <= SpeedPoints(s2);
  }

  /** A more expensive state never raises the score. */
  lemma {:induction false} ScoreAntitoneInCost(s: int, c1: int, c2: int, rural: bool)
    requires c1 <= c2
    ensures RemoteWorkScore(s, c2, rural) <= RemoteWorkScore(s, c1, rural)
  {
    assert CostPoints(c2) <= CostPoints(c1);
  }

  /** Being rural adds exactly 15 points. */
  lemma RuralBonus(s: int, c: int)
    ensures RemoteWorkScore(s, c, true) == RemoteWorkScore(s, c, false) + 15
  {
  }

  /** A perfect 100 takes gigabit-tier speed, a cost index of at most 82 and a rural county. */
  lemma PerfectScore(s: int, c: int, rural: bool)
    ensures RemoteWorkScore(s, c, rural) == 100 <==> s >= 500 && c <= 82 && rural
  {
  }

  /** The top speed tier starts at exactly 500: one Mbps less costs five points. */
  lemma SpeedTierBoundary(c: int, rural: bool)
    ensures RemoteWorkScore(500, c, rural) == RemoteWorkScore(499, c, rural) + 5
  {
  }
}
