/** Production rates of a method and the number of facilities a demand
    needs. Rates are wares per minute; `f64` arithmetic is modelled by
    exact reals. */
module Rates {
  import opened Catalog

  /** A method that takes time and yields something; only such methods
      have a finite facility count. */
  predicate Productive(m: Method) {
    m.cycleSeconds > 0.0 && m.perCycle > 0
  }

  /** `SingleWareProduction::wares_per_minute`: the output of one
      facility. */
  function WaresPerMinute(m: Method): (r: real)
    requires Productive(m)
    ensures r > 0.0
  {
    (m.perCycle as real) / (m.cycleSeconds / 60.0)
  }

  /** In one minute a facility runs `60 / cycleSeconds` cycles, each
      yielding `perCycle` wares. */
  lemma WaresPerMinuteMeaning(m: Method)
    requires Productive(m)
    ensures WaresPerMinute(m) * m.cycleSeconds == 60.0 * (m.perCycle as real)
  {
    PerMinute(m.perCycle as real, m.cycleSeconds);
  }

  /** One entry of `dependencies_per_minute`: what one facility consumes
      of an input it needs `amount` of per cycle. */
  function InputRate(m: Method, amount: nat): (r: real)
    requires Productive(m)
    ensures r >= 0.0
  {
    (amount as real) / (m.cycleSeconds / 60.0)
  }

  /** In one minute a facility consumes `amount` per cycle over
      `60 / cycleSeconds` cycles. */
  lemma InputRateMeaning(m: Method, amount: nat)
    requires Productive(m)
    ensures InputRate(m, amount) * m.cycleSeconds == 60.0 * (amount as real)
  {
    PerMinute(amount as real, m.cycleSeconds);
  }

  lemma PerMinute(a: real, t: real)
    requires t > 0.0
    ensures (a / (t / 60.0)) * t == 60.0 * a
  {
  }

  /** `f64::ceil`: the least integer not below `x`. */
  function Ceil(x: real): (r: int)
    ensures (r - 1) as real < x <= r as real
  {
    -((-x).Floor)
  }

  /** `fabrics_count_from_desired_wares_per_minute`: the number of
      facilities needed for `rate`, the quotient rounded up. */
  function FacilityCount(rate: real, perFacility: real): nat
    requires rate >= 0.0 && perFacility > 0.0
  {
    var q := rate / perFacility;
    var c := Ceil(q);
    CeilBounds(rate, perFacility, q, c);
    c
  }

  /** The facility count covers the rate, and one facility fewer would
      not: it is the fewest facilities whose joint output covers `rate`. */
  lemma FacilityCountCovers(rate: real, perFacility: real)
    requires rate >= 0.0 && perFacility > 0.0
    ensures (FacilityCount(rate, perFacility) as real) * perFacility >= rate
    ensures FacilityCount(rate, perFacility) > 0 ==> ((FacilityCount(rate, perFacility) - 1) as real) * perFacility < rate
  {
    var q := rate / perFacility;
    CeilBounds(rate, perFacility, q, Ceil(q));
  }

  lemma CeilBounds(rate: real, perFacility: real, q: real, c: int)
    requires rate >= 0.0 && perFacility > 0.0 && q == rate / perFacility
    requires (c - 1) as real < q <= c as real
    ensures c >= 0
    ensures (c as real) * perFacility >= rate
    ensures c > 0 ==> ((c - 1) as real) * perFacility < rate
  {
    assert q * perFacility == rate;
    assert q >= 0.0;
    MulMono(q, c as real, perFacility);
    MulStrict((c - 1) as real, q, perFacility);
  }

  lemma MulMono(a: real, b: real, k: real)
    requires a <= b && k > 0.0
    ensures a * k <= b * k
  {
  }

  lemma MulCancel(a: real, b: real, k: real)
    requires a * k < b * k && k > 0.0
    ensures a < b
  {
    if a >= b {
      MulMono(b, a, k);
    }
  }

  lemma MulStrict(a: real, b: real, k: real)
    requires a < b && k > 0.0
    ensures a * k < b * k
  {
  }

  /** Any count that covers the rate is at least the facility count. */
  lemma FacilityCountLeast(rate: real, perFacility: real, n: nat)
    requires rate >= 0.0 && perFacility > 0.0
    requires (n as real) * perFacility >= rate
    ensures FacilityCount(rate, perFacility) <= n
  {
    var c := FacilityCount(rate, perFacility);
    FacilityCountCovers(rate, perFacility);
    if c > 0 {
      MulCancel((c - 1) as real, n as real, perFacility);
    }
  }

  /** More demand never needs fewer facilities. */
  lemma FacilityCountMonotone(a: real, b: real, perFacility: real)
    requires 0.0 <= a <= b && perFacility > 0.0
    ensures FacilityCount(a, perFacility) <= FacilityCount(b, perFacility)
  {
    FacilityCountLeast(a, perFacility, FacilityCount(b, perFacility));
  }

  /** A positive demand needs at least one facility. */
  lemma FacilityCountPositive(rate: real, perFacility: real)
    requires rate > 0.0 && perFacility > 0.0
    ensures FacilityCount(rate, perFacility) > 0
  {
    FacilityCountCovers(rate, perFacility);
  }
}
