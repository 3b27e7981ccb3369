/** `add_wares_rec` as the program writes it, on a ware that is an input of
    its own production method. Nothing in the program stops the demand a
    facility passes on to its inputs from coming back to the same entry,
    and a ware that consumes per cycle what it yields makes every call add
    as many facilities as the call before: the recursion never returns.
    The planner in `Demand` is defined only on ranked catalogs, and
    `Demand.CycleNotWellFormed` shows that such a catalog has no rank. */
module SelfSupply {
  import opened Catalog
  import opened Rates

  /** The entry of the self-supplied ware once the recursion returns, or
      `Unfinished` while it is still descending. */
  datatype Outcome = Settled(rate: real, count: nat) | Unfinished

  /** The one method of a ware whose single input is the ware itself. */
  predicate SelfFed(m: Method) {
    Productive(m) && |m.inputs| == 1
  }

  /** One call of `add_wares_rec` on the ware's entry, which holds `acc`
      wares per minute and `count` facilities. One facility yields `w`
      and consumes `d` of the ware per minute. A zero rate returns; any
      other adds to the rate, raises the count to cover it, and requests
      what the facilities added consume, which is the ware again. No
      entry yet is `acc == 0.0` and `count == 0`, where adding is pushing
      the new entry. `fuel` bounds the nesting depth only so that the
      function is total; the program has no such bound. */
  function Feed(w: real, d: real, acc: real, count: nat, rate: real, fuel: nat): (r: Outcome)
    requires w > 0.0 && d >= 0.0 && acc >= 0.0 && rate >= 0.0
    ensures r.Settled? ==> r.rate >= acc
    decreases fuel
  {
    if rate == 0.0 then Settled(acc, count)
    else if fuel == 0 then Unfinished
    else
      var total := acc + rate;
      var count2 := FacilityCount(total, w);
      if count2 <= count then Settled(total, count2)
      else Feed(w, d, total, count2, Times(d, count2 - count), fuel - 1)
  }

  /** `n` facilities' consumption at `d` each: the program's
      `wares_per_minute * count_added as f64`. */
  function Times(d: real, n: nat): (r: real)
    requires d >= 0.0
    ensures r >= 0.0
  {
    if n == 0 then 0.0 else Times(d, n - 1) + d
  }

  lemma {:induction false} TimesIsProduct(d: real, n: nat)
    requires d >= 0.0
    ensures Times(d, n) == d * (n as real)
  {
    if n > 0 {
      TimesIsProduct(d, n - 1);
      assert d * (n as real) == d * ((n - 1) as real) + d;
    }
  }

  /** A request of `rate` wares per minute for the ware `m` makes, on a
      plan that does not hold it yet. */
  function Request(m: Method, rate: real, fuel: nat): (r: Outcome)
    requires SelfFed(m) && rate >= 0.0
    ensures rate == 0.0 ==> r == Settled(0.0, 0)
  {
    Feed(WaresPerMinute(m), InputRate(m, m.inputs[0].1), 0.0, 0, rate, fuel)
  }

  /** Adding `k` facilities' worth of rate adds exactly `k` facilities. */
  lemma FacilityCountShift(a: real, w: real, k: nat)
    requires a >= 0.0 && w > 0.0
    ensures FacilityCount(a + w * (k as real), w) == FacilityCount(a, w) + k
  {
    var c := FacilityCount(a, w);
    var d := FacilityCount(a + w * (k as real), w);
    FacilityCountCovers(a, w);
    FacilityCountLeast(a + w * (k as real), w, c + k);
    FacilityCountCovers(a + w * (k as real), w);
    if d < c + k {
      if d >= k {
        assert ((d - k) as real) * w >= a;
        FacilityCountLeast(a, w, d - k);
      } else {
        MulMono(d as real, k as real, w);
      }
    }
  }

  /** A ware consuming per cycle exactly what it yields: each facility
      asks for one facility's output of the ware. */
  predicate SelfConsuming(m: Method) {
    SelfFed(m) && m.inputs[0].1 == m.perCycle
  }

  /** A self-consuming ware asks for its own output rate per facility. */
  lemma SelfRate(m: Method)
    requires SelfConsuming(m)
    ensures InputRate(m, m.inputs[0].1) == WaresPerMinute(m)
  {
  }

  /** One call that adds facilities hands their demand on to the next. */
  lemma FeedStep(w: real, d: real, acc: real, count: nat, rate: real, fuel: nat, count2: nat, next: real)
    requires w > 0.0 && d >= 0.0 && acc >= 0.0 && rate > 0.0 && fuel > 0
    requires count2 == FacilityCount(acc + rate, w) && count2 > count && next == Times(d, count2 - count)
    ensures Feed(w, d, acc, count, rate, fuel) == Feed(w, d, acc + rate, count2, next, fuel - 1)
  {
  }

  lemma PositiveProduct(a: real, b: real)
    requires a > 0.0 && b > 0.0
    ensures a * b > 0.0
  {
  }

  /** With the entry's count covering its rate exactly, `k > 0` new
      facilities that each consume a facility's output ask for `k` more,
      at every depth: no fuel suffices. */
  lemma {:induction false} FeedRunsForever(w: real, acc: real, k: nat, fuel: nat)
    requires w > 0.0 && acc >= 0.0 && k > 0
    ensures Feed(w, w, acc, FacilityCount(acc, w), w * (k as real), fuel) == Unfinished
    decreases fuel
  {
    if fuel > 0 {
      var c := FacilityCount(acc, w);
      var rate := w * (k as real);
      FacilityCountShift(acc, w, k);
      PositiveProduct(w, k as real);
      assert (c + k - c) as real == k as real;
      TimesIsProduct(w, k);
      FeedStep(w, w, acc, c, rate, fuel, c + k, rate);
      FeedRunsForever(w, acc + rate, k, fuel - 1);
    }
  }

  /** Any positive request on a self-consuming ware never returns. */
  lemma RequestRunsForever(m: Method, rate: real, fuel: nat)
    requires SelfConsuming(m) && rate > 0.0
    ensures Request(m, rate, fuel) == Unfinished
  {
    var w := WaresPerMinute(m);
    SelfRate(m);
    if fuel > 0 {
      var c := FacilityCount(rate, w);
      FacilityCountPositive(rate, w);
      assert 0.0 + rate == rate;
      assert (c - 0) as real == c as real;
      TimesIsProduct(w, c);
      FeedStep(w, w, 0.0, 0, rate, fuel, c, w * (c as real));
      FeedRunsForever(w, rate, c, fuel - 1);
    }
  }

  /** A ware `selfmade` whose method takes a minute, yields 10 and
      consumes 10 of `selfmade`. */
  const Loop := Method("default", 60.0, 10, [("selfmade", 10)], Locator("20201", "101"))

  /** Five of it per minute: one facility, which asks for ten more, which
      need a second facility, which asks for ten more, and so on. */
  lemma LoopRunsForever()
    ensures forall fuel :: Request(Loop, 5.0, fuel) == Unfinished
  {
    forall fuel: nat
      ensures Request(Loop, 5.0, fuel) == Unfinished
    {
      RequestRunsForever(Loop, 5.0, fuel);
    }
  }

  /** A ware `halfmade` whose method takes a minute, yields 10 and
      consumes 5 of `halfmade`: an input of itself, yet not a loop. */
  const Half := Method("default", 60.0, 10, [("halfmade", 5)], Locator("20201", "101"))

  /** Five of it per minute: one facility, whose 5 per minute of input
      the same facility already covers, so the request settles at 10 per
      minute on one facility once the recursion is two calls deep. */
  lemma HalfSettles(fuel: nat)
    requires fuel >= 2
    ensures Request(Half, 5.0, fuel) == Settled(10.0, 1)
  {
    FacilityCountLeast(5.0, 10.0, 1);
    FacilityCountPositive(5.0, 10.0);
    FacilityCountLeast(10.0, 10.0, 1);
    FacilityCountPositive(10.0, 10.0);
    TimesIsProduct(5.0, 1);
    FeedStep(10.0, 5.0, 0.0, 0, 5.0, fuel, 1, 5.0);
  }
}
