/** The demand planner (`Fabrics`): an accumulator with one entry per ware
    in the supply chain, grown by pushing wares-per-minute demands through
    the chosen production methods and their inputs. */
module Demand {
  import opened Errors
  import opened Catalog
  import opened Selection
  import opened Rates

  /** How an accumulated ware is obtained: imported, or made by `count`
      facilities running `method`. */
  datatype Plan = Imported | Producing(count: nat, recipe: Method)

  /** One accumulator entry: the ware, its total rate, its catalog
      record and its plan. */
  datatype Entry = Entry(id: string, rate: real, info: WareInfo, plan: Plan)

  type Acc = seq<Entry>

  /** The fixed inputs of a planning run. `rank` orders wares below every
      ware that consumes them; it exists for the termination argument only
      and is never consulted by the planner. */
  datatype Config = Config(cat: Catalog, priority: seq<string>, blacklist: seq<string>, rank: map<string, nat>)

  /** Every input of `m` ranks below `owner`. */
  predicate RankedMethod(rank: map<string, nat>, owner: string, m: Method) {
    owner in rank && forall q :: 0 <= q < |m.inputs| ==> m.inputs[q].0 in rank && rank[m.inputs[q].0] < rank[owner]
  }

  /** The catalog's supply chains are acyclic, witnessed by `rank`, and
      every method produces at a positive rate. */
  predicate WellFormed(cfg: Config) {
    forall k, j :: 0 <= k < |cfg.cat| && 0 <= j < |cfg.cat[k].methods| ==>
      RankedMethod(cfg.rank, cfg.cat[k].info.id, cfg.cat[k].methods[j]) && Productive(cfg.cat[k].methods[j])
  }

  function Measure(rank: map<string, nat>, id: string): nat {
    if id in rank then rank[id] + 1 else 0
  }

  /** The method the planner chooses for a ware it produces. */
  predicate Chosen(cfg: Config, id: string, m: Method) {
    Get(cfg.cat, id).Ok? && FindDesiredMethod(Get(cfg.cat, id).value, cfg.priority, cfg.blacklist) == Ok(m)
  }

  lemma ChosenIsRanked(cfg: Config, id: string, m: Method)
    requires WellFormed(cfg) && Chosen(cfg, id, m)
    ensures RankedMethod(cfg.rank, id, m) && Productive(m)
  {
    var w := Get(cfg.cat, id).value;
    var k :| FirstWithId(cfg.cat, id, k) && cfg.cat[k] == w;
    assert m in w.methods;
    var j :| 0 <= j < |w.methods| && w.methods[j] == m;
    assert cfg.cat[k].methods[j] == m;
  }

  /** Some method of some catalog entry for `a` lists `b` among its inputs. */
  predicate Feeds(cat: Catalog, a: string, b: string) {
    exists k, j, q :: 0 <= k < |cat| && 0 <= j < |cat[k].methods| && 0 <= q < |cat[k].methods[j].inputs| &&
      cat[k].info.id == a && cat[k].methods[j].inputs[q].0 == b
  }

  /** Along a chain of suppliers the rank strictly falls. */
  lemma {:induction false} RankFalls(cfg: Config, chain: seq<string>)
    requires WellFormed(cfg) && |chain| >= 2
    requires forall i :: 0 <= i < |chain| - 1 ==> Feeds(cfg.cat, chain[i], chain[i + 1])
    ensures chain[0] in cfg.rank && chain[|chain| - 1] in cfg.rank
    ensures cfg.rank[chain[|chain| - 1]] < cfg.rank[chain[0]]
    decreases |chain|
  {
    assert Feeds(cfg.cat, chain[0], chain[1]);
    var k, j, q :| 0 <= k < |cfg.cat| && 0 <= j < |cfg.cat[k].methods| && 0 <= q < |cfg.cat[k].methods[j].inputs| &&
      cfg.cat[k].info.id == chain[0] && cfg.cat[k].methods[j].inputs[q].0 == chain[1];
    assert RankedMethod(cfg.rank, cfg.cat[k].info.id, cfg.cat[k].methods[j]);
    if |chain| > 2 {
      var rest := chain[1..];
      forall i | 0 <= i < |rest| - 1
        ensures Feeds(cfg.cat, rest[i], rest[i + 1])
      {
        assert rest[i] == chain[i + 1] && rest[i + 1] == chain[i + 2];
      }
      RankFalls(cfg, rest);
      assert rest[|rest| - 1] == chain[|chain| - 1];
    }
  }

  /** A catalog in which a ware is, directly or through other wares, an
      input of itself has no rank: `add_wares_rec` would keep passing
      demand round such a cycle, so planning is defined only without one. */
  lemma CycleNotWellFormed(cfg: Config, chain: seq<string>)
    requires |chain| >= 2 && chain[0] == chain[|chain| - 1]
    requires forall i :: 0 <= i < |chain| - 1 ==> Feeds(cfg.cat, chain[i], chain[i + 1])
    ensures !WellFormed(cfg)
  {
    if WellFormed(cfg) {
      RankFalls(cfg, chain);
    }
  }

  // ---------------------------------------------------------------------
  // The accumulator invariant
  // ---------------------------------------------------------------------

  predicate DistinctIds(acc: Acc) {
    forall a, b :: 0 <= a < b < |acc| ==> acc[a].id != acc[b].id
  }

  /** An entry as the planner keeps it: a positive rate, the catalog's
      record of the ware, imported exactly when the ware has no methods,
      and otherwise the chosen method with just enough facilities. */
  predicate EntryOk(cfg: Config, e: Entry) {
    && e.rate > 0.0
    && Catalogued(cfg, e.id, e.info, e.plan.Producing?)
    && (e.plan.Producing? ==>
          && Chosen(cfg, e.id, e.plan.recipe)
          && Productive(e.plan.recipe)
          && e.plan.count == FacilityCount(e.rate, WaresPerMinute(e.plan.recipe)))
  }

  /** The catalog knows the ware, with that record, and it has methods
      exactly when `producing` holds. */
  predicate Catalogued(cfg: Config, id: string, info: WareInfo, producing: bool) {
    && Get(cfg.cat, id).Ok?
    && info == Get(cfg.cat, id).value.info
    && (producing <==> |Get(cfg.cat, id).value.methods| > 0)
  }

  predicate Consistent(cfg: Config, acc: Acc) {
    DistinctIds(acc) && forall k :: 0 <= k < |acc| ==> EntryOk(cfg, acc[k])
  }

  /** `e2` is `e` after more demand: same ware and plan kind, same
      method, no less rate and no fewer facilities. */
  predicate Grows(e: Entry, e2: Entry) {
    && e2.id == e.id
    && e2.info == e.info
    && e.rate <= e2.rate
    && e2.plan.Producing? == e.plan.Producing?
    && (e.plan.Producing? ==> e2.plan.recipe == e.plan.recipe && e.plan.count <= e2.plan.count)
  }

  /** Entries are only ever appended, and existing ones only grow. */
  predicate Extends(acc: Acc, acc2: Acc) {
    |acc| <= |acc2| && forall k :: 0 <= k < |acc| ==> Grows(acc[k], acc2[k])
  }

  lemma ExtendsTrans(a: Acc, b: Acc, c: Acc)
    requires Extends(a, b) && Extends(b, c)
    ensures Extends(a, c)
  {
    forall k | 0 <= k < |a|
      ensures Grows(a[k], c[k])
    {
      assert Grows(a[k], b[k]) && Grows(b[k], c[k]);
    }
  }

  // ---------------------------------------------------------------------
  // Rates in the accumulator
  // ---------------------------------------------------------------------

  /** The accumulated rate of a ware, zero when it has no entry. */
  function Rate(acc: Acc, x: string): real {
    if |acc| == 0 then 0.0
    else if acc[0].id == x then acc[0].rate
    else Rate(acc[1..], x)
  }

  /** What `n` facilities running `m` consume of `x` per minute, over the
      inputs from position `i` on. */
  function NeedFrom(m: Method, n: nat, i: nat, x: string): real
    requires Productive(m)
    decreases |m.inputs| - i
  {
    if i >= |m.inputs| then 0.0
    else (if m.inputs[i].0 == x then InputRate(m, m.inputs[i].1) * (n as real) else 0.0) + NeedFrom(m, n, i + 1, x)
  }

  /** The consumption of facilities added to those already running is the
      consumption of the added ones alone. */
  lemma {:induction false} NeedFromDiff(m: Method, a: nat, b: nat, i: nat, x: string)
    requires Productive(m) && a <= b
    ensures NeedFrom(m, b, i, x) - NeedFrom(m, a, i, x) == NeedFrom(m, b - a, i, x)
    decreases |m.inputs| - i
  {
    if i < |m.inputs| {
      NeedFromDiff(m, a, b, i + 1, x);
      Distribute(a, b, InputRate(m, m.inputs[i].1));
    }
  }

  /** What the facilities of an entry consume of `x` per minute. */
  function Draw(e: Entry, x: string): real {
    if e.plan.Producing? && Productive(e.plan.recipe) then NeedFrom(e.plan.recipe, e.plan.count, 0, x) else 0.0
  }

  /** What all producing entries together consume of `x` per minute. */
  function Induced(acc: Acc, x: string): real {
    if |acc| == 0 then 0.0 else Draw(acc[0], x) + Induced(acc[1..], x)
  }

  /** The part of a ware's rate that no accumulated producer consumes:
      the demand placed on the planner from outside. */
  function Net(acc: Acc, x: string): real {
    Rate(acc, x) - Induced(acc, x)
  }

  lemma {:induction false} RateUpdate(acc: Acc, k: nat, e: Entry, x: string)
    requires DistinctIds(acc) && k < |acc| && e.id == acc[k].id
    ensures Rate(acc[k := e], x) == if x == e.id then e.rate else Rate(acc, x)
  {
    if k > 0 {
      assert acc[k := e][1..] == acc[1..][k - 1 := e];
      assert DistinctIds(acc[1..]) by {
        assert forall a :: 0 <= a < |acc| - 1 ==> acc[1..][a] == acc[a + 1];
      }
      assert acc[0].id != acc[k].id;
      RateUpdate(acc[1..], k - 1, e, x);
    }
  }

  lemma {:induction false} InducedUpdate(acc: Acc, k: nat, e: Entry, x: string)
    requires k < |acc|
    ensures Induced(acc[k := e], x) == Induced(acc, x) - Draw(acc[k], x) + Draw(e, x)
  {
    if k > 0 {
      assert acc[k := e][1..] == acc[1..][k - 1 := e];
      InducedUpdate(acc[1..], k - 1, e, x);
    }
  }

  lemma {:induction false} RateAppend(acc: Acc, e: Entry, x: string)
    requires forall k :: 0 <= k < |acc| ==> acc[k].id != e.id
    ensures Rate(acc + [e], x) == if x == e.id then e.rate else Rate(acc, x)
  {
    if |acc| > 0 {
      assert (acc + [e])[1..] == acc[1..] + [e];
      RateAppend(acc[1..], e, x);
    }
  }

  lemma {:induction false} InducedAppend(acc: Acc, e: Entry, x: string)
    ensures Induced(acc + [e], x) == Induced(acc, x) + Draw(e, x)
  {
    if |acc| > 0 {
      assert (acc + [e])[1..] == acc[1..] + [e];
      InducedAppend(acc[1..], e, x);
    }
  }

  /** `acc2` holds exactly `rate` more outside demand for `id` than `acc`,
      and the same for every other ware. */
  ghost predicate Balanced(acc: Acc, acc2: Acc, id: string, rate: real) {
    forall x :: Net(acc2, x) == Net(acc, x) + (if x == id then rate else 0.0)
  }

  /** `acc2` holds the demand of `delta` more facilities running `m` on
      the inputs from position `i` on. */
  ghost predicate Propagated(acc: Acc, acc2: Acc, m: Method, delta: nat, i: nat)
    requires Productive(m)
  {
    forall x :: Net(acc2, x) == Net(acc, x) + NeedFrom(m, delta, i, x)
  }

  /** What `more` facilities of a method consume of `x` per minute. */
  function Extra(more: Option<(nat, Method)>, x: string): real {
    match more
    case None => 0.0
    case Some((n, m)) => if Productive(m) then NeedFrom(m, n, 0, x) else 0.0
  }

  /** `acc2` holds `rate` more demand for `id`, less what the facilities
      in `more` will pass on to their inputs. */
  ghost predicate NetAfter(acc: Acc, acc2: Acc, id: string, rate: real, more: Option<(nat, Method)>) {
    forall x :: Net(acc2, x) == Net(acc, x) + (if x == id then rate else 0.0) - Extra(more, x)
  }

  // ---------------------------------------------------------------------
  // Facts about updating and appending entries
  // ---------------------------------------------------------------------

  /** The rate of a ware is the rate of its entry. */
  lemma {:induction false} RateAt(acc: Acc, k: nat)
    requires DistinctIds(acc) && k < |acc|
    ensures Rate(acc, acc[k].id) == acc[k].rate
  {
    if k > 0 {
      assert acc[0].id != acc[k].id;
      assert DistinctIds(acc[1..]) by {
        assert forall a :: 0 <= a < |acc| - 1 ==> acc[1..][a] == acc[a + 1];
      }
      assert acc[1..][k - 1] == acc[k];
      RateAt(acc[1..], k - 1);
    }
  }

  /** A ware without an entry has rate zero. */
  lemma {:induction false} RateAbsent(acc: Acc, x: string)
    requires forall k :: 0 <= k < |acc| ==> acc[k].id != x
    ensures Rate(acc, x) == 0.0
  {
    if |acc| > 0 {
      assert forall k :: 0 <= k < |acc| - 1 ==> acc[1..][k] == acc[k + 1];
      RateAbsent(acc[1..], x);
    }
  }

  lemma NetUpdate(acc: Acc, k: nat, e2: Entry, x: string)
    requires DistinctIds(acc) && k < |acc| && e2.id == acc[k].id
    ensures Net(acc[k := e2], x) == Net(acc, x) + (if x == e2.id then e2.rate - acc[k].rate else 0.0) + Draw(acc[k], x) - Draw(e2, x)
  {
    RateUpdate(acc, k, e2, x);
    InducedUpdate(acc, k, e2, x);
    RateAt(acc, k);
  }

  lemma NetAppend(acc: Acc, e: Entry, x: string)
    requires forall k :: 0 <= k < |acc| ==> acc[k].id != e.id
    ensures Net(acc + [e], x) == Net(acc, x) + (if x == e.id then e.rate else 0.0) - Draw(e, x)
  {
    RateAppend(acc, e, x);
    InducedAppend(acc, e, x);
    if x == e.id {
      RateAbsent(acc, x);
    }
  }

  lemma Distribute(a: nat, b: nat, r: real)
    requires a <= b
    ensures r * (b as real) - r * (a as real) == r * ((b - a) as real)
  {
  }

  /** Replacing an entry by a valid entry for the same ware keeps the
      accumulator consistent. */
  lemma UpdateConsistent(cfg: Config, acc: Acc, k: nat, e2: Entry)
    requires Consistent(cfg, acc) && k < |acc| && e2.id == acc[k].id && EntryOk(cfg, e2)
    ensures Consistent(cfg, acc[k := e2])
  {
    var acc2 := acc[k := e2];
    forall j | 0 <= j < |acc2|
      ensures EntryOk(cfg, acc2[j])
    {
      if j != k {
        assert acc2[j] == acc[j];
      }
    }
    assert forall j :: 0 <= j < |acc| ==> acc2[j].id == acc[j].id;
  }

  lemma UpdateExtends(acc: Acc, k: nat, e2: Entry)
    requires k < |acc| && Grows(acc[k], e2)
    ensures Extends(acc, acc[k := e2])
  {
    assert forall j :: 0 <= j < |acc| && j != k ==> acc[k := e2][j] == acc[j];
  }

  lemma AppendConsistent(cfg: Config, acc: Acc, e: Entry)
    requires Consistent(cfg, acc) && EntryOk(cfg, e)
    requires forall k :: 0 <= k < |acc| ==> acc[k].id != e.id
    ensures Consistent(cfg, acc + [e]) && Extends(acc, acc + [e])
  {
    assert forall j :: 0 <= j < |acc| ==> (acc + [e])[j] == acc[j];
  }

  /** The entry of a produced ware after `rate` more demand. */
  function Regrown(e: Entry, rate: real): (e2: Entry)
    requires e.plan.Producing? && Productive(e.plan.recipe) && e.rate >= 0.0 && rate >= 0.0
    ensures e2.id == e.id && e2.info == e.info && e2.rate == e.rate + rate
    ensures e2.plan.Producing? && e2.plan.recipe == e.plan.recipe
    ensures e2.plan.count == FacilityCount(e2.rate, WaresPerMinute(e.plan.recipe))
  {
    var total := e.rate + rate;
    e.(rate := total, plan := Producing(FacilityCount(total, WaresPerMinute(e.plan.recipe)), e.plan.recipe))
  }

  lemma RegrownOk(cfg: Config, e: Entry, rate: real)
    requires EntryOk(cfg, e) && e.plan.Producing? && rate > 0.0
    ensures EntryOk(cfg, Regrown(e, rate)) && Grows(e, Regrown(e, rate))
  {
    var m := e.plan.recipe;
    var e2 := Regrown(e, rate);
    FacilityCountMonotone(e.rate, e2.rate, WaresPerMinute(m));
  }

  lemma AppendNet(acc: Acc, e: Entry, more: Option<(nat, Method)>)
    requires forall k :: 0 <= k < |acc| ==> acc[k].id != e.id
    requires forall x :: Draw(e, x) == Extra(more, x)
    ensures NetAfter(acc, acc + [e], e.id, e.rate, more)
  {
    forall x
      ensures Net(acc + [e], x) == Net(acc, x) + (if x == e.id then e.rate else 0.0) - Extra(more, x)
    {
      NetAppend(acc, e, x);
    }
  }

  // ---------------------------------------------------------------------
  // `add_wares_rec`
  // ---------------------------------------------------------------------

  /** The first entry of a ware. */
  function FindEntry(acc: Acc, id: string): (r: Option<nat>)
    ensures r.Some? ==> r.value < |acc| && acc[r.value].id == id
    ensures r.None? ==> forall k :: 0 <= k < |acc| ==> acc[k].id != id
  {
    if |acc| == 0 then None
    else if acc[0].id == id then Some(0)
    else
      match FindEntry(acc[1..], id)
      case None => None
      case Some(k) => Some(k + 1)
  }

  /** What adding demand to the accumulator does before any of it is
      passed on: the new accumulator, and the facilities added with their
      method when there are any. */
  datatype Added = Added(acc: Acc, more: Option<(nat, Method)>)

  /** The facilities in `more` run the method chosen for `id`, and there
      are some. */
  predicate MoreOk(cfg: Config, id: string, more: Option<(nat, Method)>) {
    more.Some? ==>
      && more.value.0 > 0
      && Chosen(cfg, id, more.value.1)
      && RankedMethod(cfg.rank, id, more.value.1)
      && Productive(more.value.1)
  }

  /** What one step promises: the accumulator stays consistent and only
      grows, it takes the demand, and the facilities it reports are the
      chosen method's. */
  ghost predicate AddedOk(cfg: Config, acc: Acc, id: string, rate: real, a: Added) {
    && Consistent(cfg, a.acc)
    && Extends(acc, a.acc)
    && NetAfter(acc, a.acc, id, rate, a.more)
    && MoreOk(cfg, id, a.more)
  }

  /** The facilities added when a count grows from `before` to `after`,
      none when it does not grow. */
  function Increase(before: nat, after: nat, m: Method): (r: Option<(nat, Method)>)
    ensures r.Some? <==> before < after
    ensures r.Some? ==> before + r.value.0 == after && r.value.1 == m
  {
    if after <= before then None else Some((after - before, m))
  }

  /** More demand on a ware that already has an entry: a produced ware
      gets the facilities that cover its new total, an imported one only
      the rate. */
  function AddExisting(cfg: Config, acc: Acc, k: nat, rate: real): (r: Added)
    requires WellFormed(cfg) && Consistent(cfg, acc) && k < |acc| && rate > 0.0
    ensures AddedOk(cfg, acc, acc[k].id, rate, r)
  {
    if acc[k].plan.Producing? then
      var e2 := Regrown(acc[k], rate);
      RegrownStep(cfg, acc, k, rate);
      Added(acc[k := e2], Increase(acc[k].plan.count, e2.plan.count, acc[k].plan.recipe))
    else
      ImportedStep(cfg, acc, k, rate);
      Added(acc[k := acc[k].(rate := acc[k].rate + rate)], None)
  }

  lemma RegrownStep(cfg: Config, acc: Acc, k: nat, rate: real)
    requires WellFormed(cfg) && Consistent(cfg, acc) && k < |acc| && acc[k].plan.Producing? && rate > 0.0
    ensures var e2 := Regrown(acc[k], rate);
      AddedOk(cfg, acc, acc[k].id, rate, Added(acc[k := e2], Increase(acc[k].plan.count, e2.plan.count, acc[k].plan.recipe)))
  {
    var e := acc[k];
    assert EntryOk(cfg, e);
    RegrownOk(cfg, e, rate);
    var e2 := Regrown(e, rate);
    var m := e.plan.recipe;
    var more := Increase(e.plan.count, e2.plan.count, m);
    UpdateConsistent(cfg, acc, k, e2);
    UpdateExtends(acc, k, e2);
    ChosenIsRanked(cfg, e.id, m);
    RegrownNet(acc, k, e2, rate, e2.plan.count - e.plan.count, m);
    assert MoreOk(cfg, e.id, more);
    AddedOkIntro(cfg, acc, e.id, rate, Added(acc[k := e2], more));
  }

  lemma AddedOkIntro(cfg: Config, acc: Acc, id: string, rate: real, a: Added)
    requires Consistent(cfg, a.acc) && Extends(acc, a.acc)
    requires NetAfter(acc, a.acc, id, rate, a.more) && MoreOk(cfg, id, a.more)
    ensures AddedOk(cfg, acc, id, rate, a)
  {
  }

  lemma RegrownNet(acc: Acc, k: nat, e2: Entry, rate: real, added: nat, m: Method)
    requires DistinctIds(acc) && k < |acc| && acc[k].plan.Producing? && m == acc[k].plan.recipe && Productive(m)
    requires e2.id == acc[k].id && e2.rate == acc[k].rate + rate
    requires e2.plan == Producing(acc[k].plan.count + added, m)
    ensures NetAfter(acc, acc[k := e2], acc[k].id, rate, Increase(acc[k].plan.count, e2.plan.count, m))
  {
    var e := acc[k];
    var more := Increase(e.plan.count, e2.plan.count, m);
    forall x
      ensures Net(acc[k := e2], x) == Net(acc, x) + (if x == e.id then rate else 0.0) - Extra(more, x)
    {
      NetUpdate(acc, k, e2, x);
      NeedFromDiff(m, e.plan.count, e2.plan.count, 0, x);
      NeedFromDiff(m, e.plan.count, e.plan.count, 0, x);
    }
  }

  lemma ImportedStep(cfg: Config, acc: Acc, k: nat, rate: real)
    requires Consistent(cfg, acc) && k < |acc| && acc[k].plan.Imported? && rate > 0.0
    ensures AddedOk(cfg, acc, acc[k].id, rate, Added(acc[k := acc[k].(rate := acc[k].rate + rate)], None))
  {
    var e := acc[k];
    var e2 := e.(rate := e.rate + rate);
    assert EntryOk(cfg, e);
    UpdateConsistent(cfg, acc, k, e2);
    UpdateExtends(acc, k, e2);
    forall x
      ensures Net(acc[k := e2], x) == Net(acc, x) + (if x == e.id then rate else 0.0)
    {
      NetUpdate(acc, k, e2, x);
    }
  }

  lemma ProducingDraw(e: Entry)
    requires e.plan.Producing? && Productive(e.plan.recipe)
    ensures forall x :: Draw(e, x) == Extra(Some((e.plan.count, e.plan.recipe)), x)
  {
  }

  /** A ware seen for the first time gets a valid entry. */
  lemma AppendStep(cfg: Config, acc: Acc, e: Entry, more: Option<(nat, Method)>)
    requires Consistent(cfg, acc) && EntryOk(cfg, e) && MoreOk(cfg, e.id, more)
    requires forall k :: 0 <= k < |acc| ==> acc[k].id != e.id
    requires forall x :: Draw(e, x) == Extra(more, x)
    ensures AddedOk(cfg, acc, e.id, e.rate, Added(acc + [e], more))
  {
    AppendConsistent(cfg, acc, e);
    AppendNet(acc, e, more);
  }

  /** Demand on a ware with no entry yet can be met: the catalog knows the
      ware, and not all of its methods are blacklisted. */
  predicate Plannable(cfg: Config, w: string) {
    Get(cfg.cat, w).Ok? && FindDesiredMethod(Get(cfg.cat, w).value, cfg.priority, cfg.blacklist) != Err(AllMethodsBlacklisted(w))
  }

  /** `e` is the error demand on an unplannable ware `w` ends with. */
  predicate FailsAt(cfg: Config, w: string, e: DataError) {
    !Plannable(cfg, w) && e == (if Get(cfg.cat, w).Err? then UnknownWare(w) else AllMethodsBlacklisted(w))
  }

  /** Demand on `a` can be passed on to `b`: `b` is `a`, or demand can be
      passed on to `b` from an input of the method chosen for `a`. */
  predicate Reaches(cfg: Config, a: string, b: string)
    requires WellFormed(cfg)
    decreases Measure(cfg.rank, a), 1
  {
    if a == b then true
    else
      match Choice(cfg, a)
      case Err(_) => false
      case Ok(m) =>
        ChosenIsRanked(cfg, a, m);
        InputsReach(cfg, a, m, 0, b)
  }

  /** Demand can be passed on to `b` from an input of `m` at position `i`
      or later. */
  predicate InputsReach(cfg: Config, owner: string, m: Method, i: nat, b: string)
    requires WellFormed(cfg) && RankedMethod(cfg.rank, owner, m) && i <= |m.inputs|
    decreases Measure(cfg.rank, owner), 0, |m.inputs| - i
  {
    i < |m.inputs| && (Reaches(cfg, m.inputs[i].0, b) || InputsReach(cfg, owner, m, i + 1, b))
  }

  lemma ReachesSelf(cfg: Config, a: string)
    requires WellFormed(cfg)
    ensures Reaches(cfg, a, a)
  {
  }

  /** What the inputs of the chosen method reach, the ware reaches. */
  lemma ChosenReaches(cfg: Config, id: string, m: Method, b: string)
    requires WellFormed(cfg) && Chosen(cfg, id, m) && RankedMethod(cfg.rank, id, m)
    requires InputsReach(cfg, id, m, 0, b)
    ensures Reaches(cfg, id, b)
  {
    assert Choice(cfg, id) == Ok(m);
  }

  /** A failure among the inputs of the chosen method is a failure on a
      ware the demand reaches. */
  lemma ChosenFails(cfg: Config, id: string, m: Method, e: DataError)
    requires WellFormed(cfg) && Chosen(cfg, id, m) && RankedMethod(cfg.rank, id, m)
    requires exists b :: InputsReach(cfg, id, m, 0, b) && FailsAt(cfg, b, e)
    ensures exists b :: Reaches(cfg, id, b) && FailsAt(cfg, b, e)
  {
    var b :| InputsReach(cfg, id, m, 0, b) && FailsAt(cfg, b, e);
    ChosenReaches(cfg, id, m, b);
  }

  /** Demand on a ware with no entry yet: it is looked up in the catalog
      and produced by its chosen method, or imported when it has none. */
  function AddNew(cfg: Config, acc: Acc, id: string, rate: real): (r: Result<Added>)
    requires WellFormed(cfg) && Consistent(cfg, acc) && rate > 0.0
    requires forall k :: 0 <= k < |acc| ==> acc[k].id != id
    ensures r.Ok? ==> AddedOk(cfg, acc, id, rate, r.value)
    ensures r.Err? ==> r.error == UnknownWare(id) || r.error == AllMethodsBlacklisted(id)
    ensures r.Err? <==> Get(cfg.cat, id).Err? || FindDesiredMethod(Get(cfg.cat, id).value, cfg.priority, cfg.blacklist) == Err(AllMethodsBlacklisted(id))
    ensures r.Err? ==> FailsAt(cfg, id, r.error)
  {
    var w :- Get(cfg.cat, id);
    if |w.methods| > 0 then
      var m :- FindDesiredMethod(w, cfg.priority, cfg.blacklist);
      ChosenIsRanked(cfg, id, m);
      var c := FacilityCount(rate, WaresPerMinute(m));
      FacilityCountPositive(rate, WaresPerMinute(m));
      var e := Entry(id, rate, w.info, Producing(c, m));
      assert Catalogued(cfg, id, w.info, true) && Chosen(cfg, id, m);
      ProducingDraw(e);
      AppendStep(cfg, acc, e, Some((c, m)));
      Ok(Added(acc + [e], Some((c, m))))
    else
      var e := Entry(id, rate, w.info, Imported);
      assert Catalogued(cfg, id, w.info, false);
      AppendStep(cfg, acc, e, None);
      Ok(Added(acc + [e], None))
  }

  /** The body of `add_wares_rec` up to the loop over the inputs. */
  function AddOne(cfg: Config, acc: Acc, id: string, rate: real): (r: Result<Added>)
    requires WellFormed(cfg) && Consistent(cfg, acc) && rate > 0.0
    ensures r.Ok? ==> AddedOk(cfg, acc, id, rate, r.value)
    ensures r.Err? ==> r.error == UnknownWare(id) || r.error == AllMethodsBlacklisted(id)
    ensures r.Err? ==> FailsAt(cfg, id, r.error)
  {
    match FindEntry(acc, id)
    case Some(k) => Ok(AddExisting(cfg, acc, k, rate))
    case None => AddNew(cfg, acc, id, rate)
  }

  // ---------------------------------------------------------------------
  // The recursion through the inputs
  // ---------------------------------------------------------------------

  /** `add_wares_rec`: puts `rate` wares per minute of `id` on the
      accumulator and passes the demand of every facility it adds on to
      that facility's inputs, depth first, in the order the method lists
      them. The first failure ends the run. */
  function AddWaresRec(cfg: Config, acc: Acc, id: string, rate: real): (r: Result<Acc>)
    requires WellFormed(cfg) && Consistent(cfg, acc) && rate >= 0.0
    ensures r.Ok? ==> Consistent(cfg, r.value) && Extends(acc, r.value) && Balanced(acc, r.value, id, rate)
    ensures r.Err? ==> r.error.UnknownWare? || r.error.AllMethodsBlacklisted?
    ensures r.Err? ==> exists w :: Reaches(cfg, id, w) && FailsAt(cfg, w, r.error)
    ensures (forall w :: Reaches(cfg, id, w) ==> Plannable(cfg, w)) ==> r.Ok?
    ensures rate == 0.0 ==> r == Ok(acc)
    decreases Measure(cfg.rank, id), 1
  {
    if rate == 0.0 then Ok(acc)
    else
      match AddOne(cfg, acc, id, rate)
      case Err(e) =>
        ReachesSelf(cfg, id);
        Err(e)
      case Ok(added) =>
        match added.more
        case None =>
          NothingPassedOn(acc, added.acc, id, rate);
          Ok(added.acc)
        case Some((n, m)) =>
          match Propagate(cfg, added.acc, id, m, n, 0)
          case Err(e) =>
            ChosenFails(cfg, id, m, e);
            Err(e)
          case Ok(acc2) =>
            PassedOn(acc, added.acc, acc2, id, rate, m, n);
            ExtendsTrans(acc, added.acc, acc2);
            Ok(acc2)
  }

  /** The loop over `dependencies_per_minute`: `n` new facilities running
      `m` ask each input from position `i` on for what they consume. */
  function Propagate(cfg: Config, acc: Acc, owner: string, m: Method, n: nat, i: nat): (r: Result<Acc>)
    requires WellFormed(cfg) && Consistent(cfg, acc) && RankedMethod(cfg.rank, owner, m) && Productive(m)
    requires i <= |m.inputs|
    ensures r.Ok? ==> Consistent(cfg, r.value) && Extends(acc, r.value) && Propagated(acc, r.value, m, n, i)
    ensures r.Err? ==> r.error.UnknownWare? || r.error.AllMethodsBlacklisted?
    ensures r.Err? ==> exists w :: InputsReach(cfg, owner, m, i, w) && FailsAt(cfg, w, r.error)
    decreases Measure(cfg.rank, owner), 0, |m.inputs| - i
  {
    if i == |m.inputs| then
      ExtendsRefl(acc);
      Ok(acc)
    else
      var input := m.inputs[i].0;
      var need := InputRate(m, m.inputs[i].1) * (n as real);
      NonNegativeProduct(InputRate(m, m.inputs[i].1), n as real);
      var acc2 :- AddWaresRec(cfg, acc, input, need);
      var acc3 :- Propagate(cfg, acc2, owner, m, n, i + 1);
      PropagateStep(acc, acc2, acc3, m, n, i);
      ExtendsTrans(acc, acc2, acc3);
      Ok(acc3)
  }

  lemma ExtendsRefl(acc: Acc)
    ensures Extends(acc, acc)
  {
  }

  lemma NonNegativeProduct(a: real, b: real)
    requires a >= 0.0 && b >= 0.0
    ensures a * b >= 0.0
  {
  }

  lemma NothingPassedOn(acc: Acc, acc2: Acc, id: string, rate: real)
    requires NetAfter(acc, acc2, id, rate, None)
    ensures Balanced(acc, acc2, id, rate)
  {
  }

  /** Once the new facilities' demand has reached their inputs, the
      ware's balance holds exactly the requested rate. */
  lemma PassedOn(acc: Acc, acc1: Acc, acc2: Acc, id: string, rate: real, m: Method, n: nat)
    requires Productive(m)
    requires NetAfter(acc, acc1, id, rate, Some((n, m))) && Propagated(acc1, acc2, m, n, 0)
    ensures Balanced(acc, acc2, id, rate)
  {
    forall x
      ensures Net(acc2, x) == Net(acc, x) + (if x == id then rate else 0.0)
    {
      var d := NeedFrom(m, n, 0, x);
      assert Extra(Some((n, m)), x) == d;
      assert Net(acc1, x) == Net(acc, x) + (if x == id then rate else 0.0) - d;
      assert Net(acc2, x) == Net(acc1, x) + d;
    }
  }

  /** One input's share added to the rest of the inputs' shares. */
  lemma PropagateStep(acc: Acc, acc2: Acc, acc3: Acc, m: Method, n: nat, i: nat)
    requires Productive(m) && i < |m.inputs|
    requires Balanced(acc, acc2, m.inputs[i].0, InputRate(m, m.inputs[i].1) * (n as real))
    requires Propagated(acc2, acc3, m, n, i + 1)
    ensures Propagated(acc, acc3, m, n, i)
  {
    var own := x => if x == m.inputs[i].0 then InputRate(m, m.inputs[i].1) * (n as real) else 0.0;
    SumPointwise(x => Net(acc, x), x => Net(acc2, x), x => Net(acc3, x), own, x => NeedFrom(m, n, i + 1, x), x => NeedFrom(m, n, i, x));
  }

  /** Two pointwise increments add up. */
  lemma SumPointwise<X>(f: X -> real, g: X -> real, h: X -> real, d: X -> real, e: X -> real, de: X -> real)
    requires forall x :: g(x) == f(x) + d(x)
    requires forall x :: h(x) == g(x) + e(x)
    requires forall x :: de(x) == d(x) + e(x)
    ensures forall x :: h(x) == f(x) + de(x)
  {
  }

  // ---------------------------------------------------------------------
  // Requests: `add_fabrics`, `add_wares` and the loop over the outputs
  // ---------------------------------------------------------------------

  /** What the user asks for a ware: a number of facilities, or a rate in
      wares per minute. */
  datatype Request = Facilities(count: nat) | PerMinute(rate: real)

  /** `wares.get(id)?.find_desired_method(..)?`: the method the planner
      chooses for a ware. */
  function Choice(cfg: Config, id: string): (r: Result<Method>)
    requires WellFormed(cfg)
    ensures r.Ok? ==> Chosen(cfg, id, r.value) && Productive(r.value)
    ensures r.Err? <==> Get(cfg.cat, id).Err? || FindDesiredMethod(Get(cfg.cat, id).value, cfg.priority, cfg.blacklist).Err?
    ensures r.Err? ==> r.error == UnknownWare(id) || r.error == NoProductionMethods(id) || r.error == AllMethodsBlacklisted(id)
  {
    var w :- Get(cfg.cat, id);
    var m :- FindDesiredMethod(w, cfg.priority, cfg.blacklist);
    ChosenIsRanked(cfg, id, m);
    Ok(m)
  }

  /** The output of `count` facilities running `m`. */
  function FacilitiesRate(m: Method, count: nat): (r: real)
    requires Productive(m)
    ensures r >= 0.0 && (count > 0 ==> r > 0.0)
  {
    var one := WaresPerMinute(m);
    NonNegativeProduct(one, count as real);
    PositiveProduct(one, count as real);
    one * (count as real)
  }

  lemma PositiveProduct(a: real, b: real)
    requires a > 0.0 && b >= 0.0
    ensures b > 0.0 ==> a * b > 0.0
  {
  }

  /** `count` facilities yield `count` times `perCycle` wares every
      `cycleSeconds` seconds. */
  lemma FacilitiesRateMeaning(m: Method, count: nat)
    requires Productive(m)
    ensures FacilitiesRate(m, count) * m.cycleSeconds == 60.0 * (m.perCycle as real) * (count as real)
  {
    var one := WaresPerMinute(m);
    WaresPerMinuteMeaning(m);
    ScaledOutput(one, m.cycleSeconds, 60.0 * (m.perCycle as real), count as real);
  }

  lemma ScaledOutput(one: real, t: real, out: real, n: real)
    requires one > 0.0 && one * t == out && n >= 0.0
    ensures one * n >= 0.0 && (n > 0.0 ==> one * n > 0.0)
    ensures (one * n) * t == out * n
  {
  }

  /** A request as a rate: a number of facilities running the ware's
      chosen method yields that many times one facility's output. */
  function Demanded(cfg: Config, id: string, req: Request): (r: Result<real>)
    requires WellFormed(cfg)
    ensures req.PerMinute? ==> r == Ok(req.rate)
    ensures req.Facilities? ==> (r.Ok? <==> Choice(cfg, id).Ok?)
    ensures req.Facilities? && r.Ok? ==> r.value == FacilitiesRate(Choice(cfg, id).value, req.count)
    ensures r.Err? ==> r.error == Choice(cfg, id).error
  {
    match req
    case PerMinute(rate) => Ok(rate)
    case Facilities(count) =>
      var m :- Choice(cfg, id);
      Ok(FacilitiesRate(m, count))
  }

  /** No request asks for a negative rate (`add_wares_rec` panics on one). */
  predicate NonNegative(reqs: seq<(string, Request)>) {
    forall k :: 0 <= k < |reqs| ==> (reqs[k].1.PerMinute? ==> reqs[k].1.rate >= 0.0)
  }

  /** The total rate the requests ask for `x`. */
  function Requested(cfg: Config, reqs: seq<(string, Request)>, x: string): real
    requires WellFormed(cfg)
  {
    if |reqs| == 0 then 0.0
    else
      var d := Demanded(cfg, reqs[0].0, reqs[0].1);
      (if reqs[0].0 == x && d.Ok? then d.value else 0.0) + Requested(cfg, reqs[1..], x)
  }

  /** Every request can be turned into a rate. */
  predicate AllDemanded(cfg: Config, reqs: seq<(string, Request)>)
    requires WellFormed(cfg)
  {
    forall k :: 0 <= k < |reqs| ==> Demanded(cfg, reqs[k].0, reqs[k].1).Ok?
  }

  /** The loop of `calc_required_fabric_counts` over the desired outputs,
      in order, from accumulator `acc`. */
  function RunRequests(cfg: Config, acc: Acc, reqs: seq<(string, Request)>): (r: Result<Acc>)
    requires WellFormed(cfg) && Consistent(cfg, acc) && NonNegative(reqs)
    ensures r.Ok? ==> Consistent(cfg, r.value) && Extends(acc, r.value) && AllDemanded(cfg, reqs)
    ensures r.Ok? ==> forall x :: Net(r.value, x) == Net(acc, x) + Requested(cfg, reqs, x)
    ensures r.Err? ==> r.error.UnknownWare? || r.error.NoProductionMethods? || r.error.AllMethodsBlacklisted?
    ensures r.Err? ==> exists k :: RequestFails(cfg, reqs, k, r.error)
    ensures AllDemanded(cfg, reqs) && AllPlannable(cfg, reqs) ==> r.Ok?
    decreases |reqs|
  {
    if |reqs| == 0 then
      ExtendsRefl(acc);
      Ok(acc)
    else
      match Demanded(cfg, reqs[0].0, reqs[0].1)
      case Err(e) =>
        assert RequestFails(cfg, reqs, 0, e);
        Err(e)
      case Ok(rate) =>
        match AddWaresRec(cfg, acc, reqs[0].0, rate)
        case Err(e) =>
          assert RequestFails(cfg, reqs, 0, e);
          Err(e)
        case Ok(acc2) =>
          assert NonNegative(reqs[1..]) by {
            assert forall k :: 0 <= k < |reqs| - 1 ==> reqs[1..][k] == reqs[k + 1];
          }
          match RunRequests(cfg, acc2, reqs[1..])
          case Err(e) =>
            LaterRequestFails(cfg, reqs, e);
            Err(e)
          case Ok(acc3) =>
            RequestsStep(cfg, acc, acc2, acc3, reqs, rate);
            ExtendsTrans(acc, acc2, acc3);
            Ok(acc3)
  }

  /** Request `k` is the first that fails, with `e`: the requests before
      it turn into rates, and it does not, or its demand reaches a ware
      that fails with `e`. */
  ghost predicate RequestFails(cfg: Config, reqs: seq<(string, Request)>, k: int, e: DataError)
    requires WellFormed(cfg)
  {
    && 0 <= k < |reqs|
    && (forall j :: 0 <= j < k ==> Demanded(cfg, reqs[j].0, reqs[j].1).Ok?)
    && (Demanded(cfg, reqs[k].0, reqs[k].1) == Err(e) || exists w :: Reaches(cfg, reqs[k].0, w) && FailsAt(cfg, w, e))
  }

  /** Every ware the demand of some request can reach can be planned. */
  ghost predicate AllPlannable(cfg: Config, reqs: seq<(string, Request)>)
    requires WellFormed(cfg)
  {
    forall k, w :: 0 <= k < |reqs| && Reaches(cfg, reqs[k].0, w) ==> Plannable(cfg, w)
  }

  /** A failure of the later requests, after a first request that turned
      into a rate, is a failure of the whole list. */
  lemma LaterRequestFails(cfg: Config, reqs: seq<(string, Request)>, e: DataError)
    requires WellFormed(cfg) && |reqs| > 0 && Demanded(cfg, reqs[0].0, reqs[0].1).Ok?
    requires exists k :: RequestFails(cfg, reqs[1..], k, e)
    ensures exists k :: RequestFails(cfg, reqs, k, e)
  {
    var k :| RequestFails(cfg, reqs[1..], k, e);
    assert reqs[k + 1] == reqs[1..][k];
    forall j | 0 <= j < k + 1
      ensures Demanded(cfg, reqs[j].0, reqs[j].1).Ok?
    {
      if j > 0 {
        assert reqs[j] == reqs[1..][j - 1];
      }
    }
    assert RequestFails(cfg, reqs, k + 1, e);
  }

  lemma RequestsStep(cfg: Config, acc: Acc, acc2: Acc, acc3: Acc, reqs: seq<(string, Request)>, rate: real)
    requires WellFormed(cfg) && |reqs| > 0 && Demanded(cfg, reqs[0].0, reqs[0].1) == Ok(rate)
    requires Balanced(acc, acc2, reqs[0].0, rate)
    requires AllDemanded(cfg, reqs[1..])
    requires forall x :: Net(acc3, x) == Net(acc2, x) + Requested(cfg, reqs[1..], x)
    ensures AllDemanded(cfg, reqs)
    ensures forall x :: Net(acc3, x) == Net(acc, x) + Requested(cfg, reqs, x)
  {
    forall k | 0 <= k < |reqs|
      ensures Demanded(cfg, reqs[k].0, reqs[k].1).Ok?
    {
      if k > 0 {
        assert reqs[k] == reqs[1..][k - 1];
      }
    }
  }

  /** `calc_required_fabric_counts` before its output is formatted: the
      accumulator built from nothing by the requests. Every ware's rate
      not consumed by the planned facilities is exactly what the requests
      ask for it, and every entry's facility count just covers its rate. */
  function PlanAll(cfg: Config, reqs: seq<(string, Request)>): (r: Result<Acc>)
    requires WellFormed(cfg) && NonNegative(reqs)
    ensures r.Ok? ==> Consistent(cfg, r.value) && AllDemanded(cfg, reqs)
    ensures r.Ok? ==> forall x :: Rate(r.value, x) == Requested(cfg, reqs, x) + Induced(r.value, x)
    ensures r.Err? ==> r.error.UnknownWare? || r.error.NoProductionMethods? || r.error.AllMethodsBlacklisted?
    ensures r.Err? ==> exists k :: RequestFails(cfg, reqs, k, r.error)
    ensures AllDemanded(cfg, reqs) && AllPlannable(cfg, reqs) ==> r.Ok?
  {
    RunRequests(cfg, [], reqs)
  }
}
