/** The ware catalog read from the game's `wares` document: every ware with
    its prices, transport class, optional name locator and production
    methods, each method with its cycle, output and inputs. */
module Catalog {
  import opened Errors
  import opened Text
  import opened Xml

  /** Where a display name lives in the translation documents: a page id and
      an entry id, both digit strings. */
  datatype Locator = Locator(page: string, item: string)

  /** One production method of a ware: `time` seconds per cycle, `amount`
      wares per cycle, and the wares one cycle consumes. */
  datatype Method = Method(name: string, cycleSeconds: real, perCycle: nat, inputs: seq<(string, nat)>, locator: Locator)

  datatype WareInfo = WareInfo(id: string, priceMin: nat, priceMax: nat, transport: string)

  /** A ware; one with no methods can only be imported. */
  datatype Ware = Ware(info: WareInfo, methods: seq<Method>, locator: Option<Locator>)

  /** The wares in document order. */
  type Catalog = seq<Ware>

  /** The number parsers the loader applies to attribute text: Rust's
      `str::parse` at `u32`, `usize` and `f64`. */
  datatype Parsers = Parsers(u32: string -> Option<nat>, usize: string -> Option<nat>, f64: string -> Option<real>)

  // ---------------------------------------------------------------------
  // `Wares::get`
  // ---------------------------------------------------------------------

  /** `k` is the first ware with that id. */
  predicate FirstWithId(cat: Catalog, id: string, k: int) {
    0 <= k < |cat| && cat[k].info.id == id && forall j :: 0 <= j < k ==> cat[j].info.id != id
  }

  function FindWare(cat: Catalog, id: string): (r: Option<nat>)
    ensures r.Some? ==> FirstWithId(cat, id, r.value)
    ensures r.None? ==> forall k :: 0 <= k < |cat| ==> cat[k].info.id != id
  {
    if |cat| == 0 then None
    else if cat[0].info.id == id then Some(0)
    else
      match FindWare(cat[1..], id)
      case None => None
      case Some(k) => Some(k + 1)
  }

  /** `Wares::get`: the first ware with the id; repeated ids are never
      reported, later duplicates are simply unreachable. */
  function Get(cat: Catalog, id: string): (r: Result<Ware>)
    ensures r.Ok? ==> exists k :: FirstWithId(cat, id, k) && cat[k] == r.value
    ensures r.Err? <==> forall k :: 0 <= k < |cat| ==> cat[k].info.id != id
    ensures r.Err? ==> r.error == UnknownWare(id)
  {
    match FindWare(cat, id)
    case None => Err(UnknownWare(id))
    case Some(k) => Ok(cat[k])
  }

  // ---------------------------------------------------------------------
  // The locator pattern `^\{digits,[[:space:]]*digits}$`
  // ---------------------------------------------------------------------

  /** The text of a locator: `{page,item}`, with ASCII spaces allowed after
      the comma. */
  function LocatorText(page: string, spaces: string, item: string): string {
    "{" + page + "," + spaces + item + "}"
  }

  predicate WellFormedLocator(loc: Locator) {
    |loc.page| > 0 && |loc.item| > 0 && AllDigits(loc.page) && AllDigits(loc.item)
  }

  /** The whole of `s` is a locator: it spells `loc` with some run of ASCII
      spaces after the comma. */
  ghost predicate SpellsLocator(s: string, loc: Locator) {
    exists sp :: AllAsciiSpace(sp) && s == LocatorText(loc.page, sp, loc.item)
  }

  /** The leading digits of `d + rest` are `d` when `rest` does not start
      with a digit. */
  lemma {:induction false} DigitPrefixOf(d: string, rest: string)
    requires AllDigits(d) && (|rest| == 0 || !IsDigit(rest[0]))
    ensures DigitPrefix(d + rest) == |d|
  {
    if |d| > 0 {
      assert (d + rest)[1..] == d[1..] + rest;
      DigitPrefixOf(d[1..], rest);
    }
  }

  lemma {:induction false} SpacePrefixOf(sp: string, rest: string)
    requires AllAsciiSpace(sp) && (|rest| == 0 || !IsAsciiSpace(rest[0]))
    ensures SpacePrefix(sp + rest) == |sp|
  {
    if |sp| > 0 {
      assert (sp + rest)[1..] == sp[1..] + rest;
      SpacePrefixOf(sp[1..], rest);
    }
  }

  /** Reassembling the four pieces the recogniser cut `s` into gives `s`. */
  lemma LocatorPieces(s: string, p: nat, q: nat, k: nat)
    requires 0 < |s| && s[0] == '{'
    requires p < |s| - 1 && s[1..][p] == ','
    requires q <= |s[1..][p + 1..]|
    requires k <= |s[1..][p + 1..][q..]| && s[1..][p + 1..][q..][k..] == "}"
    ensures s == LocatorText(s[1..][..p], s[1..][p + 1..][..q], s[1..][p + 1..][q..][..k])
  {
    Pieces(s, p, q, k);
  }

  /** Cutting a sequence after its first element, around the element at
      `p` of the rest, and then at `q` and `k` loses nothing. */
  lemma Pieces<T>(s: seq<T>, p: nat, q: nat, k: nat)
    requires 0 < |s| && p < |s| - 1
    requires q <= |s[1..][p + 1..]| && k <= |s[1..][p + 1..][q..]|
    ensures s == [s[0]] + s[1..][..p] + [s[1..][p]] + s[1..][p + 1..][..q] + s[1..][p + 1..][q..][..k] + s[1..][p + 1..][q..][k..]
  {
    var t := s[1..];
    var u := t[p + 1..];
    var v := u[q..];
    var head := [s[0]] + t[..p] + [t[p]];
    assert s == [s[0]] + t;
    assert t == (t[..p] + [t[p]]) + u;
    Assoc([s[0]], t[..p] + [t[p]], u);
    Assoc([s[0]], t[..p], [t[p]]);
    assert s == head + u;
    assert u == u[..q] + v && v == v[..k] + v[k..];
    Assoc(head, u[..q], v);
    Assoc(head + u[..q], v[..k], v[k..]);
  }

  lemma Assoc<T>(a: seq<T>, b: seq<T>, c: seq<T>)
    ensures a + (b + c) == (a + b) + c
  {
  }

  /** The recogniser of the locator pattern. The classes digit, space,
      comma and brace are disjoint, so reading each run greedily decides the
      match. */
  function MatchLocator(s: string): (r: Option<Locator>)
    ensures r.Some? ==> WellFormedLocator(r.value) && SpellsLocator(s, r.value)
  {
    if |s| == 0 || s[0] != '{' then None
    else
      var t := s[1..];
      var p := DigitPrefix(t);
      if p == 0 || p == |t| || t[p] != ',' then None
      else
        var u := t[p + 1..];
        var q := SpacePrefix(u);
        var v := u[q..];
        var k := DigitPrefix(v);
        if k == 0 || v[k..] != "}" then None
        else
          LocatorPieces(s, p, q, k);
          Some(Locator(t[..p], v[..k]))
  }

  /** Every spelling of a well-formed locator is recognised, and read back
      as that locator. */
  lemma MatchLocatorComplete(loc: Locator, sp: string)
    requires WellFormedLocator(loc) && AllAsciiSpace(sp)
    ensures MatchLocator(LocatorText(loc.page, sp, loc.item)) == Some(loc)
  {
    var s := LocatorText(loc.page, sp, loc.item);
    Unpieces('{', loc.page, ',', sp, loc.item, '}');
    var t := s[1..];
    DigitPrefixOf(loc.page, [','] + sp + loc.item + ['}']);
    var u := t[|loc.page| + 1..];
    SpacePrefixOf(sp, loc.item + ['}']);
    var v := u[|sp|..];
    DigitPrefixOf(loc.item, ['}']);
  }

  /** The cuts the recogniser makes, on a sequence assembled from known
      pieces, give back the pieces. */
  lemma Unpieces<T>(x: T, a: seq<T>, y: T, b: seq<T>, c: seq<T>, z: T)
    ensures var s := [x] + a + [y] + b + c + [z];
      && s[0] == x
      && s[1..] == a + ([y] + b + c + [z])
      && s[1..][..|a|] == a && s[1..][|a|] == y
      && s[1..][|a| + 1..] == b + (c + [z])
      && s[1..][|a| + 1..][|b|..] == c + [z]
      && s[1..][|a| + 1..][|b|..][..|c|] == c
      && s[1..][|a| + 1..][|b|..][|c|..] == [z]
  {
  }

  // ---------------------------------------------------------------------
  // `read_translation`
  // ---------------------------------------------------------------------

  /** `read_translation`: the locator in the trimmed `name` attribute. Text
      that is not a locator is `AttributeBadValue` when the locator is
      required and no locator when it is optional. */
  function ReadLocator(n: Node, required: bool): (r: Result<Option<Locator>>)
    ensures Attribute(n, "name").None? <==> r == Err(AttributeNotFound("name"))
    ensures r.Ok? && r.value.Some? ==>
      && Attribute(n, "name").Some?
      && WellFormedLocator(r.value.value)
      && SpellsLocator(Trim(Attribute(n, "name").value), r.value.value)
    ensures r.Ok? && r.value.None? ==>
      !required && Attribute(n, "name").Some? && MatchLocator(Trim(Attribute(n, "name").value)).None?
    ensures r.Err? ==> r.error == AttributeNotFound("name") || r.error == AttributeBadValue("name")
    ensures r == Err(AttributeBadValue("name")) <==>
      required && Attribute(n, "name").Some? && MatchLocator(Trim(Attribute(n, "name").value)).None?
  {
    var text :- GetAttr(n, "name");
    match MatchLocator(Trim(text))
    case Some(loc) => Ok(Some(loc))
    case None => if required then Err(AttributeBadValue("name")) else Ok(None)
  }

  // ---------------------------------------------------------------------
  // The inputs of a production method
  // ---------------------------------------------------------------------

  predicate DistinctKeys(kv: seq<(string, nat)>) {
    forall a, b :: 0 <= a < b < |kv| ==> kv[a].0 != kv[b].0
  }

  function KeyIndex(kv: seq<(string, nat)>, key: string): (r: Option<nat>)
    ensures r.Some? ==> r.value < |kv| && kv[r.value].0 == key
    ensures r.None? ==> forall k :: 0 <= k < |kv| ==> kv[k].0 != key
  {
    if |kv| == 0 then None
    else
      match KeyIndex(kv[..|kv| - 1], key)
      case Some(k) => Some(k)
      case None => if kv[|kv| - 1].0 == key then Some(|kv| - 1) else None
  }

  /** An input entry with a `ware` attribute and a parseable `amount`. */
  predicate InputOk(n: Node, usize: string -> Option<nat>) {
    && Attribute(n, "ware").Some?
    && Attribute(n, "amount").Some?
    && usize(Attribute(n, "amount").value).Some?
  }

  /** No two input entries name the same ware. */
  predicate DistinctWares(ns: seq<Node>) {
    forall a, b :: 0 <= a < b < |ns| && Attribute(ns[a], "ware").Some? && Attribute(ns[b], "ware").Some? ==>
      Attribute(ns[a], "ware").value != Attribute(ns[b], "ware").value
  }

  predicate AllInputsOk(ns: seq<Node>, usize: string -> Option<nat>) {
    forall k :: 0 <= k < |ns| ==> InputOk(ns[k], usize)
  }

  /** The input `e` is what the entry `n` says. */
  predicate InputEntry(n: Node, usize: string -> Option<nat>, e: (string, nat)) {
    Attribute(n, "ware") == Some(e.0) && Attribute(n, "amount").Some? && usize(Attribute(n, "amount").value) == Some(e.1)
  }

  predicate InputsRead(ns: seq<Node>, usize: string -> Option<nat>, kv: seq<(string, nat)>) {
    |kv| == |ns| && forall k :: 0 <= k < |ns| ==> InputEntry(ns[k], usize, kv[k])
  }

  lemma InputsPrefix(ns: seq<Node>, usize: string -> Option<nat>)
    requires |ns| > 0
    ensures AllInputsOk(ns, usize) ==> AllInputsOk(ns[..|ns| - 1], usize)
    ensures DistinctWares(ns) ==> DistinctWares(ns[..|ns| - 1])
  {
    var init := ns[..|ns| - 1];
    assert forall k :: 0 <= k < |init| ==> init[k] == ns[k];
  }

  lemma InputsSnoc(ns: seq<Node>, usize: string -> Option<nat>, prev: seq<(string, nat)>, e: (string, nat))
    requires |ns| > 0
    requires InputsRead(ns[..|ns| - 1], usize, prev) && DistinctKeys(prev)
    requires InputEntry(ns[|ns| - 1], usize, e)
    requires forall k :: 0 <= k < |prev| ==> prev[k].0 != e.0
    ensures InputsRead(ns, usize, prev + [e]) && DistinctKeys(prev + [e])
    ensures AllInputsOk(ns, usize) && DistinctWares(ns)
  {
    var init := ns[..|ns| - 1];
    var r := prev + [e];
    forall k | 0 <= k < |ns|
      ensures InputEntry(ns[k], usize, r[k]) && InputOk(ns[k], usize)
    {
      if k < |init| {
        assert init[k] == ns[k] && r[k] == prev[k];
      }
    }
  }

  /** The fold over the `<ware>` entries of `<primary>`: each entry's ware
      and amount, failing on a missing attribute, a bad amount or a ware
      listed twice. */
  function ReadInputs(ns: seq<Node>, usize: string -> Option<nat>): (r: Result<seq<(string, nat)>>)
    ensures r.Ok? <==> AllInputsOk(ns, usize) && DistinctWares(ns)
    ensures r.Ok? ==> InputsRead(ns, usize, r.value) && DistinctKeys(r.value)
  {
    if |ns| == 0 then
      Ok([])
    else
      var last := ns[|ns| - 1];
      InputsPrefix(ns, usize);
      var prev :- ReadInputs(ns[..|ns| - 1], usize);
      var key :- GetAttr(last, "ware");
      if KeyIndex(prev, key).Some? then
        assert !DistinctWares(ns) by {
          var a := KeyIndex(prev, key).value;
          assert ns[..|ns| - 1][a] == ns[a];
          assert Attribute(ns[a], "ware").value == key;
        }
        Err(DuplicateValue(key))
      else
        var amount :- GetParsed(last, "amount", usize);
        InputsSnoc(ns, usize, prev, (key, amount));
        Ok(prev + [(key, amount)])
  }

  /** The inputs of a production: the entries of its `<primary>` child when
      they all read cleanly, and none at all otherwise. A missing
      `<primary>`, a repeated ware or a bad entry loses every input without
      failing the load. */
  function ProductionInputs(prod: Node, usize: string -> Option<nat>): (r: seq<(string, nat)>)
    ensures DistinctKeys(r)
    ensures r == [] || (FindChild(prod, "primary").Ok? && ReadInputs(WithTag(Children(FindChild(prod, "primary").value), "ware"), usize) == Ok(r))
    ensures FindChild(prod, "primary").Ok? && ReadInputs(WithTag(Children(FindChild(prod, "primary").value), "ware"), usize).Ok? ==>
      r == ReadInputs(WithTag(Children(FindChild(prod, "primary").value), "ware"), usize).value
  {
    match FindChild(prod, "primary")
    case Err(_) => []
    case Ok(primary) =>
      match ReadInputs(WithTag(Children(primary), "ware"), usize)
      case Ok(inputs) => inputs
      case Err(_) => []
  }

  // ---------------------------------------------------------------------
  // Production methods
  // ---------------------------------------------------------------------

  /** A `<production>` element with a name and a readable `time`. */
  predicate TimeRead(p: Node, ps: Parsers) {
    Attribute(p, "method").Some? && GetParsed(p, "time", ps.f64).Ok?
  }

  /** One `<production>` element: the `method` name, `time`, `amount`,
      the inputs and the required name locator, in that order. */
  function ReadMethod(p: Node, ps: Parsers): (r: Result<Method>)
    ensures r.Ok? <==>
      && Attribute(p, "method").Some?
      && GetParsed(p, "time", ps.f64).Ok?
      && GetParsed(p, "amount", ps.usize).Ok?
      && ReadLocator(p, true).Ok?
    ensures r.Ok? ==>
      && Attribute(p, "method") == Some(r.value.name)
      && ps.f64(Attribute(p, "time").value) == Some(r.value.cycleSeconds)
      && ps.usize(Attribute(p, "amount").value) == Some(r.value.perCycle)
      && r.value.inputs == ProductionInputs(p, ps.usize)
      && ReadLocator(p, true) == Ok(Some(r.value.locator))
    ensures Attribute(p, "method").None? ==> r == Err(AttributeNotFound("method"))
    ensures Attribute(p, "method").Some? && GetParsed(p, "time", ps.f64).Err? ==> r == Err(GetParsed(p, "time", ps.f64).error)
    ensures TimeRead(p, ps) && GetParsed(p, "amount", ps.usize).Err? ==> r == Err(GetParsed(p, "amount", ps.usize).error)
    ensures TimeRead(p, ps) && GetParsed(p, "amount", ps.usize).Ok? && ReadLocator(p, true).Err? ==>
      r == Err(ReadLocator(p, true).error)
  {
    var name :- GetAttr(p, "method");
    var time :- GetParsed(p, "time", ps.f64);
    var amount :- GetParsed(p, "amount", ps.usize);
    var inputs := ProductionInputs(p, ps.usize);
    var loc :- ReadLocator(p, true);
    Ok(Method(name, time, amount, inputs, loc.value))
  }

  /** A `<production>` element the loader accepts on its own terms. */
  predicate MethodOk(p: Node, ps: Parsers) {
    ReadMethod(p, ps).Ok?
  }

  /** The method one accepted `<production>` element describes. */
  predicate Describes(p: Node, ps: Parsers, m: Method) {
    ReadMethod(p, ps) == Ok(m)
  }

  predicate AllMethodsOk(prods: seq<Node>, ps: Parsers) {
    forall k :: 0 <= k < |prods| ==> MethodOk(prods[k], ps)
  }

  predicate DistinctMethodNames(prods: seq<Node>) {
    forall a, b :: 0 <= a < b < |prods| && Attribute(prods[a], "method").Some? && Attribute(prods[b], "method").Some? ==>
      Attribute(prods[a], "method").value != Attribute(prods[b], "method").value
  }

  predicate DistinctNames(ms: seq<Method>) {
    forall a, b :: 0 <= a < b < |ms| ==> ms[a].name != ms[b].name
  }

  /** `ms` is what the loader made of `prods`. */
  predicate MethodsRead(prods: seq<Node>, ps: Parsers, ms: seq<Method>) {
    |ms| == |prods| && forall k :: 0 <= k < |prods| ==> Describes(prods[k], ps, ms[k])
  }

  /** Two `<production>` elements share the method name `name`. */
  ghost predicate NameRepeated(prods: seq<Node>, name: string) {
    exists a, b :: 0 <= a < b < |prods| && Attribute(prods[a], "method") == Some(name) && Attribute(prods[b], "method") == Some(name)
  }

  function NameIndex(ms: seq<Method>, name: string): (r: Option<nat>)
    ensures r.Some? ==> r.value < |ms| && ms[r.value].name == name
    ensures r.None? ==> forall k :: 0 <= k < |ms| ==> ms[k].name != name
  {
    if |ms| == 0 then None
    else
      match NameIndex(ms[..|ms| - 1], name)
      case Some(k) => Some(k)
      case None => if ms[|ms| - 1].name == name then Some(|ms| - 1) else None
  }

  /** Appending an accepted element keeps the methods in step with the
      elements. */
  lemma MethodsReadSnoc(prods: seq<Node>, ps: Parsers, prev: seq<Method>, m: Method)
    requires |prods| > 0
    requires MethodsRead(prods[..|prods| - 1], ps, prev)
    requires Describes(prods[|prods| - 1], ps, m)
    ensures MethodsRead(prods, ps, prev + [m])
  {
    PointwiseSnoc(prods, prev, m, (p, mm) => Describes(p, ps, mm));
  }

  /** A relation that holds pairwise between all but the last element of
      `xs` and `ys` holds between `xs` and `ys` extended by a value related
      to that last element. */
  lemma PointwiseSnoc<A, B>(xs: seq<A>, ys: seq<B>, y: B, rel: (A, B) -> bool)
    requires |xs| > 0 && |ys| == |xs| - 1 && rel(xs[|xs| - 1], y)
    requires forall k :: 0 <= k < |ys| ==> rel(xs[..|xs| - 1][k], ys[k])
    ensures forall k :: 0 <= k < |xs| ==> rel(xs[k], (ys + [y])[k])
  {
    forall k | 0 <= k < |xs|
      ensures rel(xs[k], (ys + [y])[k])
    {
      if k < |ys| {
        assert xs[..|xs| - 1][k] == xs[k];
      }
    }
  }

  /** A new name keeps the names distinct. */
  lemma DistinctNamesSnoc(prev: seq<Method>, m: Method)
    requires DistinctNames(prev)
    requires forall k :: 0 <= k < |prev| ==> prev[k].name != m.name
    ensures DistinctNames(prev + [m])
  {
    var r := prev + [m];
    assert forall k :: 0 <= k < |prev| ==> r[k] == prev[k];
  }

  /** Elements read into distinct methods are accepted and carry distinct
      names. */
  lemma MethodsReadAccepted(prods: seq<Node>, ps: Parsers, ms: seq<Method>)
    requires MethodsRead(prods, ps, ms) && DistinctNames(ms)
    ensures AllMethodsOk(prods, ps) && DistinctMethodNames(prods)
  {
    forall k | 0 <= k < |prods|
      ensures MethodOk(prods[k], ps) && Attribute(prods[k], "method") == Some(ms[k].name)
    {
      assert Describes(prods[k], ps, ms[k]);
    }
  }

  /** A rejected prefix rejects the whole list with the same error. */
  lemma MethodsPrefixFails(prods: seq<Node>, ps: Parsers)
    requires |prods| > 0
    ensures AllMethodsOk(prods, ps) ==> AllMethodsOk(prods[..|prods| - 1], ps)
    ensures DistinctMethodNames(prods) ==> DistinctMethodNames(prods[..|prods| - 1])
    ensures forall name :: NameRepeated(prods[..|prods| - 1], name) ==> NameRepeated(prods, name)
  {
    var init := prods[..|prods| - 1];
    assert forall k :: 0 <= k < |init| ==> init[k] == prods[k];
  }

  /** The loop over the `<production>` children of one ware: a method per
      element, failing on the first element that does not read or that
      repeats an earlier name. */
  function ReadMethods(prods: seq<Node>, ps: Parsers): (r: Result<seq<Method>>)
    ensures r.Ok? <==> AllMethodsOk(prods, ps) && DistinctMethodNames(prods)
    ensures r.Ok? ==> MethodsRead(prods, ps, r.value) && DistinctNames(r.value)
    ensures r.Err? && AllMethodsOk(prods, ps) ==> r.error.DuplicateValue? && NameRepeated(prods, r.error.key)
    ensures r.Err? ==> exists k :: RejectedWith(prods, ps, k, r.error)
  {
    if |prods| == 0 then
      Ok([])
    else
      MethodsPrefixFails(prods, ps);
      match ReadMethods(prods[..|prods| - 1], ps)
      case Err(e) =>
        RejectedInPrefix(prods, prods[..|prods| - 1], ps, e);
        Err(e)
      case Ok(prev) =>
        match ReadNext(prods, ps, prev)
        case Err(e) =>
          LastRejected(prods, ps, prev, e);
          Err(e)
        case Ok(m) =>
          AcceptedSnoc(prods, ps, prev, m);
          Ok(prev + [m])
  }

  /** One round of the loop, on the last element once those before it have
      been read into `prev`: its name, the check against the names read so
      far, then the element itself. */
  function ReadNext(prods: seq<Node>, ps: Parsers, prev: seq<Method>): (r: Result<Method>)
    requires |prods| > 0 && MethodsRead(prods[..|prods| - 1], ps, prev)
    ensures r.Ok? ==> Describes(prods[|prods| - 1], ps, r.value) && NameIndex(prev, r.value.name).None?
    ensures r.Err? ==> ElementError(prods, ps, |prods| - 1) == Some(r.error)
    ensures r.Err? ==>
      || !MethodOk(prods[|prods| - 1], ps)
      || (r.error.DuplicateValue? && NameRepeated(prods, r.error.key) && !DistinctMethodNames(prods))
  {
    var p := prods[|prods| - 1];
    match GetAttr(p, "method")
    case Err(e) => Err(e)
    case Ok(name) =>
      ReadNames(prods[..|prods| - 1], ps, prev);
      LastRepeats(prods, prev, name);
      if NameIndex(prev, name).Some? then
        DuplicateRejected(prods, ps, prev, name);
        Err(DuplicateValue(name))
      else
        ReadMethod(p, ps)
  }

  /** Element `k` carries a method name an earlier element already has. */
  predicate Repeats(prods: seq<Node>, k: nat)
    requires k < |prods|
  {
    exists i :: 0 <= i < k && Attribute(prods[i], "method") == Attribute(prods[k], "method")
  }

  /** What the loop makes of element `k` once every element before it has
      been read: a missing name, a repeated name, or the element's own
      error; `None` when it reads. */
  function ElementError(prods: seq<Node>, ps: Parsers, k: nat): Option<DataError>
    requires k < |prods|
  {
    match Attribute(prods[k], "method")
    case None => Some(AttributeNotFound("method"))
    case Some(name) =>
      if Repeats(prods, k) then Some(DuplicateValue(name))
      else if ReadMethod(prods[k], ps).Err? then Some(ReadMethod(prods[k], ps).error)
      else None
  }

  /** `k` is the first element the loop rejects. */
  predicate FirstRejected(prods: seq<Node>, ps: Parsers, k: int) {
    0 <= k < |prods| && ElementError(prods, ps, k).Some? && forall j :: 0 <= j < k ==> ElementError(prods, ps, j).None?
  }

  /** The loop stops at element `k`, with error `e`. */
  predicate RejectedWith(prods: seq<Node>, ps: Parsers, k: int, e: DataError) {
    FirstRejected(prods, ps, k) && ElementError(prods, ps, k) == Some(e)
  }

  /** An element's fate depends only on the elements before it. */
  lemma ElementErrorPrefix(prods: seq<Node>, ps: Parsers, j: nat)
    requires j < |prods| - 1
    ensures ElementError(prods[..|prods| - 1], ps, j) == ElementError(prods, ps, j)
  {
    var init := prods[..|prods| - 1];
    assert forall i :: 0 <= i <= j ==> init[i] == prods[i];
    assert Repeats(init, j) <==> Repeats(prods, j);
  }

  /** The first element rejected among all but the last is the first
      rejected overall. */
  lemma RejectedInPrefix(prods: seq<Node>, init: seq<Node>, ps: Parsers, e: DataError)
    requires |prods| > 0 && init == prods[..|prods| - 1]
    requires exists k :: RejectedWith(init, ps, k, e)
    ensures exists k :: RejectedWith(prods, ps, k, e)
  {
    var k :| RejectedWith(init, ps, k, e);
    forall j | 0 <= j <= k
      ensures ElementError(prods, ps, j) == ElementError(init, ps, j)
    {
      ElementErrorPrefix(prods, ps, j);
    }
    assert RejectedWith(prods, ps, k, e);
  }

  /** After elements read into distinct methods, a rejected last element
      is the first rejected. */
  lemma LastRejected(prods: seq<Node>, ps: Parsers, prev: seq<Method>, e: DataError)
    requires |prods| > 0 && MethodsRead(prods[..|prods| - 1], ps, prev) && DistinctNames(prev)
    requires ElementError(prods, ps, |prods| - 1) == Some(e)
    ensures exists k :: RejectedWith(prods, ps, k, e)
  {
    PrefixAccepted(prods, ps, prev);
    assert RejectedWith(prods, ps, |prods| - 1, e);
  }

  /** Elements read into distinct methods are each accepted. */
  lemma PrefixAccepted(prods: seq<Node>, ps: Parsers, prev: seq<Method>)
    requires |prods| > 0 && MethodsRead(prods[..|prods| - 1], ps, prev) && DistinctNames(prev)
    ensures forall j :: 0 <= j < |prods| - 1 ==> ElementError(prods, ps, j).None?
  {
    forall j | 0 <= j < |prods| - 1
      ensures ElementError(prods, ps, j).None?
    {
      AcceptedAt(prods, ps, prev, j);
    }
  }

  lemma AcceptedAt(prods: seq<Node>, ps: Parsers, prev: seq<Method>, j: nat)
    requires |prods| > 0 && MethodsRead(prods[..|prods| - 1], ps, prev) && DistinctNames(prev)
    requires j < |prods| - 1
    ensures ElementError(prods, ps, j).None?
  {
    assert prods[..|prods| - 1][j] == prods[j];
    assert ReadMethod(prods[j], ps) == Ok(prev[j]);
    ReadNames(prods[..|prods| - 1], ps, prev);
    NotRepeated(prods, prev, j);
  }

  /** Each element carries the name of the method at its position. */
  predicate NamesOf(prods: seq<Node>, ms: seq<Method>) {
    |ms| == |prods| && forall k :: 0 <= k < |prods| ==> Attribute(prods[k], "method") == Some(ms[k].name)
  }

  lemma ReadNames(prods: seq<Node>, ps: Parsers, ms: seq<Method>)
    requires MethodsRead(prods, ps, ms)
    ensures NamesOf(prods, ms)
  {
    forall k | 0 <= k < |prods|
      ensures Attribute(prods[k], "method") == Some(ms[k].name)
    {
      assert Describes(prods[k], ps, ms[k]);
    }
  }

  /** An element named after one of distinct methods repeats no earlier
      element's name. */
  lemma NotRepeated(prods: seq<Node>, prev: seq<Method>, j: nat)
    requires |prods| > 0 && NamesOf(prods[..|prods| - 1], prev) && DistinctNames(prev)
    requires j < |prods| - 1
    ensures !Repeats(prods, j)
  {
    var init := prods[..|prods| - 1];
    assert init[j] == prods[j];
    forall i | 0 <= i < j
      ensures Attribute(prods[i], "method") != Attribute(prods[j], "method")
    {
      assert init[i] == prods[i];
    }
  }

  /** The last element repeats a name exactly when the methods read so far
      have it. */
  lemma LastRepeats(prods: seq<Node>, prev: seq<Method>, name: string)
    requires |prods| > 0 && NamesOf(prods[..|prods| - 1], prev)
    requires Attribute(prods[|prods| - 1], "method") == Some(name)
    ensures Repeats(prods, |prods| - 1) <==> NameIndex(prev, name).Some?
  {
    var init := prods[..|prods| - 1];
    if NameIndex(prev, name).Some? {
      var a := NameIndex(prev, name).value;
      assert init[a] == prods[a];
    } else {
      forall i | 0 <= i < |prods| - 1
        ensures Attribute(prods[i], "method") != Some(name)
      {
        assert init[i] == prods[i];
      }
    }
  }

  /** A name already read makes the last element a repetition. */
  lemma DuplicateRejected(prods: seq<Node>, ps: Parsers, prev: seq<Method>, name: string)
    requires |prods| > 0 && MethodsRead(prods[..|prods| - 1], ps, prev)
    requires Attribute(prods[|prods| - 1], "method") == Some(name) && NameIndex(prev, name).Some?
    ensures !DistinctMethodNames(prods) && NameRepeated(prods, name)
  {
    var a := NameIndex(prev, name).value;
    assert prods[..|prods| - 1][a] == prods[a];
    assert Describes(prods[a], ps, prev[a]);
    assert Attribute(prods[a], "method") == Some(name);
  }

  /** A method with a new name extends what was read. */
  lemma AcceptedSnoc(prods: seq<Node>, ps: Parsers, prev: seq<Method>, m: Method)
    requires |prods| > 0 && MethodsRead(prods[..|prods| - 1], ps, prev) && DistinctNames(prev)
    requires Describes(prods[|prods| - 1], ps, m) && NameIndex(prev, m.name).None?
    ensures MethodsRead(prods, ps, prev + [m]) && DistinctNames(prev + [m])
    ensures AllMethodsOk(prods, ps) && DistinctMethodNames(prods)
  {
    MethodsReadSnoc(prods, ps, prev, m);
    DistinctNamesSnoc(prev, m);
    MethodsReadAccepted(prods, ps, prev + [m]);
  }

  // ---------------------------------------------------------------------
  // Wares and the whole document
  // ---------------------------------------------------------------------

  /** A `<ware>` element with both an id and a transport attribute. */
  predicate Labelled(n: Node) {
    Attribute(n, "id").Some? && Attribute(n, "transport").Some?
  }

  /** Moreover it has a `<price>` child. */
  predicate PriceFound(n: Node) {
    Labelled(n) && FindChild(n, "price").Ok?
  }

  /** Moreover both price bounds read as `u32`. */
  predicate PriceRead(n: Node, ps: Parsers) {
    && PriceFound(n)
    && GetParsed(FindChild(n, "price").value, "min", ps.u32).Ok?
    && GetParsed(FindChild(n, "price").value, "max", ps.u32).Ok?
  }

  /** One `<ware>` element: id, transport, the `<price>` bounds, the
      optional name locator and the production methods, read in that order. */
  function ReadWare(n: Node, ps: Parsers): (r: Result<Ware>)
    ensures r.Ok? ==>
      && Attribute(n, "id") == Some(r.value.info.id)
      && Attribute(n, "transport") == Some(r.value.info.transport)
      && FindChild(n, "price").Ok?
      && GetParsed(FindChild(n, "price").value, "min", ps.u32) == Ok(r.value.info.priceMin)
      && GetParsed(FindChild(n, "price").value, "max", ps.u32) == Ok(r.value.info.priceMax)
      && ReadLocator(n, false) == Ok(r.value.locator)
      && ReadMethods(WithTag(Children(n), "production"), ps) == Ok(r.value.methods)
    ensures Attribute(n, "id").None? ==> r == Err(AttributeNotFound("id"))
    ensures Attribute(n, "id").Some? && Attribute(n, "transport").None? ==> r == Err(AttributeNotFound("transport"))
    ensures r.Ok? <==> PriceRead(n, ps) && ReadLocator(n, false).Ok? && ReadMethods(WithTag(Children(n), "production"), ps).Ok?
    ensures Labelled(n) && FindChild(n, "price").Err? ==> r == Err(TagNotFound("price"))
    ensures PriceFound(n) && GetParsed(FindChild(n, "price").value, "min", ps.u32).Err? ==>
      r == Err(GetParsed(FindChild(n, "price").value, "min", ps.u32).error)
    ensures (PriceFound(n) && GetParsed(FindChild(n, "price").value, "min", ps.u32).Ok?
             && GetParsed(FindChild(n, "price").value, "max", ps.u32).Err?) ==>
      r == Err(GetParsed(FindChild(n, "price").value, "max", ps.u32).error)
    ensures PriceRead(n, ps) && ReadLocator(n, false).Err? ==> r == Err(ReadLocator(n, false).error)
    ensures PriceRead(n, ps) && ReadLocator(n, false).Ok? && ReadMethods(WithTag(Children(n), "production"), ps).Err? ==>
      r == Err(ReadMethods(WithTag(Children(n), "production"), ps).error)
  {
    var id :- GetAttr(n, "id");
    var transport :- GetAttr(n, "transport");
    var price :- FindChild(n, "price");
    var min :- GetParsed(price, "min", ps.u32);
    var max :- GetParsed(price, "max", ps.u32);
    var loc :- ReadLocator(n, false);
    var methods :- ReadMethods(WithTag(Children(n), "production"), ps);
    Ok(Ware(WareInfo(id, min, max, transport), methods, loc))
  }

  /** `k` is the first ware element the loader rejects. */
  predicate FirstFailing(ns: seq<Node>, ps: Parsers, k: int) {
    0 <= k < |ns| && ReadWare(ns[k], ps).Err? && forall j :: 0 <= j < k ==> ReadWare(ns[j], ps).Ok?
  }

  predicate AllWaresRead(ns: seq<Node>, ps: Parsers) {
    forall k :: 0 <= k < |ns| ==> ReadWare(ns[k], ps).Ok?
  }

  /** `cat` is what the loader made of the ware elements `ns`. */
  predicate WaresRead(ns: seq<Node>, ps: Parsers, cat: Catalog) {
    |cat| == |ns| && forall k :: 0 <= k < |ns| ==> ReadWare(ns[k], ps) == Ok(cat[k])
  }

  /** Some ware element fails, and the first to fail fails with `e`. */
  ghost predicate FailsWith(ns: seq<Node>, ps: Parsers, e: DataError) {
    exists k :: FirstFailing(ns, ps, k) && ReadWare(ns[k], ps) == Err(e)
  }

  lemma WaresReadCons(ns: seq<Node>, ps: Parsers, w: Ware, rest: Catalog)
    requires |ns| > 0 && ReadWare(ns[0], ps) == Ok(w) && WaresRead(ns[1..], ps, rest)
    ensures WaresRead(ns, ps, [w] + rest) && AllWaresRead(ns, ps)
  {
    PointwiseCons(ns, w, rest, (n, x) => ReadWare(n, ps) == Ok(x));
  }

  /** A relation that holds pairwise between all but the first element of
      `xs` and `ys` holds between `xs` and `ys` preceded by a value related
      to that first element. */
  lemma PointwiseCons<A, B>(xs: seq<A>, y: B, ys: seq<B>, rel: (A, B) -> bool)
    requires |xs| > 0 && |ys| == |xs| - 1 && rel(xs[0], y)
    requires forall k :: 0 <= k < |ys| ==> rel(xs[1..][k], ys[k])
    ensures forall k :: 0 <= k < |xs| ==> rel(xs[k], ([y] + ys)[k])
  {
    forall k | 0 <= k < |xs|
      ensures rel(xs[k], ([y] + ys)[k])
    {
      if k > 0 {
        assert xs[1..][k - 1] == xs[k];
      }
    }
  }

  lemma FailsWithCons(ns: seq<Node>, ps: Parsers, e: DataError)
    requires |ns| > 0 && ReadWare(ns[0], ps).Ok? && FailsWith(ns[1..], ps, e)
    ensures FailsWith(ns, ps, e) && !AllWaresRead(ns, ps)
  {
    var k :| FirstFailing(ns[1..], ps, k) && ReadWare(ns[1..][k], ps) == Err(e);
    FirstBadCons(ns, n => ReadWare(n, ps).Ok?, k);
    assert FirstFailing(ns, ps, k + 1);
  }

  /** The first element of the tail that fails a test is, one place further
      on, the first element of the whole sequence to fail it. */
  lemma FirstBadCons<A>(xs: seq<A>, ok: A -> bool, k: nat)
    requires |xs| > 0 && ok(xs[0]) && k < |xs| - 1
    requires forall j :: 0 <= j < k ==> ok(xs[1..][j])
    ensures xs[1..][k] == xs[k + 1]
    ensures forall j :: 0 <= j < k + 1 ==> ok(xs[j])
  {
    forall j | 0 <= j < k + 1
      ensures ok(xs[j])
    {
      if j > 0 {
        assert xs[1..][j - 1] == xs[j];
      }
    }
  }

  /** The loop over the `<ware>` elements: every ware, in document order,
      or the error of the first that fails. */
  function ReadWares(ns: seq<Node>, ps: Parsers): (r: Result<Catalog>)
    ensures r.Ok? <==> AllWaresRead(ns, ps)
    ensures r.Ok? ==> WaresRead(ns, ps, r.value)
    ensures r.Err? ==> FailsWith(ns, ps, r.error)
  {
    if |ns| == 0 then
      Ok([])
    else
      match ReadWare(ns[0], ps)
      case Err(e) =>
        assert FirstFailing(ns, ps, 0);
        Err(e)
      case Ok(w) =>
        match ReadWares(ns[1..], ps)
        case Err(e) =>
          FailsWithCons(ns, ps, e);
          Err(e)
        case Ok(rest) =>
          WaresReadCons(ns, ps, w, rest);
          Ok([w] + rest)
  }

  /** `Wares::load_from_xml`: the `<ware>` children of the root element. */
  function LoadFromXml(root: Node, ps: Parsers): (r: Result<Catalog>)
    ensures r.Ok? <==> AllWaresRead(WithTag(Children(root), "ware"), ps)
    ensures r.Ok? ==> WaresRead(WithTag(Children(root), "ware"), ps, r.value)
    ensures r.Err? ==> FailsWith(WithTag(Children(root), "ware"), ps, r.error)
  {
    ReadWares(WithTag(Children(root), "ware"), ps)
  }
}
