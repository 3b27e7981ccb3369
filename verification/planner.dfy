/** `Data`: the loaded game data and the planner's entry points on it.
    Both XML files are loaded into a catalog and its translations; a
    request in the user's language is turned back into ids, validated,
    planned and reported with display names. */
module Planner {
  import opened Errors
  import opened Xml
  import opened Catalog
  import opened Selection
  import opened MethodList
  import opened Demand
  import opened Translations
  import opened Reverse
  import opened Slicing
  import opened Languages

  /** The ware catalog and its translations. */
  datatype Data = Data(cat: Catalog, tr: Translations)

  // ---------------------------------------------------------------------
  // `Data::load_data_str`
  // ---------------------------------------------------------------------

  /** The wares regions of a text: at most one. */
  function WaresSlices(input: string): (r: seq<string>)
    ensures |r| <= 1
  {
    WaresSectionSingle(input);
    Slices(FindWaresSlice, input)
  }

  /** The `<language>` regions of a translations text. */
  function TranslationSlices(input: string): seq<string> {
    TranslationFinderShrinks();
    Slices(FindTranslationSlice, input)
  }

  /** Every method the catalog loader accepts has a digit-pair locator, so
      the method list can always be generated for a loaded catalog. */
  lemma LoadedLocatorsNumeric(root: Node, ps: Parsers, cat: Catalog)
    requires LoadFromXml(root, ps) == Ok(cat)
    ensures NumericLocators(cat)
  {
    var ns := WithTag(Children(root), "ware");
    assert WaresRead(ns, ps, cat);
    forall k, j | 0 <= k < |cat| && 0 <= j < |cat[k].methods|
      ensures WellFormedLocator(cat[k].methods[j].locator)
    {
      assert ReadWare(ns[k], ps) == Ok(cat[k]);
      var prods := WithTag(Children(ns[k]), "production");
      assert MethodsRead(prods, ps, cat[k].methods);
      assert Describes(prods[j], ps, cat[k].methods[j]);
      assert ReadLocator(prods[j], true) == Ok(Some(cat[k].methods[j].locator));
    }
  }

  /** An item some table is built from is one of the listed items. */
  lemma {:induction false} FirstResolvedListed(look: Locator -> Option<string>, items: seq<(string, Locator)>, id: string)
    requires FirstResolved(look, items, id).Some?
    ensures exists loc :: (id, loc) in items
    decreases |items|
  {
    if items[0].0 == id && look(items[0].1).Some? {
      assert (id, items[0].1) in items;
    } else {
      FirstResolvedListed(look, items[1..], id);
      var loc :| (id, loc) in items[1..];
      assert (id, loc) in items;
    }
  }

  /** The loaded tables translate nothing but the catalog's items: every
      translated id is a ware's id or one of its methods' names. */
  lemma TranslatedItemsCatalogued(docs: seq<Node>, cat: Catalog, langIds: seq<(string, string)>, code: string, item: string)
    requires Holds(LoadAll(docs, cat, langIds), code, item)
    ensures exists w :: w in cat && (w.info.id == item || exists m :: m in w.methods && m.name == item)
  {
    LoadedValue(docs, cat, langIds, code, item);
    var k, lang :| && 0 <= k < |langIds| && langIds[k].0 == code
                   && LanguageDoc(docs, langIds[k].1) == Some(lang)
                   && FirstResolved(loc => Lookup(lang, loc), ItemsOf(cat), item) == Some(LoadAll(docs, cat, langIds).tables[code][item]);
    FirstResolvedListed(loc => Lookup(lang, loc), ItemsOf(cat), item);
    var loc :| (item, loc) in ItemsOf(cat);
    var w :| w in cat && NamedBy(w, (item, loc));
    if w.info.id != item {
      var m :| m in w.methods && (m.name, m.locator) == (item, loc);
      assert m.name == item;
    }
  }

  /** The wares text holds one wares document, it parses, and so does the
      language list cut from the same text. */
  predicate WaresTextRead(waresText: string, parse: string -> Option<Node>) {
    && |WaresSlices(waresText)| == 1
    && ParseAll(WaresSlices(waresText), parse).Ok?
    && FindLangs(waresText, parse).Ok?
  }

  /** Moreover the catalog loads from the wares document. */
  predicate CatalogRead(waresText: string, parse: string -> Option<Node>, ps: Parsers) {
    WaresTextRead(waresText, parse) && LoadFromXml(ParseAll(WaresSlices(waresText), parse).value[0], ps).Ok?
  }

  /** `Data::load_data_str`: the single wares document, the language list
      cut from the same text, the catalog read from that document, then
      every translation document and the tables built from them. The
      first stage that fails decides the error. */
  method LoadDataStr(waresText: string, translationText: string, parse: string -> Option<Node>, ps: Parsers)
    returns (r: Result<Data>)
    ensures r.Ok? <==>
      && |WaresSlices(waresText)| == 1
      && ParseAll(WaresSlices(waresText), parse).Ok?
      && FindLangs(waresText, parse).Ok?
      && LoadFromXml(ParseAll(WaresSlices(waresText), parse).value[0], ps).Ok?
      && |TranslationSlices(translationText)| > 0
      && ParseAll(TranslationSlices(translationText), parse).Ok?
    ensures r.Ok? ==>
      && LoadFromXml(ParseAll(WaresSlices(waresText), parse).value[0], ps) == Ok(r.value.cat)
      && r.value.tr == LoadAll(ParseAll(TranslationSlices(translationText), parse).value, r.value.cat, FindLangs(waresText, parse).value)
    ensures r.Ok? ==> NumericLocators(r.value.cat) && r.value.tr.desired == "en"
    ensures |WaresSlices(waresText)| == 0 ==> r == Err(XmlPartNotFound("wares"))
    ensures ParseAll(WaresSlices(waresText), parse).Err? ==> r == Err(ParseAll(WaresSlices(waresText), parse).error)
    ensures |WaresSlices(waresText)| == 1 && ParseAll(WaresSlices(waresText), parse).Ok? && FindLangs(waresText, parse).Err? ==>
      r == Err(FindLangs(waresText, parse).error)
    ensures WaresTextRead(waresText, parse) && LoadFromXml(ParseAll(WaresSlices(waresText), parse).value[0], ps).Err? ==>
      r == Err(LoadFromXml(ParseAll(WaresSlices(waresText), parse).value[0], ps).error)
    ensures CatalogRead(waresText, parse, ps) && |TranslationSlices(translationText)| == 0 ==>
      r == Err(XmlPartNotFound("translations"))
    ensures CatalogRead(waresText, parse, ps) && ParseAll(TranslationSlices(translationText), parse).Err? ==>
      r == Err(ParseAll(TranslationSlices(translationText), parse).error)
  {
    WaresFinderShrinks();
    TranslationFinderShrinks();
    var docs :- ReadXml(waresText, FindWaresSlice, "wares", parse);
    var langIds :- FindLangs(waresText, parse);
    var cat :- LoadFromXml(docs[0], ps);
    LoadedLocatorsNumeric(docs[0], ps, cat);
    var trDocs :- ReadXml(translationText, FindTranslationSlice, "translations", parse);
    return Ok(Data(cat, LoadAll(trDocs, cat, langIds)));
  }

  // ---------------------------------------------------------------------
  // `validate_and_untranslate`
  // ---------------------------------------------------------------------

  /** The names a user gave, in the order they are turned back into ids:
      the outputs, the priority list, the blacklist. */
  function UserNames(outputs: seq<(string, Request)>, priority: seq<string>, blacklist: seq<string>): (r: seq<string>)
    ensures |r| == |outputs| + |priority| + |blacklist|
    ensures forall k :: 0 <= k < |outputs| ==> r[k] == outputs[k].0
    ensures forall k :: 0 <= k < |priority| ==> r[|outputs| + k] == priority[k]
    ensures forall k :: 0 <= k < |blacklist| ==> r[|outputs| + |priority| + k] == blacklist[k]
  {
    seq(|outputs|, k requires 0 <= k < |outputs| => outputs[k].0) + priority + blacklist
  }

  /** Some language's table names an item `name`. */
  ghost predicate Known(tables: map<string, map<string, string>>, name: string) {
    exists item :: Reverse.HasName(tables, item, name)
  }

  /** `i` is the first user name no table knows. */
  ghost predicate FirstUnknown(tables: map<string, map<string, string>>, names: seq<string>, i: int) {
    0 <= i < |names| && !Known(tables, names[i]) && forall j :: 0 <= j < i ==> Known(tables, names[j])
  }

  /** `m` turns `name` into an item that some table gives that name. */
  predicate Reverts(tables: map<string, map<string, string>>, m: map<string, string>, name: string) {
    name in m && Reverse.HasName(tables, m[name], name)
  }

  /** `m` turns every name of the request back into an item. */
  predicate Reversal(tables: map<string, map<string, string>>, outputs: seq<(string, Request)>, priority: seq<string>, blacklist: seq<string>, m: map<string, string>) {
    && (forall k :: 0 <= k < |outputs| ==> Reverts(tables, m, outputs[k].0))
    && (forall k :: 0 <= k < |priority| ==> Reverts(tables, m, priority[k]))
    && (forall k :: 0 <= k < |blacklist| ==> Reverts(tables, m, blacklist[k]))
  }

  /** A list of names through `m`. */
  function Untranslate(m: map<string, string>, names: seq<string>): (r: seq<string>)
    requires forall k :: 0 <= k < |names| ==> names[k] in m
    ensures |r| == |names|
    ensures forall k :: 0 <= k < |names| ==> r[k] == m[names[k]]
  {
    seq(|names|, k requires 0 <= k < |names| => m[names[k]])
  }

  /** The requested outputs with their names through `m`. */
  function UntranslateOutputs(m: map<string, string>, outputs: seq<(string, Request)>): (r: seq<(string, Request)>)
    requires forall k :: 0 <= k < |outputs| ==> outputs[k].0 in m
    ensures |r| == |outputs|
    ensures forall k :: 0 <= k < |outputs| ==> r[k] == (m[outputs[k].0], outputs[k].1)
  {
    seq(|outputs|, k requires 0 <= k < |outputs| => (m[outputs[k].0], outputs[k].1))
  }

  /** The validated request `v` is the user's request through `m`. */
  predicate Untranslated(tables: map<string, map<string, string>>, outputs: seq<(string, Request)>, priority: seq<string>, blacklist: seq<string>,
                         m: map<string, string>, v: (seq<(string, Request)>, seq<string>, seq<string>))
  {
    && Reversal(tables, outputs, priority, blacklist, m)
    && v == (UntranslateOutputs(m, outputs), Untranslate(m, priority), Untranslate(m, blacklist))
  }

  /** `validate_and_untranslate`. `codes` and `langs` are the language
      tables in the order the program's hash map yields them. Every user
      name is turned back into an item some language gives that name (the
      same item wherever the name recurs), and the resulting priority list
      and blacklist must pass `CheckPriorityBlacklist` against the known
      methods. A name no language knows is reported first; otherwise the
      check's verdict stands. */
  method ValidateAndUntranslate(data: Data, codes: seq<string>, langs: seq<Table>,
                                outputs: seq<(string, Request)>, priority: seq<string>, blacklist: seq<string>)
    returns (r: Result<(seq<(string, Request)>, seq<string>, seq<string>)>)
    requires NumericLocators(data.cat)
    requires Lists(codes, langs, data.tr.tables)
    ensures (exists i :: FirstUnknown(data.tr.tables, UserNames(outputs, priority, blacklist), i)) ==>
      exists i :: FirstUnknown(data.tr.tables, UserNames(outputs, priority, blacklist), i)
        && r == Err(ReverseTranslationNotFound(UserNames(outputs, priority, blacklist)[i]))
    ensures r.Ok? ==> exists m :: Untranslated(data.tr.tables, outputs, priority, blacklist, m, r.value)
    ensures r.Ok? ==> CheckPriorityBlacklist(r.value.1, r.value.2, GenMethodsList(data.cat)) == Pass
    ensures r.Err? && r.error.ReverseTranslationNotFound? ==>
      exists i :: FirstUnknown(data.tr.tables, UserNames(outputs, priority, blacklist), i)
    ensures r.Err? && !r.error.ReverseTranslationNotFound? ==>
      exists m, v :: Untranslated(data.tr.tables, outputs, priority, blacklist, m, v)
        && CheckPriorityBlacklist(v.1, v.2, GenMethodsList(data.cat)) == Fail(r.error)
  {
    var names := UserNames(outputs, priority, blacklist);
    var found := MakeTranslationToItemMap(langs, names);
    if found.Err? {
      var i :| FirstUntranslatable(langs, names, i) && found.error == ReverseTranslationNotFound(names[i]);
      UnknownFirst(codes, langs, data.tr.tables, names, i);
      return Err(found.error);
    }
    ReversalFound(codes, langs, data.tr.tables, outputs, priority, blacklist, found.value);
    r := Checked(data, outputs, priority, blacklist, found.value);
  }

  /** The second half of validation: the request through `m`, kept when
      its lists pass the check against the known methods. */
  function Checked(data: Data, outputs: seq<(string, Request)>, priority: seq<string>, blacklist: seq<string>, m: map<string, string>)
    : (r: Result<(seq<(string, Request)>, seq<string>, seq<string>)>)
    requires NumericLocators(data.cat)
    requires Reversal(data.tr.tables, outputs, priority, blacklist, m)
    ensures r.Ok? ==> Untranslated(data.tr.tables, outputs, priority, blacklist, m, r.value)
    ensures r.Ok? ==> CheckPriorityBlacklist(r.value.1, r.value.2, GenMethodsList(data.cat)) == Pass
    ensures r.Err? ==> !r.error.ReverseTranslationNotFound?
    ensures r.Err? ==> exists v ::
      && Untranslated(data.tr.tables, outputs, priority, blacklist, m, v)
      && CheckPriorityBlacklist(v.1, v.2, GenMethodsList(data.cat)) == Fail(r.error)
  {
    var v := (UntranslateOutputs(m, outputs), Untranslate(m, priority), Untranslate(m, blacklist));
    assert Untranslated(data.tr.tables, outputs, priority, blacklist, m, v);
    match CheckPriorityBlacklist(v.1, v.2, GenMethodsList(data.cat))
    case Fail(e) => Err(e)
    case Pass => Ok(v)
  }

  /** The first name the reverse search fails on is the first name no
      language's table knows. */
  lemma UnknownFirst(codes: seq<string>, langs: seq<Table>, tables: map<string, map<string, string>>, names: seq<string>, i: int)
    requires Lists(codes, langs, tables)
    requires FirstUntranslatable(langs, names, i)
    ensures FirstUnknown(tables, names, i)
  {
    forall j | 0 <= j <= i
      ensures Translatable(langs, names[j]) <==> Known(tables, names[j])
    {
      TranslatableInTables(codes, langs, tables, names[j]);
    }
  }

  /** The map the reverse search returns turns every name of the request
      back into an item. */
  lemma ReversalFound(codes: seq<string>, langs: seq<Table>, tables: map<string, map<string, string>>,
                      outputs: seq<(string, Request)>, priority: seq<string>, blacklist: seq<string>, m: map<string, string>)
    requires Lists(codes, langs, tables)
    requires forall name :: name in m <==> name in UserNames(outputs, priority, blacklist)
    requires forall name :: name in m ==> NamedIn(langs, m[name], name)
    ensures Reversal(tables, outputs, priority, blacklist, m)
    ensures forall i :: !FirstUnknown(tables, UserNames(outputs, priority, blacklist), i)
  {
    var names := UserNames(outputs, priority, blacklist);
    forall j | 0 <= j < |names|
      ensures Reverts(tables, m, names[j]) && Known(tables, names[j])
    {
      assert names[j] in names;
      NamedInTables(codes, langs, tables, m[names[j]], names[j]);
    }
    forall k | 0 <= k < |outputs|
      ensures Reverts(tables, m, outputs[k].0)
    {
      assert names[k] == outputs[k].0;
    }
    forall k | 0 <= k < |priority|
      ensures Reverts(tables, m, priority[k])
    {
      assert names[|outputs| + k] == priority[k];
    }
    forall k | 0 <= k < |blacklist|
      ensures Reverts(tables, m, blacklist[k])
    {
      assert names[|outputs| + |priority| + k] == blacklist[k];
    }
  }

  /** A name the tables give no item is never turned into one: validation
      reports it unless an earlier name already failed. */
  lemma UnknownNameRejected(tables: map<string, map<string, string>>, outputs: seq<(string, Request)>, priority: seq<string>, blacklist: seq<string>,
                            m: map<string, string>, name: string)
    requires name in priority || name in blacklist
    requires !Known(tables, name)
    ensures !Reversal(tables, outputs, priority, blacklist, m)
  {
    if name in priority {
      var k :| 0 <= k < |priority| && priority[k] == name;
      if Reverts(tables, m, priority[k]) {
        assert Known(tables, name);
      }
    } else {
      var k :| 0 <= k < |blacklist| && blacklist[k] == name;
      if Reverts(tables, m, blacklist[k]) {
        assert Known(tables, name);
      }
    }
  }

  // ---------------------------------------------------------------------
  // `calc_required_fabric_counts`
  // ---------------------------------------------------------------------

  /** How a reported ware is obtained: by facilities running a method, or
      by import. */
  datatype Output = Produce(recipe: string, count: nat) | Import

  /** One reported ware: its display name, rate, how it is obtained and its
      catalog record. */
  datatype Row = Row(ware: string, rate: real, output: Output, record: Ware)

  /** An item's display name, or the item itself when it has none. */
  function Shown(tr: Translations, item: string): string {
    ReplaceIfExists(tr, item).0
  }

  /** One accumulator entry as reported: the ware and method under their
      display names, imported exactly when the catalog gives the ware no
      method, produced otherwise by the chosen method with the planned
      number of facilities. */
  function Report(cfg: Config, tr: Translations, e: Entry): (r: Row)
    requires EntryOk(cfg, e)
    ensures r.ware == Shown(tr, e.id) && r.rate == e.rate
    ensures Get(cfg.cat, e.id) == Ok(r.record)
    ensures r.output.Import? <==> |r.record.methods| == 0
    ensures r.output.Produce? ==>
      && r.output.count == e.plan.count
      && r.output.recipe == Shown(tr, e.plan.recipe.name)
      && FindDesiredMethod(r.record, cfg.priority, cfg.blacklist) == Ok(e.plan.recipe)
  {
    var record := Get(cfg.cat, e.info.id).value;
    var output := (match e.plan
      case Imported => Import
      case Producing(count, recipe) => Produce(Shown(tr, recipe.name), count));
    Row(Shown(tr, e.id), e.rate, output, record)
  }

  /** The report of a whole accumulator, in accumulation order. */
  function ReportAll(cfg: Config, tr: Translations, acc: Acc): (r: seq<Row>)
    requires Consistent(cfg, acc)
    ensures |r| == |acc| && forall k :: 0 <= k < |acc| ==> r[k] == Report(cfg, tr, acc[k])
  {
    seq(|acc|, k requires 0 <= k < |acc| => Report(cfg, tr, acc[k]))
  }

  /** `calc_required_fabric_counts`: validate and untranslate the request,
      plan it with the untranslated lists, and report every accumulated
      ware. `rank` witnesses that the catalog's supply chains are acyclic. */
  method CalcRequiredFabricCounts(data: Data, codes: seq<string>, langs: seq<Table>,
                                  outputs: seq<(string, Request)>, priority: seq<string>, blacklist: seq<string>,
                                  rank: map<string, nat>)
    returns (r: Result<seq<Row>>)
    requires NumericLocators(data.cat)
    requires Lists(codes, langs, data.tr.tables)
    requires WellFormed(Config(data.cat, [], [], rank))
    requires NonNegative(outputs)
    ensures r.Ok? ==> exists v :: PlanReported(data, outputs, priority, blacklist, rank, v, r.value)
    ensures (exists i :: FirstUnknown(data.tr.tables, UserNames(outputs, priority, blacklist), i)) ==>
      r.Err? && r.error.ReverseTranslationNotFound?
    ensures r.Err? ==> CalcError(r.error)
    ensures r.Err? ==> CalcFailed(data, outputs, priority, blacklist, rank, r.error)
  {
    var checked := ValidateAndUntranslate(data, codes, langs, outputs, priority, blacklist);
    if checked.Err? {
      ValidationFailed(data, outputs, priority, blacklist, rank, checked);
      return Err(checked.error);
    }
    var v := checked.value;
    r := PlanReport(data, outputs, priority, blacklist, rank, v);
    if r.Err? {
      var m :| Untranslated(data.tr.tables, outputs, priority, blacklist, m, v);
      assert PlanFailed(data, rank, v, r.error);
    }
  }

  /** The causes a calculation can fail for, each with the error it
      reports: the first name no language knows; lists that, turned back
      into items, fail the check; or a planning run that fails. */
  ghost predicate CalcFailed(data: Data, outputs: seq<(string, Request)>, priority: seq<string>, blacklist: seq<string>,
                             rank: map<string, nat>, e: DataError)
    requires NumericLocators(data.cat)
  {
    var names := UserNames(outputs, priority, blacklist);
    || (exists i :: FirstUnknown(data.tr.tables, names, i) && e == ReverseTranslationNotFound(names[i]))
    || exists m, v ::
      && Untranslated(data.tr.tables, outputs, priority, blacklist, m, v)
      && (CheckPriorityBlacklist(v.1, v.2, GenMethodsList(data.cat)) == Fail(e) || PlanFailed(data, rank, v, e))
  }

  /** The validated request `v` passes the check and planning it fails
      with `e`. */
  ghost predicate PlanFailed(data: Data, rank: map<string, nat>, v: (seq<(string, Request)>, seq<string>, seq<string>), e: DataError)
    requires NumericLocators(data.cat)
  {
    && CheckPriorityBlacklist(v.1, v.2, GenMethodsList(data.cat)) == Pass
    && WellFormed(Config(data.cat, v.1, v.2, rank)) && NonNegative(v.0)
    && PlanAll(Config(data.cat, v.1, v.2, rank), v.0) == Err(e)
  }

  /** A failed validation is a cause `CalcFailed` names. */
  lemma ValidationFailed(data: Data, outputs: seq<(string, Request)>, priority: seq<string>, blacklist: seq<string>,
                         rank: map<string, nat>, checked: Result<(seq<(string, Request)>, seq<string>, seq<string>)>)
    requires NumericLocators(data.cat) && checked.Err?
    requires (exists i :: FirstUnknown(data.tr.tables, UserNames(outputs, priority, blacklist), i)) ==>
      exists i :: FirstUnknown(data.tr.tables, UserNames(outputs, priority, blacklist), i)
        && checked == Err(ReverseTranslationNotFound(UserNames(outputs, priority, blacklist)[i]))
    requires checked.error.ReverseTranslationNotFound? ==>
      exists i :: FirstUnknown(data.tr.tables, UserNames(outputs, priority, blacklist), i)
    requires !checked.error.ReverseTranslationNotFound? ==>
      exists m, v :: Untranslated(data.tr.tables, outputs, priority, blacklist, m, v)
        && CheckPriorityBlacklist(v.1, v.2, GenMethodsList(data.cat)) == Fail(checked.error)
    ensures CalcFailed(data, outputs, priority, blacklist, rank, checked.error)
  {
  }

  /** The errors the calculation can end with: an unknown name, a bad
      priority list or blacklist, or a ware the planner cannot place. */
  predicate CalcError(e: DataError) {
    || e.ReverseTranslationNotFound? || e.PriorityBlackListsIntersection? || e.UnknownProductionMethod?
    || e.UnknownWare? || e.NoProductionMethods? || e.AllMethodsBlacklisted?
  }

  /** `rows` reports the plan of the validated request `v`: `v` is the
      user's request turned back into items, its lists pass the check, and
      `rows` reports what planning it accumulates. */
  ghost predicate PlanReported(data: Data, outputs: seq<(string, Request)>, priority: seq<string>, blacklist: seq<string>,
                               rank: map<string, nat>, v: (seq<(string, Request)>, seq<string>, seq<string>), rows: seq<Row>)
    requires NumericLocators(data.cat)
  {
    && (exists m :: Untranslated(data.tr.tables, outputs, priority, blacklist, m, v))
    && CheckPriorityBlacklist(v.1, v.2, GenMethodsList(data.cat)) == Pass
    && exists acc ::
      && Planned(Config(data.cat, v.1, v.2, rank), v.0, acc)
      && Consistent(Config(data.cat, v.1, v.2, rank), acc)
      && rows == ReportAll(Config(data.cat, v.1, v.2, rank), data.tr, acc)
  }

  /** The second half of `calc_required_fabric_counts`: plan the validated
      request and report the accumulated wares. */
  function PlanReport(data: Data, outputs: seq<(string, Request)>, priority: seq<string>, blacklist: seq<string>,
                      rank: map<string, nat>, v: (seq<(string, Request)>, seq<string>, seq<string>)): (r: Result<seq<Row>>)
    requires NumericLocators(data.cat)
    requires WellFormed(Config(data.cat, [], [], rank)) && NonNegative(outputs)
    requires exists m :: Untranslated(data.tr.tables, outputs, priority, blacklist, m, v)
    requires CheckPriorityBlacklist(v.1, v.2, GenMethodsList(data.cat)) == Pass
    ensures r.Ok? ==> PlanReported(data, outputs, priority, blacklist, rank, v, r.value)
    ensures r.Err? ==> r.error.UnknownWare? || r.error.NoProductionMethods? || r.error.AllMethodsBlacklisted?
    ensures r.Err? ==> PlanFailed(data, rank, v, r.error)
  {
    var cfg := Config(data.cat, v.1, v.2, rank);
    UntranslatedNonNegative(data.tr.tables, outputs, priority, blacklist, v);
    match PlanAll(cfg, v.0)
    case Err(e) => Err(e)
    case Ok(acc) =>
      assert Planned(cfg, v.0, acc);
      Ok(ReportAll(cfg, data.tr, acc))
  }

  /** Turning names back into items keeps the requested rates. */
  lemma UntranslatedNonNegative(tables: map<string, map<string, string>>, outputs: seq<(string, Request)>, priority: seq<string>, blacklist: seq<string>,
                                v: (seq<(string, Request)>, seq<string>, seq<string>))
    requires NonNegative(outputs)
    requires exists m :: Untranslated(tables, outputs, priority, blacklist, m, v)
    ensures NonNegative(v.0)
  {
    var m :| Untranslated(tables, outputs, priority, blacklist, m, v);
    assert forall k :: 0 <= k < |v.0| ==> v.0[k].1 == outputs[k].1;
  }

  /** `acc` is what planning `reqs` yields. */
  predicate Planned(cfg: Config, reqs: seq<(string, Request)>, acc: Acc) {
    WellFormed(cfg) && NonNegative(reqs) && PlanAll(cfg, reqs) == Ok(acc)
  }

  /** What the report promises: every requested ware, and every input of
      a produced ware, is reported at a rate that covers what the requests
      ask for it plus what the planned facilities consume. */
  lemma ReportCoversDemand(cfg: Config, tr: Translations, reqs: seq<(string, Request)>, acc: Acc, x: string)
    requires Planned(cfg, reqs, acc)
    ensures Consistent(cfg, acc)
    ensures Rate(acc, x) == Requested(cfg, reqs, x) + Induced(acc, x)
    ensures forall k :: 0 <= k < |acc| && acc[k].id == x ==> ReportAll(cfg, tr, acc)[k].rate == Rate(acc, x)
  {
    forall k | 0 <= k < |acc| && acc[k].id == x
      ensures acc[k].rate == Rate(acc, x)
    {
      RateAt(acc, k);
    }
  }
}
