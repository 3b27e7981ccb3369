# X4 production planner: the data loader and demand engine

This project models the core of `libx4productionplanner` in Dafny. That
core is the part of `dataloader.rs` that does four things:

- It reads the game's wares catalog and its language files.
- It resolves the translated names of wares and production methods,
  including nested `{page,id}` references.
- It maps the names a user types back to item ids and checks the
  priority list and the blacklist of production methods.
- It computes how many production facilities of each ware are needed
  for a requested output. It does this by passing demand down the
  supply chain in `add_wares_rec`.

Modules follow the program's structure:

| module | what it holds |
|---|---|
| `Errors` | `DataError` and the `Result` and `Option` wrappers |
| `Text` | `str::find` and `trim` |
| `Xml` | an abstract element tree with `mygetatr`, `mygetatrparsed` and `myfindchildtag` |
| `Slicing` | cutting the `<wares>`, `<language>` and `<languages>` parts out of a file, and `read_xml` |
| `Languages` | `CommentTagIter`, `try_name_to_unicode_id`, `collect_lang_from_pairs`, `find_langs_rec` and `find_langs` |
| `Catalog` | `Wares::load_from_xml`, `read_translation` and `Wares::get` |
| `MethodList` | `gen_production_methods_list` |
| `Selection` | `find_desired_method` and `check_production_prioritylist_blacklsit` |
| `Rates` | the rate helpers of `SingleWareProduction` |
| `Demand` | `Fabrics` and `add_wares_rec` |
| `Translations` | `read_translation_value`, `load_from_xml_all` and `Translations::get` |
| `Reverse` | `make_translation_to_item_map` |
| `Planner` | `load_data_str`, `validate_and_untranslate` and `calc_required_fabric_counts` |
| `SelfSupply` | `add_wares_rec` as written, on a ware that is its own input (see Findings) |
| `Fixtures`, `TranslationFixtures` | the data of the repository's two unit tests |

The central result is about the demand engine. It is `Demand.PlanAll`, and
`Planner.ReportCoversDemand` carries it over to the report. After a
successful plan, every ware's accumulated rate is exactly two amounts
added together:

- what the user requested of that ware;
- what the facilities in the plan consume of it.

Every entry imports its ware exactly when the ware has no production
method. Otherwise the entry runs the method that `find_desired_method`
chooses, with the least number of facilities that covers the entry's
rate.

## Model

| member | source | states |
|---|---|---|
| Xml.GetAttr | libx4productionplanner/src/dataloader.rs:72-76 | the attribute's value when the node has it, otherwise `AttributeNotFound` for that attribute name |
| Xml.GetParsed | libx4productionplanner/src/dataloader.rs:77-86 | Ok exactly when the attribute is present and parses, and then it holds the parsed value; a missing attribute gives `AttributeNotFound`, a value that does not parse gives `AttributeBadValue` |
| Xml.FindChild | libx4productionplanner/src/dataloader.rs:87-91 | the first child element with the tag; `TagNotFound` exactly when there is none |
| Text.Find | libx4productionplanner/src/dataloader.rs:142-145 | the result is the leftmost occurrence of the pattern, and it is None exactly when the pattern does not occur |
| Text.Trim | libx4productionplanner/src/dataloader.rs:376 | the result is a slice of the input with only whitespace around it, and it neither starts nor ends with whitespace |
| Text.TrimUntouched | libx4productionplanner/src/dataloader.rs:661 | a text without whitespace at either end is left unchanged by trimming |
| Slicing.FindSpan | libx4productionplanner/src/dataloader.rs:139-147 | Ok gives the first opening marker and the first closing marker after it; an error names the opening marker when it is absent, and the closing marker when it does not follow the opening one |
| Slicing.FindTranslationSlice | libx4productionplanner/src/dataloader.rs:139-147 | a found region is a `<language` … `</language>` span; the remaining input is a strict suffix of the input, so the scan over all regions ends; None exactly when no such span is left |
| Slicing.FindWaresSlice | libx4productionplanner/src/dataloader.rs:150-163 | the slice starts at the first `<wares>` that is followed, after whitespace, by `<production>`, and ends at the next `</wares>`; None means there is no such opening, or no closing marker after it |
| Slicing.WaresSectionSingle | libx4productionplanner/src/dataloader.rs:150-163 | the wares finder yields at most one slice from any input |
| Slicing.ParseAll | libx4productionplanner/src/dataloader.rs:121-129 | Ok exactly when every slice parses, giving one document per slice in order; otherwise `InvalidXml` for the first slice that does not parse |
| Slicing.ReadXml | libx4productionplanner/src/dataloader.rs:117-137 | no slice found gives `XmlPartNotFound` with the section's name; otherwise the result is that of parsing all slices |
| Slicing.FindLanguagesSlice | libx4productionplanner/src/dataloader.rs:346-356 | the trimmed text from the first `<languages>` to the next `</languages>`, or `SubstrNotFound` for the marker that is missing |
| Languages.CommentTagPairsAreLabels | libx4productionplanner/src/dataloader.rs:239-266 | the iterator yields, in document order, exactly the comments that an element follows, either directly or after one text node, each paired with that element |
| Languages.NameToCode | libx4productionplanner/src/dataloader.rs:267-288 | names outside the table are kept as they are; a known language name becomes a two-letter code |
| Languages.KnownCodesDistinct | libx4productionplanner/src/dataloader.rs:267-288 | two known names share a code only when they are the same name, or when both are Chinese variants, which share `ch` |
| Languages.CollectLangs | libx4productionplanner/src/dataloader.rs:289-321 | Ok exactly when no labelled entry fails, and then the pairs have distinct codes and list every code with its id; otherwise the error is that of the first failing entry, either a repeated code or a missing `id` |
| Languages.FindLangsRec | libx4productionplanner/src/dataloader.rs:329-345 | a node without children yields the empty language list rather than `NoChildren`, since an empty child list is itself a language list |
| Languages.FindLangsRecNeverFails | libx4productionplanner/src/dataloader.rs:329-345 | the recursive search never fails: following first children always reaches a leaf, so neither the last child's error nor `NoChildren` (dataloader.rs:342) is ever returned |
| Languages.FindLangsRecIsFirstInDocumentOrder | libx4productionplanner/src/dataloader.rs:329-345 | the recursive search succeeds exactly when some node of the subtree has children forming a language list (possibly empty), and returns the list of the first such node in document order |
| Languages.FindLangs | libx4productionplanner/src/dataloader.rs:346-363 | slicing and parsing errors are passed on; once the `<languages>` part parses, the search succeeds exactly when some node of it holds a language list, and returns the first in document order |
| Catalog.Get | libx4productionplanner/src/dataloader.rs:368-370 | the first ware with the id; `UnknownWare` exactly when no ware has it |
| Catalog.MatchLocatorComplete | libx4productionplanner/src/dataloader.rs:371-374 | every well-formed `{page,id}` text, with any ASCII spacing after the comma, is matched back to its page and id |
| Catalog.ReadLocator | libx4productionplanner/src/dataloader.rs:371-388 | a missing `name` gives `AttributeNotFound`; a value that is not a locator gives `AttributeBadValue` when the locator is required and None when it is optional; a match spells the trimmed value |
| Catalog.ReadInputs | libx4productionplanner/src/dataloader.rs:420-446 | Ok exactly when every input has a ware and an amount and no ware repeats; the result lists them in order |
| Catalog.ReadMethod | libx4productionplanner/src/dataloader.rs:410-475 | Ok exactly when the method name, time, amount and required locator all read; its fields are those values, and its inputs are the primary inputs, or none when they do not read. On failure the error is that of the first stage that fails, in the program's order: a missing `method` gives `AttributeNotFound("method")`, then the `time` error, then the `amount` error, then the locator error |
| Catalog.ReadMethods | libx4productionplanner/src/dataloader.rs:409-476 | Ok exactly when every method reads and no method name repeats. On failure the error is that of the first rejected `<production>` element in document order (`Catalog.RejectedWith`). An element is rejected for a missing name, for a name that an earlier element already has (`DuplicateValue` of that name, which is checked before its time and amount), or for its own `ReadMethod` error. So for names a, b, b, a the error names b |
| Catalog.ReadNext | libx4productionplanner/src/dataloader.rs:410-474 | one round of the loop, after the earlier elements have read: its error is the element's own (`Catalog.ElementError`): a missing name, a name already read, or a failure of the element itself. Otherwise it returns a method that the element describes, with a name not yet read |
| Catalog.DuplicateRejected | libx4productionplanner/src/dataloader.rs:411-416 | a method whose name an earlier method of the ware already has makes the list non-distinct |
| Catalog.ReadWare | libx4productionplanner/src/dataloader.rs:391-478 | a read ware carries exactly the id, transport, prices, optional locator and methods of its node; it is Ok exactly when every stage reads; the stages are read in the order id, transport, `<price>`, `min`, `max`, name locator, methods, and the first stage that fails gives the error |
| Catalog.ReadWares | libx4productionplanner/src/dataloader.rs:389-485 | Ok exactly when every ware reads, and then it reads them in order; otherwise the error is that of the first ware that fails |
| Catalog.LoadFromXml | libx4productionplanner/src/dataloader.rs:389-485 | the same, for the `ware` children of the root element |
| MethodList.GenMethodsList | libx4productionplanner/src/dataloader.rs:521-545 | the list has no repeats, and it holds exactly the names of the catalog's methods |
| MethodList.GenMethodsListInKeyOrder | libx4productionplanner/src/dataloader.rs:539-541 | names are ordered by the numeric locator id of their first occurrence |
| Selection.FindDesiredMethod | libx4productionplanner/src/dataloader.rs:217-235 | no methods gives `NoProductionMethods`; the first priority name the ware has wins, taking its first method with that name; otherwise the first method not blacklisted; `AllMethodsBlacklisted` exactly when every method is blacklisted and no priority name matches |
| Selection.PriorityNamesOnlyCount | libx4productionplanner/src/dataloader.rs:224-228 | a priority name the ware has no method for does not change the choice |
| Selection.CheckPriorityBlacklist | libx4productionplanner/src/dataloader.rs:942-954 | Pass exactly when the lists are disjoint and every name is a known method; a shared name is reported at its first place in the priority list; otherwise `UnknownProductionMethod` names the first name of the priority list followed by the blacklist that is not a known method |
| Selection.BlacklistScanUnreachable | libx4productionplanner/src/dataloader.rs:946-948 | when the priority list shares no name with the blacklist, the blacklist shares none with the priority list either |
| Rates.WaresPerMinute | libx4productionplanner/src/dataloader.rs:188-190 | a productive method yields a positive rate |
| Rates.WaresPerMinuteMeaning | libx4productionplanner/src/dataloader.rs:188-190 | the rate times the cycle time is 60 times the yield per cycle |
| Rates.InputRateMeaning | libx4productionplanner/src/dataloader.rs:191-193 | the input rate times the cycle time is 60 times the amount consumed per cycle |
| Rates.FacilityCountCovers | libx4productionplanner/src/dataloader.rs:194-196 | the count of facilities covers the rate, and one facility fewer would not |
| Rates.FacilityCountLeast | libx4productionplanner/src/dataloader.rs:194-196 | no count smaller than the facility count covers the rate |
| Rates.FacilityCountMonotone | libx4productionplanner/src/dataloader.rs:194-196 | a larger rate never needs fewer facilities |
| Rates.FacilityCountPositive | libx4productionplanner/src/dataloader.rs:194-196 | a positive rate needs at least one facility |
| Demand.CycleNotWellFormed | libx4productionplanner/src/dataloader.rs:603-607 | a catalog in which a ware is, directly or through other wares, an input of itself has no rank, so the termination argument of the demand recursion excludes every cyclic catalog |
| Demand.RankFalls | libx4productionplanner/src/dataloader.rs:603-607 | along any chain of inputs the rank strictly falls |
| SelfSupply.RequestRunsForever | libx4productionplanner/src/dataloader.rs:562-609 | as written, any positive request for a ware whose one method consumes per cycle what it yields, of that same ware, never returns: every nesting depth is exceeded |
| SelfSupply.LoopRunsForever | libx4productionplanner/src/dataloader.rs:562-609 | the concrete case: 5 per minute of a ware made at 10 per minute from 10 of itself recurses without end |
| SelfSupply.HalfSettles | libx4productionplanner/src/dataloader.rs:562-609 | a cycle need not loop: 5 per minute of a ware made at 10 per minute from 5 of itself settles, two calls deep, at 10 per minute on one facility |
| Demand.Choice | libx4productionplanner/src/dataloader.rs:589-592 | the method the planner runs for a ware; its errors are exactly the lookup and selection errors |
| Demand.Demanded | libx4productionplanner/src/dataloader.rs:610-617 | a rate request is taken as it is; a facility request becomes that many facilities' output of the chosen method |
| Demand.AddExisting | libx4productionplanner/src/dataloader.rs:571-587 | more demand on a produced ware raises its facility count to cover the new total, and passes on only the facilities added; an imported ware only gains rate |
| Demand.AddNew | libx4productionplanner/src/dataloader.rs:588-601 | a new ware gets an entry at the end; it is produced by the chosen method with enough facilities, or imported when it has no methods; it fails exactly when the ware is unknown or all its methods are blacklisted |
| Demand.AddWaresRec | libx4productionplanner/src/dataloader.rs:562-609 | a zero rate changes nothing; otherwise the accumulator stays consistent, only grows, and its net balance gains exactly the requested rate of the ware; a failure names a ware the demand reaches through the chosen methods' inputs that is unknown (`UnknownWare`) or has every method blacklisted (`AllMethodsBlacklisted`), so planning succeeds when every reachable ware can be planned |
| Demand.Propagate | libx4productionplanner/src/dataloader.rs:603-607 | the new facilities' inputs are requested in order, and each input's balance gains exactly what those facilities consume; a failure names an unplannable ware reachable from one of those inputs |
| Demand.RunRequests | libx4productionplanner/src/dataloader.rs:969-976 | after all requests, each ware's net balance has gained exactly what was requested of it; a failure comes from the first failing request: that request cannot be turned into a rate (its `Demanded` error), or its demand reaches an unknown ware or one with every method blacklisted; when every request turns into a rate and every reachable ware can be planned, it succeeds |
| Demand.PlanAll | libx4productionplanner/src/dataloader.rs:969-977 | in the finished plan, every ware's rate is what the user requested plus what the planned facilities consume; every entry is consistent with the catalog; a failure comes from the first failing request, as for `RunRequests`, and there is none when every request turns into a rate and every reachable ware can be planned |
| Translations.StripComment | libx4productionplanner/src/dataloader.rs:658-664 | the result is the input itself, or the input without a leading parenthesised comment, and then shorter |
| Translations.StripCommentRemoves | libx4productionplanner/src/dataloader.rs:658-664 | a leading comment of word characters, spaces, `-` and `_` is removed, and the rest is kept |
| Translations.PiecesSpell | libx4productionplanner/src/dataloader.rs:659-682 | splitting a value into literal text and `{page,id}` references loses nothing: the pieces spell the value again |
| Translations.PiecesScanned | libx4productionplanner/src/dataloader.rs:659-682 | every reference piece is a well-formed reference, and no literal piece hides one |
| Translations.AssembleFails | libx4productionplanner/src/dataloader.rs:677-686 | a value is untranslatable exactly when one of its references does not resolve |
| Translations.ResolveMore | libx4productionplanner/src/dataloader.rs:671-676 | a reference that resolves with some depth bound resolves to the same text with a larger one |
| Translations.BuildTableIsFirstResolved | libx4productionplanner/src/dataloader.rs:720-732 | an item's translation in a language is that of its first catalog occurrence that resolves |
| Translations.LoadTablesIsLastLoaded | libx4productionplanner/src/dataloader.rs:708-737 | a language's table comes from the last entry of the language list with that code |
| Translations.LoadAll | libx4productionplanner/src/dataloader.rs:706-743 | English is the chosen language, and no language has an empty table |
| Translations.LoadedValue | libx4productionplanner/src/dataloader.rs:706-743 | every loaded translation comes from the language document of its code, as the first resolved occurrence of the item |
| Translations.TranslationOf | libx4productionplanner/src/dataloader.rs:638-650 | the chosen language's translation when there is one, else the English one, else none |
| Translations.ReplaceIfExists | libx4productionplanner/src/dataloader.rs:629-637 | it reports whether a translation exists; the name becomes that translation, or stays as it is |
| Translations.TranslationComesFromATable | libx4productionplanner/src/dataloader.rs:638-650 | every translation is found in the chosen language's table or in the English one |
| Translations.ChosenLanguageFirst | libx4productionplanner/src/dataloader.rs:899-901 | after a change of language, that language's translation wins, and without one the result is the same as with English chosen |
| Reverse.MakeTranslationToItemMap | libx4productionplanner/src/dataloader.rs:908-941 | Ok exactly when every name is some item's translation in some language, and then the map's keys are exactly those names, each mapped to such an item; otherwise `ReverseTranslationNotFound` names the first name that is not |
| Reverse.TranslatableInTables | libx4productionplanner/src/dataloader.rs:908-941 | the list of languages searched holds a name exactly when the loaded tables translate some item to it |
| Planner.LoadDataStr | libx4productionplanner/src/dataloader.rs:883-890 | Ok exactly when one wares section is found and parses, the language list is found, the catalog loads, and at least one language document is found and parses; the data is that catalog with its translations, in English; the first stage that fails gives the error: `XmlPartNotFound("wares")`, the wares parse error, the language-list error, the catalog error, `XmlPartNotFound("translations")` or the translation parse error |
| Planner.TranslatedItemsCatalogued | libx4productionplanner/src/dataloader.rs:720-731 | every translated item is a ware or a production method of the catalog |
| Planner.ValidateAndUntranslate | libx4productionplanner/src/dataloader.rs:955-965 | a name that no language translates is reported first, at its first place among outputs, priority list and blacklist; otherwise the names are mapped back to ids, and the result passes the priority and blacklist check, or fails with that check's error |
| Planner.UnknownNameRejected | libx4productionplanner/src/dataloader.rs:955-961 | no mapping back to ids exists when a priority or blacklist name is untranslatable |
| Planner.Report | libx4productionplanner/src/dataloader.rs:978-1002 | a row shows the translated ware name, its rate and its catalog record; it shows an import exactly when the ware has no methods, and otherwise the translated chosen method with its facility count |
| Planner.CalcRequiredFabricCounts | libx4productionplanner/src/dataloader.rs:966-1003 | Ok is the report of a plan of the untranslated requests; an untranslatable name gives `ReverseTranslationNotFound`; every other error is that of the validation or the plan |
| Planner.ReportCoversDemand | libx4productionplanner/src/dataloader.rs:966-1003 | each reported rate is what the user requested of that ware plus what the planned facilities consume of it |
| Fixtures.Wares1Plan | libx4productionplanner/src/dataloader.rs:1393-1403 | for the test catalog, 36 microchips per minute give the expected plan of microchips, energy cells, silicon wafers and imported silicon |
| TranslationFixtures.EngineLookup | libx4productionplanner/src/dataloader.rs:1405-1415 | the test's engine entry, with a leading comment and four nested references, translates to "ARG S All-round Engine Mk1" |

## Left out

- Reading files from the game directory is left out: `check_gamedir`, `load_string_file`, `load_data`, `load_wares_…_productionmethods` and `Translations::load`. The model starts from the file contents, as `load_data_str` does.
- The `roxmltree` parser becomes a parameter `parse: string -> Option<Node>`, and parsed documents are an abstract element tree. The parser's error values are dropped. `InvalidXml` carries the slice that did not parse.
- Numeric attribute parsing (`str::parse` for `u32`, `usize` and `f64`) becomes a record of partial functions (`Catalog.Parsers`).
- The regular expressions become hand-written scanners: the locator, the leading comment and the reference patterns. They accept the same texts as the character classes at dataloader.rs:373 and 658-659.
- f64 arithmetic is modelled by exact reals. Rounding in `wares_per_minute`, in the division of the facility count and in the `+=` of accumulated rates is not modelled.
- Catalog.Parsers: `u32` and `usize` values are modelled as `nat`. A price or amount above the type's range, which the program rejects as `AttributeBadValue`, is accepted if the parameter accepts it.
- MethodList.GenMethodsList: the locator id is read as an unbounded number (`NumericLocators`). The `parse::<u32>().unwrap()` panic on an id above `u32::MAX` at dataloader.rs:529 is not modelled.
- Text.DigitsValue: a digit string is read as an unbounded number, with no `u32` overflow.
- Text.Find: positions count characters, where the program's `str::find` counts UTF-8 bytes. The markers searched for are ASCII, so the slices are the same.
- Productive: every method is assumed to have `perCycle > 0` and `cycleSeconds > 0`. The program reads `amount` as any `usize` and `time` as any `f64` (dataloader.rs:417-418). With amount 0, `wares_per_minute` is 0, and `ceil(x / 0) as usize` saturates to `usize::MAX` facilities (dataloader.rs:188-196). With time 0 the rates are infinite. The model does not plan such catalogs.
- Demand.WellFormed: planning requires a rank in which every ware ranks above its inputs. The program has no such guard. On a catalog where a ware is directly or indirectly its own input, `add_wares_rec` can keep recursing until the stack overflows (see Findings). `Demand.CycleNotWellFormed` states that every such catalog is excluded. This also excludes cyclic catalogs on which the program does stop, such as the one in `SelfSupply.HalfSettles`.
- Demand.AddWaresRec and Demand.Propagate: a failure is tied to some ware the demand reaches (`Demand.Reaches`) that cannot be planned (`Demand.FailsAt`). Which of several such wares the depth-first order meets first is not stated. Nor is the converse, that every reachable unplannable ware fails the run: an input consumed at rate 0 is never visited.
- Demand.RunRequests and Demand.PlanAll: the failing request is the first one (`Demand.RequestFails`). Within it, the failing ware is stated only as one that its demand reaches.
- Demand.NonNegative: requests are required to be non-negative. This stands in for the `panic!` on a negative rate at dataloader.rs:566-567.
- Translations.MaxDepth and Translations.Lookup: resolving nested references is bounded by 64 levels of fuel. A reference chain deeper than that reads as untranslatable. A reference cycle, where the program recurses without end, also reads as untranslatable.
- Reverse.MakeTranslationToItemMap: with no language tables and a non-empty list of names, the program reaches `unreachable!()` at dataloader.rs:940 and panics. The model returns `ReverseTranslationNotFound` for the first name, which is what the loop would report for any number of tables.
- `HashMap` iteration order is not known. The order of the language tables is a parameter in `Reverse` and `Planner` (the `codes` and `langs` lists, tied to the tables by `Lists`). The contracts do not depend on it, except for which item a name maps back to when several items share a translation.
- The debug payloads of `DataError` are dropped: the node text, the file path and the expected-format hint. Only the variant and the key name are kept.
- The dead second scan in `check_production_prioritylist_blacklsit` (dataloader.rs:946-948) is not modelled as a branch. `Selection.BlacklistScanUnreachable` states why it can never report anything.
- `set_desired_unicode_id` and `change_default_lang` are modelled together as `Translations.WithDesired`.
- `gen_lang_list` (dataloader.rs:905-907) is the key set of the translation tables. The model exposes those tables directly, and `Translations.LoadAll` states that each listed language has at least one translation.
- The serde encoding of `CountsInput` and `CountsOutput` (dataloader.rs:761-873) is left out. Requests and report rows are plain datatypes.
- `println!` debugging output is left out.

## Findings

| source | as written | input that shows it | evidently intended | confidence | as-written member | corrected member |
|---|---|---|---|---|---|---|
| libx4productionplanner/src/dataloader.rs:603-607 | the demand of the facilities `add_wares_rec` adds is requested from their inputs, with no check that the chain of inputs comes back to a ware already being planned | a ware `selfmade` whose one method takes 60 s, yields 10 and consumes 10 `selfmade`, requested at 5 per minute: the first call adds one facility, which asks for 10 per minute; the entry's count rises by one, and the new facility asks for 10 more, without end | planning stops on every acyclic catalog; on a cyclic one it can recurse without end, though not always (`SelfSupply.HalfSettles`) | medium, not executed | SelfSupply.RequestRunsForever, SelfSupply.LoopRunsForever | Demand.AddWaresRec, with Demand.CycleNotWellFormed |

The corrected `Demand.AddWaresRec` is the same recursion, planned only on catalogs ranked by `Demand.WellFormed`. Dafny proves that it terminates, because the rank falls along every input (`Demand.RankFalls`). `Demand.CycleNotWellFormed` shows that no cyclic catalog is ranked, so every catalog on which the program as written recurses without end through a cycle is left out. So are the cyclic catalogs on which it happens to stop.
