/** Turning the names a user typed back into item ids
    (`make_translation_to_item_map`): every name is looked up as a
    translation, language by language, starting at the language where the
    previous name was found. */
module Reverse {
  import opened Errors

  /** One language's table in the order its hash map yields it: (item id,
      translation) pairs. */
  type Table = seq<(string, string)>

  /** `name` is the translation of some item in some language. */
  predicate Translatable(langs: seq<Table>, name: string) {
    exists l, k :: 0 <= l < |langs| && 0 <= k < |langs[l]| && langs[l][k].1 == name
  }

  /** `item` translates to `name` in some language. */
  predicate NamedIn(langs: seq<Table>, item: string, name: string) {
    exists l :: 0 <= l < |langs| && (item, name) in langs[l]
  }

  /** `find_map` over one table: the first item whose translation is
      `name`. */
  function FindItem(table: Table, name: string): (r: Option<string>)
    ensures r.Some? ==> (r.value, name) in table
    ensures r.None? <==> forall k :: 0 <= k < |table| ==> table[k].1 != name
  {
    if |table| == 0 then None
    else if table[0].1 == name then Some(table[0].0)
    else
      var r := FindItem(table[1..], name);
      assert forall k :: 1 <= k < |table| ==> table[k] == table[1..][k - 1];
      r
  }

  /** The language indices a cyclic search of `passed` languages starting
      at `start` has visited. */
  predicate Visited(n: nat, start: nat, passed: nat, l: nat) {
    (start <= l < start + passed) || l + n < start + passed
  }

  /** The first input that is no language's translation, if any. */
  predicate FirstUntranslatable(langs: seq<Table>, inputs: seq<string>, i: int) {
    0 <= i < |inputs| && !Translatable(langs, inputs[i]) && forall j :: 0 <= j < i ==> Translatable(langs, inputs[j])
  }

  /** `make_translation_to_item_map` over the languages in their hash map
      order. Each name not yet mapped is searched for in every language
      once, cyclically from the language where the last name was found; a
      name found nowhere is an error. */
  method MakeTranslationToItemMap(langs: seq<Table>, inputs: seq<string>) returns (r: Result<map<string, string>>)
    ensures r.Ok? <==> forall j :: 0 <= j < |inputs| ==> Translatable(langs, inputs[j])
    ensures r.Ok? ==> forall name :: name in r.value <==> name in inputs
    ensures r.Ok? ==> forall name :: name in r.value ==> NamedIn(langs, r.value[name], name)
    ensures r.Err? ==> exists i :: FirstUntranslatable(langs, inputs, i) && r.error == ReverseTranslationNotFound(inputs[i])
  {
    var result: map<string, string> := map[];
    var cur := 0;
    var i := 0;
    while i < |inputs|
      invariant 0 <= i <= |inputs|
      invariant cur == 0 || cur < |langs|
      invariant forall name :: name in result <==> name in inputs[..i]
      invariant forall name :: name in result ==> NamedIn(langs, result[name], name)
      invariant forall j :: 0 <= j < i ==> Translatable(langs, inputs[j])
    {
      var name := inputs[i];
      if name in result {
        assert Translatable(langs, name) by {
          var j :| 0 <= j < i && inputs[j] == name;
        }
      } else {
        var start := cur;
        var passed := 0;
        var found: Option<string> := None;
        while passed < |langs| && found.None?
          invariant passed <= |langs|
          invariant cur == 0 || cur < |langs|
          invariant found.None? ==> cur == if start + passed < |langs| then start + passed else start + passed - |langs|
          invariant found.None? ==> forall l :: 0 <= l < |langs| && Visited(|langs|, start, passed, l) ==>
                      forall k :: 0 <= k < |langs[l]| ==> langs[l][k].1 != name
          invariant found.Some? ==> NamedIn(langs, found.value, name)
          decreases |langs| - passed, if found.None? then 1 else 0
        {
          found := FindItem(langs[cur], name);
          if found.None? {
            cur := if cur + 1 == |langs| then 0 else cur + 1;
            passed := passed + 1;
          }
        }
        if found.None? {
          assert forall l :: 0 <= l < |langs| ==> Visited(|langs|, start, passed, l);
          assert FirstUntranslatable(langs, inputs, i);
          return Err(ReverseTranslationNotFound(name));
        }
        result := result[name := found.value];
      }
      assert inputs[..i + 1] == inputs[..i] + [name];
      i := i + 1;
    }
    assert inputs[..i] == inputs;
    return Ok(result);
  }

  // ---------------------------------------------------------------------
  // The tables as the translations hold them
  // ---------------------------------------------------------------------

  /** `t` lists the map `m`, each entry once, in some order. */
  predicate Enumerates(t: Table, m: map<string, string>) {
    && (forall k :: 0 <= k < |t| ==> t[k].0 in m && m[t[k].0] == t[k].1)
    && (forall id :: id in m ==> exists k :: 0 <= k < |t| && t[k].0 == id)
  }

  /** `langs` is what iterating the map of tables yields: one table per
      language code, each listing that language's map. */
  predicate Lists(codes: seq<string>, langs: seq<Table>, tables: map<string, map<string, string>>) {
    && |codes| == |langs|
    && (forall a, b :: 0 <= a < b < |codes| ==> codes[a] != codes[b])
    && tables.Keys == (set l | 0 <= l < |codes| :: codes[l])
    && (forall l :: 0 <= l < |langs| ==> codes[l] in tables && Enumerates(langs[l], tables[codes[l]]))
  }

  /** The table of some language maps `item` to `name`. */
  predicate HasName(tables: map<string, map<string, string>>, item: string, name: string) {
    exists code :: code in tables && item in tables[code] && tables[code][item] == name
  }

  /** Over a listing, an item translates to a name in the listing exactly
      when some language's table maps it to that name. */
  lemma NamedInTables(codes: seq<string>, langs: seq<Table>, tables: map<string, map<string, string>>, item: string, name: string)
    requires Lists(codes, langs, tables)
    ensures NamedIn(langs, item, name) <==> HasName(tables, item, name)
  {
    if NamedIn(langs, item, name) {
      var l :| 0 <= l < |langs| && (item, name) in langs[l];
      ListedEntry(codes, langs, tables, l, item, name);
    }
    if HasName(tables, item, name) {
      var code :| code in tables && item in tables[code] && tables[code][item] == name;
      CodeListed(codes, tables.Keys, code);
      var l :| 0 <= l < |codes| && codes[l] == code;
      EntryListed(langs[l], tables[code], item);
    }
  }

  /** Every language code of the map is one of the listed codes. */
  lemma CodeListed(codes: seq<string>, keys: set<string>, code: string)
    requires keys == (set l | 0 <= l < |codes| :: codes[l]) && code in keys
    ensures exists l :: 0 <= l < |codes| && codes[l] == code
  {
  }

  /** An entry of a language's listing is in that language's table. */
  lemma ListedEntry(codes: seq<string>, langs: seq<Table>, tables: map<string, map<string, string>>, l: int, item: string, name: string)
    requires Lists(codes, langs, tables) && 0 <= l < |langs| && (item, name) in langs[l]
    ensures HasName(tables, item, name)
  {
    assert Enumerates(langs[l], tables[codes[l]]);
    var k :| 0 <= k < |langs[l]| && langs[l][k] == (item, name);
  }

  /** An entry of a table is in any listing of it. */
  lemma EntryListed(t: Table, m: map<string, string>, item: string)
    requires Enumerates(t, m) && item in m
    ensures (item, m[item]) in t
  {
    var k :| 0 <= k < |t| && t[k].0 == item;
    assert t[k] == (item, m[item]);
  }

  /** Over a listing, a name can be reversed exactly when some language's
      table has an item with that name. */
  lemma TranslatableInTables(codes: seq<string>, langs: seq<Table>, tables: map<string, map<string, string>>, name: string)
    requires Lists(codes, langs, tables)
    ensures Translatable(langs, name) <==> exists item :: HasName(tables, item, name)
  {
    if Translatable(langs, name) {
      var l, k :| 0 <= l < |langs| && 0 <= k < |langs[l]| && langs[l][k].1 == name;
      assert langs[l][k] in langs[l];
      NamedInTables(codes, langs, tables, langs[l][k].0, name);
    }
    if exists item :: HasName(tables, item, name) {
      var item :| HasName(tables, item, name);
      NamedInTables(codes, langs, tables, item, name);
      var l :| 0 <= l < |langs| && (item, name) in langs[l];
      var k :| 0 <= k < |langs[l]| && langs[l][k] == (item, name);
    }
  }
}
