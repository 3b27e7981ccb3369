/** The list of every production method name in the catalog, ordered by
    the entry id of the name's locator, which is the order the game lists
    production methods in. */
module MethodList {
  import opened Errors
  import opened Text
  import opened Catalog

  /** Every method of every ware, in catalog order. */
  function AllMethods(cat: Catalog): (r: seq<Method>)
    ensures forall k, j :: 0 <= k < |cat| && 0 <= j < |cat[k].methods| ==> cat[k].methods[j] in r
    ensures forall m :: m in r ==> exists k :: 0 <= k < |cat| && m in cat[k].methods
  {
    if |cat| == 0 then []
    else
      var rest := AllMethods(cat[1..]);
      assert forall k :: 1 <= k < |cat| ==> cat[k] == cat[1..][k - 1];
      cat[0].methods + rest
  }

  /** Every locator of every method is a digit pair, so its entry id
      parses as a number. */
  predicate NumericLocators(cat: Catalog) {
    forall k, j :: 0 <= k < |cat| && 0 <= j < |cat[k].methods| ==> WellFormedLocator(cat[k].methods[j].locator)
  }

  predicate AllNumeric(ms: seq<Method>) {
    forall j :: 0 <= j < |ms| ==> WellFormedLocator(ms[j].locator)
  }

  lemma AllMethodsNumeric(cat: Catalog)
    requires NumericLocators(cat)
    ensures AllNumeric(AllMethods(cat))
  {
    var ms := AllMethods(cat);
    forall j | 0 <= j < |ms|
      ensures WellFormedLocator(ms[j].locator)
    {
      assert ms[j] in ms;
      var k :| 0 <= k < |cat| && ms[j] in cat[k].methods;
      var i :| 0 <= i < |cat[k].methods| && cat[k].methods[i] == ms[j];
    }
  }

  /** The sort key of a method: its locator's entry id as a number. */
  function Key(m: Method): nat
    requires WellFormedLocator(m.locator)
  {
    DigitsValue(m.locator.item)
  }

  /** `j` is the first method with that name. */
  predicate FirstIndex(ms: seq<Method>, name: string, j: int) {
    0 <= j < |ms| && ms[j].name == name && forall i :: 0 <= i < j ==> ms[i].name != name
  }

  predicate HasName(kv: seq<(string, nat)>, name: string) {
    exists k :: 0 <= k < |kv| && kv[k].0 == name
  }

  predicate DistinctFirsts(kv: seq<(string, nat)>) {
    forall a, b :: 0 <= a < b < |kv| ==> kv[a].0 != kv[b].0
  }

  /** Each entry carries the key of the first method with its name. */
  ghost predicate FirstKeys(ms: seq<Method>, kv: seq<(string, nat)>)
    requires AllNumeric(ms)
  {
    forall k :: 0 <= k < |kv| ==> exists j :: FirstIndex(ms, kv[k].0, j) && Key(ms[j]) == kv[k].1
  }

  /** The fold into a map from name to key that keeps the first key seen
      for each name; the map's entries are listed in insertion order. */
  function FirstSeen(ms: seq<Method>): (r: seq<(string, nat)>)
    requires AllNumeric(ms)
    ensures DistinctFirsts(r)
    ensures forall j :: 0 <= j < |ms| ==> HasName(r, ms[j].name)
    ensures FirstKeys(ms, r)
  {
    if |ms| == 0 then []
    else
      var m := ms[|ms| - 1];
      var prev := FirstSeen(ms[..|ms| - 1]);
      if HasName(prev, m.name) then
        FirstSeenSkip(ms, prev);
        prev
      else
        FirstSeenSnoc(ms, prev);
        prev + [(m.name, Key(m))]
  }

  lemma FirstSeenSkip(ms: seq<Method>, prev: seq<(string, nat)>)
    requires |ms| > 0 && AllNumeric(ms)
    requires FirstKeys(ms[..|ms| - 1], prev)
    requires forall j :: 0 <= j < |ms| - 1 ==> HasName(prev, ms[j].name)
    requires HasName(prev, ms[|ms| - 1].name)
    ensures FirstKeys(ms, prev) && forall j :: 0 <= j < |ms| ==> HasName(prev, ms[j].name)
  {
    var init := ms[..|ms| - 1];
    assert forall j :: 0 <= j < |init| ==> init[j] == ms[j];
    forall k | 0 <= k < |prev|
      ensures exists j :: FirstIndex(ms, prev[k].0, j) && Key(ms[j]) == prev[k].1
    {
      var j :| FirstIndex(init, prev[k].0, j) && Key(init[j]) == prev[k].1;
      assert FirstIndex(ms, prev[k].0, j);
    }
  }

  lemma FirstSeenSnoc(ms: seq<Method>, prev: seq<(string, nat)>)
    requires |ms| > 0 && AllNumeric(ms)
    requires DistinctFirsts(prev) && FirstKeys(ms[..|ms| - 1], prev)
    requires forall j :: 0 <= j < |ms| - 1 ==> HasName(prev, ms[j].name)
    requires !HasName(prev, ms[|ms| - 1].name)
    ensures var r := prev + [(ms[|ms| - 1].name, Key(ms[|ms| - 1]))];
      DistinctFirsts(r) && FirstKeys(ms, r) && forall j :: 0 <= j < |ms| ==> HasName(r, ms[j].name)
  {
    var init := ms[..|ms| - 1];
    var m := ms[|ms| - 1];
    var r := prev + [(m.name, Key(m))];
    assert forall j :: 0 <= j < |init| ==> init[j] == ms[j];
    forall k | 0 <= k < |r|
      ensures exists j :: FirstIndex(ms, r[k].0, j) && Key(ms[j]) == r[k].1
    {
      if k < |prev| {
        var j :| FirstIndex(init, prev[k].0, j) && Key(init[j]) == prev[k].1;
        assert FirstIndex(ms, r[k].0, j);
      } else {
        forall i | 0 <= i < |ms| - 1
          ensures ms[i].name != m.name
        {
          assert HasName(prev, ms[i].name);
        }
        assert FirstIndex(ms, r[k].0, |ms| - 1);
      }
    }
    forall j | 0 <= j < |ms|
      ensures HasName(r, ms[j].name)
    {
      if j < |ms| - 1 {
        var k :| 0 <= k < |prev| && prev[k].0 == ms[j].name;
        assert r[k].0 == ms[j].name;
      } else {
        assert r[|prev|].0 == ms[j].name;
      }
    }
  }

  predicate SortedByKey(kv: seq<(string, nat)>) {
    forall a, b :: 0 <= a < b < |kv| ==> kv[a].1 <= kv[b].1
  }

  /** Inserts `x` after every entry with a smaller or equal key. */
  function InsertByKey(x: (string, nat), kv: seq<(string, nat)>): (r: seq<(string, nat)>)
    requires SortedByKey(kv)
    ensures SortedByKey(r)
    ensures |r| == |kv| + 1
    ensures forall y :: y in r <==> y == x || y in kv
    ensures DistinctFirsts(kv) && !HasName(kv, x.0) ==> DistinctFirsts(r)
  {
    if |kv| == 0 then [x]
    else if x.1 < kv[0].1 then
      InsertFront(x, kv);
      [x] + kv
    else
      var rest := InsertByKey(x, kv[1..]);
      InsertBehind(x, kv, rest);
      [kv[0]] + rest
  }

  lemma InsertFront(x: (string, nat), kv: seq<(string, nat)>)
    requires SortedByKey(kv) && |kv| > 0 && x.1 < kv[0].1
    ensures SortedByKey([x] + kv)
    ensures DistinctFirsts(kv) && !HasName(kv, x.0) ==> DistinctFirsts([x] + kv)
  {
    var r := [x] + kv;
    assert forall k :: 1 <= k < |r| ==> r[k] == kv[k - 1];
  }

  lemma InsertBehind(x: (string, nat), kv: seq<(string, nat)>, rest: seq<(string, nat)>)
    requires SortedByKey(kv) && |kv| > 0 && kv[0].1 <= x.1
    requires SortedByKey(rest) && forall y :: y in rest <==> y == x || y in kv[1..]
    requires DistinctFirsts(kv[1..]) && !HasName(kv[1..], x.0) ==> DistinctFirsts(rest)
    ensures SortedByKey([kv[0]] + rest)
    ensures forall y :: y in [kv[0]] + rest <==> y == x || y in kv
    ensures DistinctFirsts(kv) && !HasName(kv, x.0) ==> DistinctFirsts([kv[0]] + rest)
  {
    var r := [kv[0]] + rest;
    assert kv == [kv[0]] + kv[1..];
    forall k | 1 <= k < |r|
      ensures r[k] == rest[k - 1] && kv[0].1 <= r[k].1 && (DistinctFirsts(kv) && !HasName(kv, x.0) ==> r[k].0 != kv[0].0)
    {
      assert rest[k - 1] in rest;
      if rest[k - 1] != x {
        var i :| 0 <= i < |kv[1..]| && kv[1..][i] == rest[k - 1];
        assert kv[i + 1] == rest[k - 1];
      }
    }
    if DistinctFirsts(kv) && !HasName(kv, x.0) {
      assert DistinctFirsts(kv[1..]) by {
        assert forall k :: 0 <= k < |kv| - 1 ==> kv[1..][k] == kv[k + 1];
      }
      assert !HasName(kv[1..], x.0) by {
        assert forall k :: 0 <= k < |kv| - 1 ==> kv[1..][k] == kv[k + 1];
      }
    }
  }

  /** Insertion sort by key, a stable sort like `slice::sort_by_key`; for
      entries with distinct names the result is a permutation. */
  function SortByKey(kv: seq<(string, nat)>): (r: seq<(string, nat)>)
    ensures SortedByKey(r)
    ensures |r| == |kv|
    ensures forall y :: y in r <==> y in kv
    ensures DistinctFirsts(kv) ==> DistinctFirsts(r)
  {
    if |kv| == 0 then []
    else
      var init := kv[..|kv| - 1];
      var x := kv[|kv| - 1];
      var sorted := SortByKey(init);
      SortStep(kv, sorted);
      InsertByKey(x, sorted)
  }

  lemma SortStep(kv: seq<(string, nat)>, sorted: seq<(string, nat)>)
    requires |kv| > 0
    requires forall y :: y in sorted <==> y in kv[..|kv| - 1]
    requires DistinctFirsts(kv[..|kv| - 1]) ==> DistinctFirsts(sorted)
    ensures forall y :: y in kv <==> y == kv[|kv| - 1] || y in sorted
    ensures DistinctFirsts(kv) ==> DistinctFirsts(sorted) && !HasName(sorted, kv[|kv| - 1].0)
  {
    var init := kv[..|kv| - 1];
    assert kv == init + [kv[|kv| - 1]];
    if DistinctFirsts(kv) {
      assert forall k :: 0 <= k < |init| ==> init[k] == kv[k];
      forall k | 0 <= k < |sorted|
        ensures sorted[k].0 != kv[|kv| - 1].0
      {
        assert sorted[k] in sorted;
        var i :| 0 <= i < |init| && init[i] == sorted[k];
        assert kv[i] == sorted[k];
      }
    }
  }

  /** Sequences with the same members have the same names. */
  lemma SameNames(kv: seq<(string, nat)>, r: seq<(string, nat)>, name: string)
    requires forall y :: y in r <==> y in kv
    ensures HasName(r, name) <==> HasName(kv, name)
  {
    if HasName(r, name) {
      var k :| 0 <= k < |r| && r[k].0 == name;
      assert r[k] in r;
      var i :| 0 <= i < |kv| && kv[i] == r[k];
    }
    if HasName(kv, name) {
      var k :| 0 <= k < |kv| && kv[k].0 == name;
      assert kv[k] in kv;
      var i :| 0 <= i < |r| && r[i] == kv[k];
    }
  }

  /** The names of the entries, in order. */
  function Names(kv: seq<(string, nat)>): (r: seq<string>)
    ensures |r| == |kv| && forall k :: 0 <= k < |kv| ==> r[k] == kv[k].0
  {
    if |kv| == 0 then [] else [kv[0].0] + Names(kv[1..])
  }

  /** The first index of a name is unique. */
  lemma FirstIndexUnique(ms: seq<Method>, name: string, i: int, j: int)
    requires FirstIndex(ms, name, i) && FirstIndex(ms, name, j)
    ensures i == j
  {
  }

  /** The sorted first-seen entries behind the method list. */
  function SortedFirsts(cat: Catalog): (r: seq<(string, nat)>)
    requires NumericLocators(cat)
    ensures AllNumeric(AllMethods(cat))
    ensures SortedByKey(r) && DistinctFirsts(r)
    ensures forall y :: y in r <==> y in FirstSeen(AllMethods(cat))
  {
    AllMethodsNumeric(cat);
    SortByKey(FirstSeen(AllMethods(cat)))
  }

  /** A method of the catalog is listed. */
  lemma MethodListed(cat: Catalog, k: int, j: int)
    requires NumericLocators(cat) && 0 <= k < |cat| && 0 <= j < |cat[k].methods|
    ensures cat[k].methods[j].name in Names(SortedFirsts(cat))
  {
    var ms := AllMethods(cat);
    var sorted := SortedFirsts(cat);
    var m := cat[k].methods[j];
    assert m in ms;
    var i :| 0 <= i < |ms| && ms[i] == m;
    assert HasName(FirstSeen(ms), m.name);
    SameNames(FirstSeen(ms), sorted, m.name);
    var t :| 0 <= t < |sorted| && sorted[t].0 == m.name;
    assert Names(sorted)[t] == m.name;
  }

  /** A listed name is the name of a method of the catalog. */
  lemma ListedMethod(cat: Catalog, name: string)
    requires NumericLocators(cat) && name in Names(SortedFirsts(cat))
    ensures exists k, j :: 0 <= k < |cat| && 0 <= j < |cat[k].methods| && cat[k].methods[j].name == name
  {
    var ms := AllMethods(cat);
    var sorted := SortedFirsts(cat);
    var seen := FirstSeen(ms);
    var t :| 0 <= t < |sorted| && Names(sorted)[t] == name;
    SameMembersName(sorted, seen, t);
    var e :| 0 <= e < |seen| && seen[e].0 == name;
    SeenNameOfMethod(ms, e);
    var i :| 0 <= i < |ms| && ms[i].name == name;
    CatalogMethod(cat, ms[i]);
  }

  /** Two tables with the same entries hold the same names. */
  lemma SameMembersName(a: seq<(string, nat)>, b: seq<(string, nat)>, t: int)
    requires forall y :: y in a <==> y in b
    requires 0 <= t < |a|
    ensures exists e :: 0 <= e < |b| && b[e].0 == a[t].0
  {
    assert a[t] in b;
  }

  /** A name the first-seen table holds is the name of some method. */
  lemma SeenNameOfMethod(ms: seq<Method>, e: int)
    requires AllNumeric(ms) && 0 <= e < |FirstSeen(ms)|
    ensures exists i :: 0 <= i < |ms| && ms[i].name == FirstSeen(ms)[e].0
  {
    assert FirstKeys(ms, FirstSeen(ms));
  }

  /** A method of the flattened catalog sits in some entry's list. */
  lemma CatalogMethod(cat: Catalog, m: Method)
    requires m in AllMethods(cat)
    ensures exists k, j :: 0 <= k < |cat| && 0 <= j < |cat[k].methods| && cat[k].methods[j].name == m.name
  {
    var k :| 0 <= k < |cat| && m in cat[k].methods;
    var j :| 0 <= j < |cat[k].methods| && cat[k].methods[j] == m;
  }

  /** `gen_production_methods_list`: every production method name once,
      ordered by the entry id of the locator of its first occurrence.
      Names whose first keys tie come out in an order the program leaves to
      its hash map; here they keep catalog order. */
  function GenMethodsList(cat: Catalog): (r: seq<string>)
    requires NumericLocators(cat)
    ensures forall a, b :: 0 <= a < b < |r| ==> r[a] != r[b]
    ensures forall k, j :: 0 <= k < |cat| && 0 <= j < |cat[k].methods| ==> cat[k].methods[j].name in r
    ensures forall name :: name in r ==> exists k, j :: 0 <= k < |cat| && 0 <= j < |cat[k].methods| && cat[k].methods[j].name == name
  {
    var r := Names(SortedFirsts(cat));
    forall k, j | 0 <= k < |cat| && 0 <= j < |cat[k].methods|
      ensures cat[k].methods[j].name in r
    {
      MethodListed(cat, k, j);
    }
    forall name | name in r
      ensures exists k, j :: 0 <= k < |cat| && 0 <= j < |cat[k].methods| && cat[k].methods[j].name == name
    {
      ListedMethod(cat, name);
    }
    r
  }

  /** The list is ordered by each name's first key: of two listed names,
      the earlier one's first method has the smaller or equal entry id. */
  lemma GenMethodsListInKeyOrder(cat: Catalog, a: int, b: int, ja: int, jb: int)
    requires NumericLocators(cat) && 0 <= a < b < |GenMethodsList(cat)|
    requires FirstIndex(AllMethods(cat), GenMethodsList(cat)[a], ja)
    requires FirstIndex(AllMethods(cat), GenMethodsList(cat)[b], jb)
    ensures AllNumeric(AllMethods(cat)) && Key(AllMethods(cat)[ja]) <= Key(AllMethods(cat)[jb])
  {
    AllMethodsNumeric(cat);
    var sorted := SortedFirsts(cat);
    assert GenMethodsList(cat) == Names(sorted);
    KeyOfListed(cat, a, ja);
    KeyOfListed(cat, b, jb);
  }

  /** The key a sorted entry carries is the key of its name's first method. */
  lemma KeyOfListed(cat: Catalog, t: int, j: int)
    requires NumericLocators(cat) && 0 <= t < |SortedFirsts(cat)|
    requires FirstIndex(AllMethods(cat), SortedFirsts(cat)[t].0, j)
    ensures Key(AllMethods(cat)[j]) == SortedFirsts(cat)[t].1
  {
    var ms := AllMethods(cat);
    var kv := FirstSeen(ms);
    var sorted := SortedFirsts(cat);
    assert sorted[t] in sorted;
    var e :| 0 <= e < |kv| && kv[e] == sorted[t];
    var i :| FirstIndex(ms, kv[e].0, i) && Key(ms[i]) == kv[e].1;
    FirstIndexUnique(ms, kv[e].0, i, j);
  }
}
