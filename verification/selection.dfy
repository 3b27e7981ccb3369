/** How a ware's production method is chosen from the user's priority list
    and blacklist, and how those two lists are validated. */
module Selection {
  import opened Errors
  import opened Catalog

  /** Some method of `ms` has that name. */
  predicate Named(ms: seq<Method>, name: string) {
    exists j :: 0 <= j < |ms| && ms[j].name == name
  }

  /** `j` is the first method with that name. */
  predicate FirstNamedAt(ms: seq<Method>, name: string, j: int) {
    0 <= j < |ms| && ms[j].name == name && forall i :: 0 <= i < j ==> ms[i].name != name
  }

  /** `i` is the first priority entry that names a method of `ms`. */
  predicate FirstPriorityAt(ms: seq<Method>, priority: seq<string>, i: int) {
    0 <= i < |priority| && Named(ms, priority[i]) && forall k :: 0 <= k < i ==> !Named(ms, priority[k])
  }

  /** `j` is the first method whose name is not blacklisted. */
  predicate FirstAllowedAt(ms: seq<Method>, blacklist: seq<string>, j: int) {
    0 <= j < |ms| && ms[j].name !in blacklist && forall i :: 0 <= i < j ==> ms[i].name in blacklist
  }

  /** `methods.iter().find(|(key, _)| key == p)`. */
  function FindNamed(ms: seq<Method>, name: string): (r: Option<nat>)
    ensures r.Some? ==> FirstNamedAt(ms, name, r.value)
    ensures r.None? <==> !Named(ms, name)
  {
    if |ms| == 0 then None
    else if ms[0].name == name then Some(0)
    else
      match FindNamed(ms[1..], name)
      case None =>
        assert forall j :: 1 <= j < |ms| ==> ms[j] == ms[1..][j - 1];
        None
      case Some(j) =>
        assert forall i :: 1 <= i <= j ==> ms[i] == ms[1..][i - 1];
        Some(j + 1)
  }

  /** The loop over the priority list: the first entry naming a method
      picks that method. */
  function PickPriority(ms: seq<Method>, priority: seq<string>): (r: Option<nat>)
    ensures r.Some? ==> exists i :: FirstPriorityAt(ms, priority, i) && FirstNamedAt(ms, priority[i], r.value)
    ensures r.None? <==> forall i :: 0 <= i < |priority| ==> !Named(ms, priority[i])
  {
    if |priority| == 0 then None
    else
      match FindNamed(ms, priority[0])
      case Some(j) =>
        assert FirstPriorityAt(ms, priority, 0);
        Some(j)
      case None =>
        var r := PickPriority(ms, priority[1..]);
        assert forall i :: 1 <= i < |priority| ==> priority[i] == priority[1..][i - 1];
        if r.Some? then
          var i :| FirstPriorityAt(ms, priority[1..], i) && FirstNamedAt(ms, priority[1..][i], r.value);
          assert FirstPriorityAt(ms, priority, i + 1);
          r
        else
          r
  }

  /** The loop over the methods that skips blacklisted names. */
  function FirstAllowed(ms: seq<Method>, blacklist: seq<string>): (r: Option<nat>)
    ensures r.Some? ==> FirstAllowedAt(ms, blacklist, r.value)
    ensures r.None? <==> forall j :: 0 <= j < |ms| ==> ms[j].name in blacklist
  {
    if |ms| == 0 then None
    else if ms[0].name !in blacklist then Some(0)
    else
      match FirstAllowed(ms[1..], blacklist)
      case None =>
        assert forall j :: 1 <= j < |ms| ==> ms[j] == ms[1..][j - 1];
        None
      case Some(j) =>
        assert forall i :: 1 <= i <= j ==> ms[i] == ms[1..][i - 1];
        Some(j + 1)
  }

  /** `SingleWare::find_desired_method`. A method named in the priority
      list wins, the earliest priority entry first; otherwise the first
      method that is not blacklisted; a ware with no methods, or whose
      every method is blacklisted, is an error. */
  function FindDesiredMethod(w: Ware, priority: seq<string>, blacklist: seq<string>): (r: Result<Method>)
    ensures |w.methods| == 0 <==> r == Err(NoProductionMethods(w.info.id))
    ensures r.Ok? ==> r.value in w.methods
    ensures r.Ok? && (exists i :: 0 <= i < |priority| && Named(w.methods, priority[i])) ==>
      exists i, j :: FirstPriorityAt(w.methods, priority, i) && FirstNamedAt(w.methods, priority[i], j) && r.value == w.methods[j]
    ensures r.Ok? && (forall i :: 0 <= i < |priority| ==> !Named(w.methods, priority[i])) ==>
      exists j :: FirstAllowedAt(w.methods, blacklist, j) && r.value == w.methods[j]
    ensures r == Err(AllMethodsBlacklisted(w.info.id)) <==>
      && |w.methods| > 0
      && (forall i :: 0 <= i < |priority| ==> !Named(w.methods, priority[i]))
      && (forall j :: 0 <= j < |w.methods| ==> w.methods[j].name in blacklist)
    ensures r.Err? ==> r.error == NoProductionMethods(w.info.id) || r.error == AllMethodsBlacklisted(w.info.id)
  {
    if |w.methods| == 0 then
      Err(NoProductionMethods(w.info.id))
    else
      match PickPriority(w.methods, priority)
      case Some(j) => Ok(w.methods[j])
      case None =>
        match FirstAllowed(w.methods, blacklist)
        case Some(j) => Ok(w.methods[j])
        case None => Err(AllMethodsBlacklisted(w.info.id))
  }

  /** Choosing does not depend on what the priority list says about
      names the ware has no method for. */
  lemma PriorityNamesOnlyCount(w: Ware, priority: seq<string>, blacklist: seq<string>, extra: string)
    requires !Named(w.methods, extra)
    ensures FindDesiredMethod(w, [extra] + priority, blacklist) == FindDesiredMethod(w, priority, blacklist)
  {
    assert ([extra] + priority)[1..] == priority;
  }

  // ---------------------------------------------------------------------
  // `check_production_prioritylist_blacklsit`
  // ---------------------------------------------------------------------

  /** The first entry of `xs` that also occurs in `ys`. */
  function FirstShared(xs: seq<string>, ys: seq<string>): (r: Option<nat>)
    ensures r.Some? ==> r.value < |xs| && xs[r.value] in ys && forall k :: 0 <= k < r.value ==> xs[k] !in ys
    ensures r.None? <==> forall k :: 0 <= k < |xs| ==> xs[k] !in ys
  {
    if |xs| == 0 then None
    else if xs[0] in ys then Some(0)
    else
      match FirstShared(xs[1..], ys)
      case None =>
        assert forall k :: 1 <= k < |xs| ==> xs[k] == xs[1..][k - 1];
        None
      case Some(k) =>
        assert forall i :: 1 <= i <= k ==> xs[i] == xs[1..][i - 1];
        Some(k + 1)
  }

  /** The first entry of `xs` that does not occur in `ys`. */
  function FirstMissing(xs: seq<string>, ys: seq<string>): (r: Option<nat>)
    ensures r.Some? ==> r.value < |xs| && xs[r.value] !in ys && forall k :: 0 <= k < r.value ==> xs[k] in ys
    ensures r.None? <==> forall k :: 0 <= k < |xs| ==> xs[k] in ys
  {
    if |xs| == 0 then None
    else if xs[0] !in ys then Some(0)
    else
      match FirstMissing(xs[1..], ys)
      case None =>
        assert forall k :: 1 <= k < |xs| ==> xs[k] == xs[1..][k - 1];
        None
      case Some(k) =>
        assert forall i :: 1 <= i <= k ==> xs[i] == xs[1..][i - 1];
        Some(k + 1)
  }

  /** The two lists share no name. */
  predicate Disjoint(priority: seq<string>, blacklist: seq<string>) {
    forall k :: 0 <= k < |priority| ==> priority[k] !in blacklist
  }

  /** Validation of the two lists against each other and against the
      known method names: a name on both lists is reported first, then a
      name that is not a known method. The program repeats the intersection
      scan from the blacklist's side; that scan cannot fire
      (`BlacklistScanUnreachable`) and is left out. */
  function CheckPriorityBlacklist(priority: seq<string>, blacklist: seq<string>, known: seq<string>): (r: Outcome)
    ensures r == Pass <==> Disjoint(priority, blacklist) && forall x :: x in priority + blacklist ==> x in known
    ensures r.Fail? && r.error.PriorityBlackListsIntersection? ==>
      r.error.name in priority && r.error.name in blacklist
    ensures !Disjoint(priority, blacklist) ==>
      exists k :: 0 <= k < |priority| && r == Fail(PriorityBlackListsIntersection(priority[k]))
        && priority[k] in blacklist && forall i :: 0 <= i < k ==> priority[i] !in blacklist
    ensures Disjoint(priority, blacklist) && r.Fail? ==>
      r.error.UnknownProductionMethod? && r.error.name in priority + blacklist && r.error.name !in known
    ensures Disjoint(priority, blacklist) && r.Fail? ==>
      exists k :: 0 <= k < |priority + blacklist| && r == Fail(UnknownProductionMethod((priority + blacklist)[k]))
        && (priority + blacklist)[k] !in known && forall i :: 0 <= i < k ==> (priority + blacklist)[i] in known
  {
    match FirstShared(priority, blacklist)
    case Some(k) => Fail(PriorityBlackListsIntersection(priority[k]))
    case None =>
      match FirstMissing(priority + blacklist, known)
      case Some(k) => Fail(UnknownProductionMethod((priority + blacklist)[k]))
      case None =>
        assert forall x :: x in priority + blacklist ==> x in known by {
          forall x | x in priority + blacklist
            ensures x in known
          {
            var k :| 0 <= k < |priority + blacklist| && (priority + blacklist)[k] == x;
          }
        }
        Pass
  }

  /** Once no priority entry is blacklisted, no blacklist entry is in the
      priority list either, so the second scan finds nothing. */
  lemma BlacklistScanUnreachable(priority: seq<string>, blacklist: seq<string>)
    requires FirstShared(priority, blacklist).None?
    ensures FirstShared(blacklist, priority).None?
  {
    forall k | 0 <= k < |blacklist|
      ensures blacklist[k] !in priority
    {
      assert forall i :: 0 <= i < |priority| ==> priority[i] != blacklist[k];
    }
  }
}
