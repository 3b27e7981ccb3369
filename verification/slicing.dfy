/** Document extraction: the game files are not parsed whole. The scanners
    below cut the regions between start and end markers out of the raw text,
    and only those regions are handed to the XML parser. */
module Slicing {
  import opened Errors
  import opened Text
  import Xml

  const LanguageOpen: string := "<language"
  const LanguageClose: string := "</language>"
  const WaresOpen: string := "<wares>"
  const WaresClose: string := "</wares>"
  const ProductionOpen: string := "<production>"
  const LanguagesOpen: string := "<languages>"
  const LanguagesClose: string := "</languages>"

  /** What a scanner hands back: the text still to scan, the region found,
      and where in the scanned text that region starts. */
  datatype Found = Found(rest: string, slice: string, at: nat)

  /** `slice` sits in `input` at `i`, opens with `open`, ends with `close`,
      and contains no earlier `close` after its opening marker. */
  predicate Enclosed(input: string, i: int, open: string, close: string, slice: string) {
    && IsAt(input, slice, i)
    && |open| + |close| <= |slice|
    && StartsWith(slice, open)
    && EndsWith(slice, close)
    && forall k :: |open| <= k < |slice| - |close| ==> !IsAt(slice, close, k)
  }

  /** The span that starts with `open` at `i` and runs to the nearest `close`
      after it, given that this `close` is the first one in `input[i + |open|..]`
      at index `j`. */
  lemma SpanIsEnclosed(input: string, open: string, close: string, i: nat, j: nat)
    requires IsAt(input, open, i)
    requires FirstAt(input[i + |open|..], close, j)
    ensures Enclosed(input, i, open, close, input[i..i + |open| + j + |close|])
  {
    var after := input[i + |open|..];
    var e := i + |open| + j + |close|;
    var slice := input[i..e];
    assert slice[..|open|] == input[i..i + |open|];
    assert slice[|slice| - |close|..] == after[j..j + |close|];
    forall k | |open| <= k < |slice| - |close|
      ensures !IsAt(slice, close, k)
    {
      var m := k - |open|;
      assert m < j;
      assert !IsAt(after, close, m);
      SliceOfSlice(input, i, e, k, k + |close|);
      SliceOfSuffix(input, i + |open|, m, m + |close|);
    }
  }

  /** The region from the first `open` to the nearest `close` after it
      spans indices `i` to `e`. */
  ghost predicate SpanAt(input: string, open: string, close: string, i: int, e: int) {
    && 0 <= i <= e <= |input|
    && FirstAt(input, open, i)
    && Enclosed(input, i, open, close, input[i..e])
  }

  /** There is no first `open`, or no `close` after it. */
  ghost predicate SpanMissing(input: string, open: string, close: string) {
    || !Contains(input, open)
    || exists i :: FirstAt(input, open, i) && !Contains(input[i + |open|..], close)
  }

  /** The first `open` in `input` and the nearest `close` after it, as the
      start and end indices of the region; a missing marker is reported as
      `SubstrNotFound`. */
  function FindSpan(input: string, open: string, close: string): (r: Result<(nat, nat)>)
    ensures r.Ok? ==> SpanAt(input, open, close, r.value.0, r.value.1)
    ensures r.Err? ==> SpanMissing(input, open, close)
    ensures r.Err? ==>
      || (r.error == SubstrNotFound(open) && !Contains(input, open))
      || (r.error == SubstrNotFound(close)
          && exists i :: FirstAt(input, open, i) && !Contains(input[i + |open|..], close))
  {
    match Find(input, open)
    case None => Err(SubstrNotFound(open))
    case Some(i) =>
      assert FirstAt(input, open, i);
      match Find(input[i + |open|..], close)
      case None =>
        CloseMissing(input, open, close, i);
        Err(SubstrNotFound(close))
      case Some(j) =>
        SpanFoundAt(input, open, close, i, j);
        Ok((i, i + |open| + j + |close|))
  }

  /** The first `open` is at `i` and no `close` follows it. */
  lemma CloseMissing(input: string, open: string, close: string, i: int)
    requires FirstAt(input, open, i) && !Contains(input[i + |open|..], close)
    ensures SpanMissing(input, open, close)
    ensures exists i :: FirstAt(input, open, i) && !Contains(input[i + |open|..], close)
  {
  }

  /** The first `open` is at `i` and the nearest `close` after it at `j`
      past its marker. */
  lemma SpanFoundAt(input: string, open: string, close: string, i: nat, j: nat)
    requires FirstAt(input, open, i) && FirstAt(input[i + |open|..], close, j)
    ensures SpanAt(input, open, close, i, i + |open| + j + |close|)
  {
    SpanIsEnclosed(input, open, close, i, j);
  }

  /** `f` is the first region from `open` to the nearest `close`, and its
      remainder is what follows that region with leading whitespace dropped. */
  ghost predicate RegionCut(input: string, open: string, close: string, f: Found) {
    && f.at + |f.slice| <= |input|
    && FirstAt(input, open, f.at)
    && Enclosed(input, f.at, open, close, f.slice)
    && f.rest == TrimStart(input[f.at + |f.slice|..])
  }

  /** Cutting the first region and resuming after it, for any markers. */
  function FindRegion(input: string, open: string, close: string): (r: Option<Found>)
    requires |open| > 0
    ensures r.Some? ==> |r.value.rest| < |input| && IsSuffix(r.value.rest, input)
    ensures r.Some? ==> RegionCut(input, open, close, r.value)
    ensures r.None? ==> SpanMissing(input, open, close)
  {
    if |input| == 0 then
      assert !IsAt(input, open, 0);
      None
    else
      match FindSpan(input, open, close)
      case Err(_) => None
      case Ok((i, e)) =>
        SpanCut(input, open, close, i, e);
        Some(Found(TrimStart(input[e..]), input[i..e], i))
  }

  /** The region at `i` to `e`, with the remainder after it. */
  lemma SpanCut(input: string, open: string, close: string, i: nat, e: nat)
    requires |open| > 0 && SpanAt(input, open, close, i, e)
    ensures RegionCut(input, open, close, Found(TrimStart(input[e..]), input[i..e], i))
    ensures |TrimStart(input[e..])| < |input| && IsSuffix(TrimStart(input[e..]), input)
  {
    TrimmedSuffix(input, e);
  }

  /** What is left after the first `e` characters, trimmed, is a proper
      suffix of the input. */
  lemma TrimmedSuffix(input: string, e: nat)
    requires 0 < e <= |input|
    ensures |TrimStart(input[e..])| < |input| && IsSuffix(TrimStart(input[e..]), input)
  {
    TrimStartShape(input[e..]);
    SuffixOfDrop(input, e, TrimStart(input[e..]));
  }

  lemma SuffixOfDrop<T>(s: seq<T>, e: nat, r: seq<T>)
    requires e <= |s| && |r| <= |s[e..]| && s[e..][|s[e..]| - |r|..] == r
    ensures |r| <= |s| && s[|s| - |r|..] == r
  {
    assert s[|s| - |r|..] == s[e..][|s[e..]| - |r|..];
  }

  /** `find_translation_xml_slice`: the first `<language` up to the nearest
      following `</language>`; scanning resumes after it, past whitespace. */
  function FindTranslationSlice(input: string): (r: Option<Found>)
    ensures r.Some? ==> |r.value.rest| < |input| && IsSuffix(r.value.rest, input)
    ensures r.Some? ==> RegionCut(input, LanguageOpen, LanguageClose, r.value)
    ensures r.None? ==> SpanMissing(input, LanguageOpen, LanguageClose)
  {
    FindRegion(input, LanguageOpen, LanguageClose)
  }

  /** No proper suffix of `open` starts like `open`, so two occurrences of it
      never overlap. */
  predicate NoSelfOverlap(open: string) {
    |open| > 0 && forall k :: 0 < k < |open| ==> open[k] != open[0]
  }

  /** An opening `open` at `i` whose content starts, after whitespace,
      with `inner`. */
  predicate Qualifies(input: string, open: string, inner: string, i: int) {
    IsAt(input, open, i) && OpensWith(input, inner, i + |open|)
  }

  /** The text from `x` on starts, after whitespace, with `inner`. */
  predicate OpensWith(input: string, inner: string, x: int) {
    0 <= x <= |input| && StartsWith(TrimStart(input[x..]), inner)
  }

  predicate FirstQualifying(input: string, open: string, inner: string, i: int) {
    Qualifies(input, open, inner, i) && forall k :: 0 <= k < i ==> !Qualifies(input, open, inner, k)
  }

  /** An opening at `i` rules out openings that start inside it: the
      opening marker cannot overlap itself. */
  lemma NoOverlappingOpening(input: string, open: string, i: int, k: int)
    requires NoSelfOverlap(open) && IsAt(input, open, i)
    requires i < k < i + |open|
    ensures !IsAt(input, open, k)
  {
    assert input[k] == input[i..i + |open|][k - i];
    if k + |open| <= |input| {
      assert input[k..k + |open|][0] == input[k];
    }
  }

  /** The first occurrence in the remainder starting at `from`, as an index
      into the whole input. */
  lemma FirstFrom(input: string, pat: string, from: nat, i: nat)
    requires from <= |input| && FirstAt(input[from..], pat, i)
    ensures IsAt(input, pat, from + i)
    ensures forall j :: from <= j < from + i ==> !IsAt(input, pat, j)
  {
    IsAtDrop(input, pat, from, i);
    forall j | from <= j < from + i
      ensures !IsAt(input, pat, j)
    {
      IsAtDrop(input, pat, from, j - from);
    }
  }

  /** No opening in the remainder starting at `from`. */
  lemma NoneFrom(input: string, pat: string, from: nat)
    requires from <= |input| && !Contains(input[from..], pat)
    ensures forall j :: from <= j ==> !IsAt(input, pat, j)
  {
    forall j | from <= j
      ensures !IsAt(input, pat, j)
    {
      IsAtDrop(input, pat, from, j - from);
    }
  }

  /** The answer `FindQualifyingSpan` promises when it finds a region. */
  ghost predicate SpanFound(input: string, open: string, inner: string, close: string, i: int, e: int) {
    && 0 <= i <= e <= |input|
    && FirstQualifying(input, open, inner, i)
    && Enclosed(input, i, open, close, input[i..e])
  }

  /** The answer `FindQualifyingSpan` promises when it finds none. */
  ghost predicate NoSpan(input: string, open: string, inner: string, close: string) {
    || (forall i :: 0 <= i ==> !Qualifies(input, open, inner, i))
    || exists i :: FirstQualifying(input, open, inner, i) && !Contains(input[i + |open|..], close)
  }

  /** What `FindQualifyingSpan` promises, for either answer. */
  ghost predicate SpanAnswer(input: string, open: string, inner: string, close: string, r: Option<(nat, nat)>) {
    && (r.Some? ==> SpanFound(input, open, inner, close, r.value.0, r.value.1))
    && (r.None? ==> NoSpan(input, open, inner, close))
  }

  /** No opening qualifies before `from`. */
  ghost predicate NoneQualifyBefore(input: string, open: string, inner: string, from: int) {
    forall j :: 0 <= j < from ==> !Qualifies(input, open, inner, j)
  }

  /** The search of the remainder found no opening at all. */
  lemma NoOpeningLeft(input: string, open: string, inner: string, close: string, from: nat)
    requires |open| > 0 && from <= |input|
    requires NoneQualifyBefore(input, open, inner, from)
    requires !Contains(input[from..], open)
    ensures SpanAnswer(input, open, inner, close, None)
  {
    NoneFrom(input, open, from);
  }

  /** The next opening, at `i`, is the first qualifying one. */
  lemma OpeningQualifies(input: string, open: string, inner: string, from: int, i: int)
    requires IsAt(input, open, i) && forall j :: from <= j < i ==> !IsAt(input, open, j)
    requires NoneQualifyBefore(input, open, inner, from)
    requires OpensWith(input, inner, i + |open|)
    ensures FirstQualifying(input, open, inner, i)
  {
  }

  /** The next opening, at `i`, does not qualify; neither does anything
      before the end of its marker. */
  lemma OpeningSkipped(input: string, open: string, inner: string, from: int, i: int)
    requires NoSelfOverlap(open) && 0 <= from <= i
    requires IsAt(input, open, i) && forall j :: from <= j < i ==> !IsAt(input, open, j)
    requires NoneQualifyBefore(input, open, inner, from)
    requires !OpensWith(input, inner, i + |open|)
    ensures i < i + |open| <= |input|
    ensures NoneQualifyBefore(input, open, inner, i + |open|)
  {
    forall j | i < j < i + |open|
      ensures !IsAt(input, open, j)
    {
      NoOverlappingOpening(input, open, i, j);
    }
    SkipPast(input, open, inner, from, i);
  }

  /** The opening at `i` does not qualify and no other opening starts
      between `from` and its end, so none qualifies before that end. */
  lemma SkipPast(input: string, open: string, inner: string, from: int, i: int)
    requires 0 <= from <= i
    requires NoneQualifyBefore(input, open, inner, from)
    requires forall j :: from <= j < i + |open| && j != i ==> !IsAt(input, open, j)
    requires !Qualifies(input, open, inner, i)
    ensures NoneQualifyBefore(input, open, inner, i + |open|)
  {
    forall j | 0 <= j < i + |open|
      ensures !Qualifies(input, open, inner, j)
    {
      if from <= j && j != i {
        assert !IsAt(input, open, j);
      }
    }
  }

  /** The next opening qualifies and its region closes. */
  lemma ClosedSpan(input: string, open: string, inner: string, close: string, i: nat, j: nat)
    requires FirstQualifying(input, open, inner, i)
    requires FirstAt(input[i + |open|..], close, j)
    ensures SpanAnswer(input, open, inner, close, Some((i, i + |open| + j + |close|)))
  {
    SpanIsEnclosed(input, open, close, i, j);
  }

  /** The next opening qualifies but its region never closes. */
  lemma UnclosedSpan(input: string, open: string, inner: string, close: string, i: nat)
    requires FirstQualifying(input, open, inner, i)
    requires !Contains(input[i + |open|..], close)
    ensures SpanAnswer(input, open, inner, close, None)
  {
  }

  /** One pass of the scanning loop: either it settles the answer, or it
      skips a non-qualifying opening and the scan resumes at `next`. */
  datatype ScanStep = Settled(answer: Option<(nat, nat)>) | Resume(next: nat)

  /** The body of the scanning loop of `find_wares_xml_slice`, run on the
      remainder that starts at `from`: find the next opening; when its content
      opens with `inner`, take the region up to the nearest `close` (or give
      up when there is none), otherwise resume right after the opening. */
  function Step(input: string, open: string, inner: string, close: string, from: nat): (s: ScanStep)
    requires NoSelfOverlap(open) && from < |input|
    requires NoneQualifyBefore(input, open, inner, from)
    ensures s.Settled? ==> SpanAnswer(input, open, inner, close, s.answer)
    ensures s.Resume? ==> from < s.next <= |input| && NoneQualifyBefore(input, open, inner, s.next)
  {
    match Find(input[from..], open)
    case None =>
      NoOpeningLeft(input, open, inner, close, from);
      Settled(None)
    case Some(i0) =>
      FirstFrom(input, open, from, i0);
      StepAt(input, open, inner, close, from, from + i0)
  }

  /** The pass of `Step` once the next opening is known to sit at `i`. */
  function StepAt(input: string, open: string, inner: string, close: string, from: nat, i: nat): (s: ScanStep)
    requires NoSelfOverlap(open) && from <= i
    requires IsAt(input, open, i) && forall j :: from <= j < i ==> !IsAt(input, open, j)
    requires NoneQualifyBefore(input, open, inner, from)
    ensures s.Settled? ==> SpanAnswer(input, open, inner, close, s.answer)
    ensures s.Resume? ==> from < s.next <= |input| && NoneQualifyBefore(input, open, inner, s.next)
  {
    var x := i + |open|;
    if OpensWith(input, inner, x) then
      OpeningQualifies(input, open, inner, from, i);
      Settled(SpanFrom(input, open, inner, close, i))
    else
      OpeningSkipped(input, open, inner, from, i);
      Resume(x)
  }

  /** The region of the first qualifying opening, at `i`: up to the
      nearest `close` after its marker, or none when no `close` follows. */
  function SpanFrom(input: string, open: string, inner: string, close: string, i: nat): (r: Option<(nat, nat)>)
    requires FirstQualifying(input, open, inner, i)
    ensures SpanAnswer(input, open, inner, close, r)
  {
    assert Qualifies(input, open, inner, i);
    assert IsAt(input, open, i);
    var x := i + |open|;
    match Find(input[x..], close)
    case None =>
      UnclosedSpan(input, open, inner, close, i);
      None
    case Some(j) =>
      ClosedSpan(input, open, inner, close, i, j);
      Some((i, x + j + |close|))
  }

  /** The scanning loop of `find_wares_xml_slice`, for any markers, run
      until the remainder is empty or a pass settles the answer. Where the
      program rebinds the remaining text, `from` records where that
      remainder starts in the whole input. */
  function FindQualifyingSpan(input: string, open: string, inner: string, close: string, from: nat): (r: Option<(nat, nat)>)
    requires NoSelfOverlap(open) && from <= |input|
    requires NoneQualifyBefore(input, open, inner, from)
    ensures SpanAnswer(input, open, inner, close, r)
    decreases |input| - from
  {
    if from == |input| then
      NoOpeningLeft(input, open, inner, close, from);
      None
    else
      match Step(input, open, inner, close, from)
      case Settled(answer) => answer
      case Resume(next) => FindQualifyingSpan(input, open, inner, close, next)
  }

  lemma WaresOpenNoSelfOverlap()
    ensures NoSelfOverlap(WaresOpen)
  {
  }

  /** `find_wares_xml_slice`: the first `<wares>` whose content opens with
      `<production>`, up to the nearest `</wares>`. The remainder is empty,
      so at most one such section is ever extracted. */
  function FindWaresSlice(input: string): (r: Option<Found>)
    ensures r.Some? ==> r.value.rest == [] && |input| > 0
    ensures r.Some? ==>
      && FirstQualifying(input, WaresOpen, ProductionOpen, r.value.at)
      && Enclosed(input, r.value.at, WaresOpen, WaresClose, r.value.slice)
    ensures r.None? ==>
      || (forall i :: 0 <= i ==> !Qualifies(input, WaresOpen, ProductionOpen, i))
      || exists i :: FirstQualifying(input, WaresOpen, ProductionOpen, i)
           && !Contains(input[i + |WaresOpen|..], WaresClose)
  {
    WaresOpenNoSelfOverlap();
    match FindQualifyingSpan(input, WaresOpen, ProductionOpen, WaresClose, 0)
    case None => None
    case Some((i, e)) =>
      Some(Found(input[e..e], input[i..e], i))
  }

  /** A scanner that always hands back a shorter remainder, so restarting
      it on each remainder ends. */
  ghost predicate Shrinks(finder: string -> Option<Found>) {
    forall s :: finder(s).Some? ==> |finder(s).value.rest| < |s|
  }

  lemma TranslationFinderShrinks()
    ensures Shrinks(FindTranslationSlice)
  {
  }

  lemma WaresFinderShrinks()
    ensures Shrinks(FindWaresSlice)
  {
  }

  /** Every region the scanner finds when restarted on each remainder. */
  function Slices(finder: string -> Option<Found>, input: string): seq<string>
    requires Shrinks(finder)
    decreases |input|
  {
    match finder(input)
    case None => []
    case Some(f) => [f.slice] + Slices(finder, f.rest)
  }

  /** The first slice in `slices` that `parse` rejects. */
  predicate FirstRejected(slices: seq<string>, parse: string -> Option<Xml.Node>, k: int) {
    0 <= k < |slices| && parse(slices[k]).None?
    && forall j :: 0 <= j < k ==> parse(slices[j]).Some?
  }

  /** `docs` parsed ahead of whatever `r` holds. */
  function Prepend(docs: seq<Xml.Node>, r: Result<seq<Xml.Node>>): Result<seq<Xml.Node>> {
    match r
    case Ok(rest) => Ok(docs + rest)
    case Err(e) => Err(e)
  }

  lemma PrependNothing(r: Result<seq<Xml.Node>>)
    ensures Prepend([], r) == r
  {
    if r.Ok? {
      assert [] + r.value == r.value;
    }
  }

  lemma PrependTwice(a: seq<Xml.Node>, b: seq<Xml.Node>, r: Result<seq<Xml.Node>>)
    ensures Prepend(a, Prepend(b, r)) == Prepend(a + b, r)
  {
    if r.Ok? {
      assert a + (b + r.value) == (a + b) + r.value;
    }
  }

  /** Parsing every region in order, stopping at the first the parser
      rejects: either every region parses, and the documents come back in
      region order, or the first rejected region is reported. */
  function ParseAll(slices: seq<string>, parse: string -> Option<Xml.Node>): (r: Result<seq<Xml.Node>>)
    ensures r.Ok? <==> forall k :: 0 <= k < |slices| ==> parse(slices[k]).Some?
    ensures r.Ok? ==>
      && |r.value| == |slices|
      && forall k :: 0 <= k < |slices| ==> Some(r.value[k]) == parse(slices[k])
    ensures r.Err? ==> exists k :: FirstRejected(slices, parse, k) && r.error == InvalidXml(slices[k])
  {
    if |slices| == 0 then
      Ok([])
    else
      match parse(slices[0])
      case None =>
        assert FirstRejected(slices, parse, 0);
        Err(InvalidXml(slices[0]))
      case Some(d) =>
        var rest := ParseAll(slices[1..], parse);
        if rest.Err? then
          var k :| FirstRejected(slices[1..], parse, k) && rest.error == InvalidXml(slices[1..][k]);
          assert FirstRejected(slices, parse, k + 1);
          rest
        else
          assert forall k :: 1 <= k < |slices| ==> slices[k] == slices[1..][k - 1];
          Ok([d] + rest.value)
  }

  /** Parsing regions one at a time: the first, then the rest. */
  lemma ParseAllCons(first: string, rest: seq<string>, parse: string -> Option<Xml.Node>)
    ensures parse(first).None? ==> ParseAll([first] + rest, parse) == Err(InvalidXml(first))
    ensures parse(first).Some? ==>
      ParseAll([first] + rest, parse) == Prepend([parse(first).value], ParseAll(rest, parse))
  {
    assert ([first] + rest)[1..] == rest;
    var r := ParseAll(rest, parse);
    if parse(first).Some? && r.Ok? {
      assert ParseAll([first] + rest, parse).value == [parse(first).value] + r.value;
    }
  }

  /** At most one wares region is ever cut out: the wares scanner leaves
      nothing to scan after it. */
  lemma WaresSectionSingle(input: string)
    ensures Shrinks(FindWaresSlice)
    ensures |Slices(FindWaresSlice, input)| <= 1
  {
    WaresFinderShrinks();
    match FindWaresSlice(input)
    case None =>
    case Some(f) =>
      assert FindWaresSlice(f.rest).None?;
  }

  /** `read_xml`: cut out every region and parse each. No region at all is
      `XmlPartNotFound`; otherwise the documents of all regions, or the first
      region the parser rejects. */
  method ReadXml(input: string, finder: string -> Option<Found>, name: string, parse: string -> Option<Xml.Node>)
    returns (r: Result<seq<Xml.Node>>)
    requires Shrinks(finder)
    ensures |Slices(finder, input)| == 0 ==> r == Err(XmlPartNotFound(name))
    ensures |Slices(finder, input)| > 0 ==> r == ParseAll(Slices(finder, input), parse)
  {
    var docs: seq<Xml.Node> := [];
    var remaining := input;
    ghost var done: seq<string> := [];
    PrependNothing(ParseAll(Slices(finder, input), parse));
    while true
      invariant Slices(finder, input) == done + Slices(finder, remaining)
      invariant |docs| == |done|
      invariant ParseAll(Slices(finder, input), parse) == Prepend(docs, ParseAll(Slices(finder, remaining), parse))
      decreases |remaining|
    {
      var found := finder(remaining);
      if found.None? {
        break;
      }
      var f := found.value;
      var tail := Slices(finder, f.rest);
      assert Slices(finder, remaining) == [f.slice] + tail;
      ParseAllCons(f.slice, tail, parse);
      var doc := parse(f.slice);
      if doc.None? {
        return Err(InvalidXml(f.slice));
      }
      PrependTwice(docs, [doc.value], ParseAll(tail, parse));
      docs := docs + [doc.value];
      done := done + [f.slice];
      remaining := f.rest;
    }
    assert docs + [] == docs;
    if |docs| == 0 {
      return Err(XmlPartNotFound(name));
    }
    return Ok(docs);
  }

  /** The `<languages>` region that `find_langs` parses. Its trim is the
      identity (the region starts with `<` and ends with `>`), so the
      program's empty-region check cannot fire and is not modelled. */
  function FindLanguagesSlice(input: string): (r: Result<string>)
    ensures r.Ok? ==>
      exists i :: FirstAt(input, LanguagesOpen, i) && Enclosed(input, i, LanguagesOpen, LanguagesClose, r.value)
    ensures r.Err? ==>
      || (r.error == SubstrNotFound(LanguagesOpen) && !Contains(input, LanguagesOpen))
      || (r.error == SubstrNotFound(LanguagesClose)
          && exists i :: FirstAt(input, LanguagesOpen, i) && !Contains(input[i + |LanguagesOpen|..], LanguagesClose))
  {
    var (i, e) :- FindSpan(input, LanguagesOpen, LanguagesClose);
    var raw := input[i..e];
    MarkupTrimKeeps(raw, LanguagesOpen, LanguagesClose);
    Ok(Trim(raw))
  }

  /** A region that starts with `<` and ends with `>` survives trimming. */
  lemma MarkupTrimKeeps(raw: string, open: string, close: string)
    requires |open| > 0 && open[0] == '<' && |close| > 0 && close[|close| - 1] == '>'
    requires |open| + |close| <= |raw| && StartsWith(raw, open) && EndsWith(raw, close)
    ensures Trim(raw) == raw
  {
    assert raw[0] == raw[..|open|][0];
    assert raw[|raw| - 1] == raw[|raw| - |close|..][|close| - 1];
    TrimUntouched(raw);
  }
}
