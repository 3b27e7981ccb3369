/** The language list in the game's `<languages>` block: each language is an
    element labelled by the comment before it, and the comment, not the
    element's own name attribute, says which language it is. */
module Languages {
  import opened Errors
  import opened Text
  import opened Xml
  import Slicing

  /** A comment and the element it labels. */
  type Labelled = (Node, Node)

  /** Language codes with the id of each language's element. */
  type Langs = seq<(string, string)>

  // ---------------------------------------------------------------------
  // `CommentTagIter`: pairing comments with the elements they label
  // ---------------------------------------------------------------------

  /** One call of `CommentTagIter::next`, taking the node at `c` as the
      current node: the pair it yields and the index it stops after, or
      `None` when the neighbours run out first. */
  function ScanFrom(ns: seq<Node>, c: nat): (r: Option<(Labelled, nat)>)
    requires c < |ns|
    ensures r.Some? ==> c + 2 <= r.value.1 <= |ns|
    ensures r.Some? ==> r.value.0.0.Comment? && r.value.0.1.Element?
    decreases |ns| - c
  {
    if ns[c].Comment? then
      if c + 1 == |ns| then None
      else if ns[c + 1].Element? then Some(((ns[c], ns[c + 1]), c + 2))
      else if ns[c + 1].Text? then
        if c + 2 == |ns| then None
        else if ns[c + 2].Element? then Some(((ns[c], ns[c + 2]), c + 3))
        else ScanFrom(ns, c + 2)
      else ScanFrom(ns, c + 1)
    else if c + 1 == |ns| then None
    else ScanFrom(ns, c + 1)
  }

  /** `next` on an iterator positioned at `p`. */
  function NextPair(ns: seq<Node>, p: nat): (r: Option<(Labelled, nat)>)
    requires p <= |ns|
    ensures r.Some? ==> p < r.value.1 <= |ns|
    ensures r.Some? ==> r.value.0.0.Comment? && r.value.0.1.Element?
  {
    if p == |ns| then None else ScanFrom(ns, p)
  }

  /** Every pair the iterator yields from position `p` on. */
  function CommentTagPairs(ns: seq<Node>, p: nat): (r: seq<Labelled>)
    requires p <= |ns|
    ensures forall x :: x in r ==> x.0.Comment? && x.1.Element?
    decreases |ns| - p
  {
    match NextPair(ns, p)
    case None => []
    case Some((pair, q)) => [pair] + CommentTagPairs(ns, q)
  }

  /** The element a comment at `c` labels: the node right after it, or the
      one after that when a text node sits between them. */
  function LabelAt(ns: seq<Node>, c: nat): Option<Labelled> {
    if c < |ns| && ns[c].Comment? then
      if c + 1 < |ns| && ns[c + 1].Element? then Some((ns[c], ns[c + 1]))
      else if c + 2 < |ns| && ns[c + 1].Text? && ns[c + 2].Element? then Some((ns[c], ns[c + 2]))
      else None
    else
      None
  }

  /** The labelled elements from `p` on, comment by comment: the reference
      the iterator is measured against. */
  function Labels(ns: seq<Node>, p: nat): seq<Labelled>
    requires p <= |ns|
    decreases |ns| - p
  {
    if p == |ns| then []
    else
      match LabelAt(ns, p)
      case Some(l) => [l] + Labels(ns, p + 1)
      case None => Labels(ns, p + 1)
  }

  /** One pass of the iterator yields the next labelled element and skips
      nothing: no comment it steps over labels anything. */
  lemma {:induction false} ScanFindsNextLabel(ns: seq<Node>, c: nat)
    requires c < |ns|
    ensures ScanFrom(ns, c).None? ==> Labels(ns, c) == []
    ensures ScanFrom(ns, c).Some? ==>
      Labels(ns, c) == [ScanFrom(ns, c).value.0] + Labels(ns, ScanFrom(ns, c).value.1)
    decreases |ns| - c
  {
    if ns[c].Comment? {
      if c + 1 == |ns| {
      } else if ns[c + 1].Element? {
        assert Labels(ns, c + 1) == Labels(ns, c + 2);
      } else if ns[c + 1].Text? {
        assert Labels(ns, c + 1) == Labels(ns, c + 2);
        if c + 2 < |ns| && ns[c + 2].Element? {
          assert Labels(ns, c + 2) == Labels(ns, c + 3);
        } else if c + 2 < |ns| {
          ScanFindsNextLabel(ns, c + 2);
        }
      } else {
        ScanFindsNextLabel(ns, c + 1);
      }
    } else if c + 1 < |ns| {
      ScanFindsNextLabel(ns, c + 1);
    }
  }

  /** The iterator yields exactly the labelled elements, in order. */
  lemma {:induction false} CommentTagPairsAreLabels(ns: seq<Node>, p: nat)
    requires p <= |ns|
    ensures CommentTagPairs(ns, p) == Labels(ns, p)
    decreases |ns| - p
  {
    if p < |ns| {
      ScanFindsNextLabel(ns, p);
      match ScanFrom(ns, p)
      case None =>
      case Some((_, q)) =>
        CommentTagPairsAreLabels(ns, q);
    }
  }

  // ---------------------------------------------------------------------
  // `try_name_to_unicode_id`
  // ---------------------------------------------------------------------

  /** The English language names the game's comments use, which have
      short codes of their own. */
  const KnownNames: set<string> := {
    "English", "German", "French", "Italian", "Russian", "Spanish",
    "Portuguese (Brazil)", "Polish", "Simplified Chinese", "Traditional Chinese",
    "Korean", "Japanese"
  }

  /** The code both Chinese variants share. */
  const Chinese: string := "ch"

  /** `try_name_to_unicode_id`: the two-letter code of a known language
      name; any other name is its own code. */
  function NameToCode(name: string): (code: string)
    ensures name !in KnownNames ==> code == name
    ensures name in KnownNames ==> |code| == 2
  {
    match name
    case "English" => "en"
    case "German" => "de"
    case "French" => "fr"
    case "Italian" => "it"
    case "Russian" => "ru"
    case "Spanish" => "sp"
    case "Portuguese (Brazil)" => "pt"
    case "Polish" => "pl"
    case "Simplified Chinese" => Chinese
    case "Traditional Chinese" => Chinese
    case "Korean" => "kr"
    case "Japanese" => "jp"
    case _ => name
  }

  /** Known names get distinct codes, except the two Chinese variants,
      which share one. */
  lemma KnownCodesDistinct(a: string, b: string)
    requires a in KnownNames && b in KnownNames
    ensures NameToCode(a) == NameToCode(b) <==> a == b || NameToCode(a) == NameToCode(b) == Chinese
  {
  }

  // ---------------------------------------------------------------------
  // `collect_lang_from_pairs`
  // ---------------------------------------------------------------------

  /** The trimmed text of a comment. */
  function CommentText(c: Node): string
    requires c.Comment?
  {
    Trim(c.text)
  }

  /** The `<language>` elements among the pairs, each with the code its
      comment names. */
  function LanguageEntries(pairs: seq<Labelled>): (es: seq<(string, Node)>)
    requires forall x :: x in pairs ==> x.0.Comment?
    ensures |es| <= |pairs|
    ensures forall e :: e in es ==> HasTag(e.1, "language")
  {
    if |pairs| == 0 then []
    else
      var rest := LanguageEntries(pairs[1..]);
      if HasTag(pairs[0].1, "language") then
        [(NameToCode(CommentText(pairs[0].0)), pairs[0].1)] + rest
      else
        rest
  }

  /** Entry `i` is the first with its code. */
  predicate IsFirst(es: seq<(string, Node)>, i: nat)
    requires i < |es|
  {
    forall j :: 0 <= j < i ==> es[j].0 != es[i].0
  }

  /** Entry `i` repeats an earlier code other than the Chinese one. */
  predicate Clash(es: seq<(string, Node)>, i: nat)
    requires i < |es|
  {
    !IsFirst(es, i) && es[i].0 != Chinese
  }

  /** Entry `i` is the first with its code but has no `id`. */
  predicate Missing(es: seq<(string, Node)>, i: nat)
    requires i < |es|
  {
    IsFirst(es, i) && Attribute(es[i].1, "id").None?
  }

  predicate Fails(es: seq<(string, Node)>, i: nat)
    requires i < |es|
  {
    Clash(es, i) || Missing(es, i)
  }

  /** The error a failing entry raises. */
  function FailureAt(es: seq<(string, Node)>, i: nat): DataError
    requires i < |es|
  {
    if Clash(es, i) then DuplicateValue(es[i].0) else AttributeNotFound("id")
  }

  ghost function KeysBefore(es: seq<(string, Node)>, i: nat): set<string>
    requires i <= |es|
  {
    set j | 0 <= j < i :: es[j].0
  }

  ghost function Keys(acc: seq<(string, string)>): set<string> {
    set m | 0 <= m < |acc| :: acc[m].0
  }

  ghost function Elements(acc: seq<(string, string)>): set<(string, string)> {
    set m | 0 <= m < |acc| :: acc[m]
  }

  /** The (code, id) pairs of the first entries for each code among the
      first `i` entries. */
  ghost function Expected(es: seq<(string, Node)>, i: nat): set<(string, string)>
    requires i <= |es|
  {
    set j | 0 <= j < i && IsFirst(es, j) && Attribute(es[j].1, "id").Some? :: (es[j].0, Attribute(es[j].1, "id").value)
  }

  predicate DistinctKeys(acc: seq<(string, string)>) {
    forall a, b :: 0 <= a < b < |acc| ==> acc[a].0 != acc[b].0
  }

  function KeyFound(acc: seq<(string, string)>, key: string): (r: bool)
    ensures r <==> key in Keys(acc)
  {
    exists m :: 0 <= m < |acc| && acc[m].0 == key
  }

  /** What the accumulated list holds after the first `i` entries. */
  ghost predicate Collected(es: seq<(string, Node)>, i: nat, acc: seq<(string, string)>)
    requires i <= |es|
  {
    && Keys(acc) == KeysBefore(es, i)
    && DistinctKeys(acc)
    && Elements(acc) == Expected(es, i)
    && forall j :: 0 <= j < i ==> !Fails(es, j)
  }

  lemma KeysBeforeMeansRepeat(es: seq<(string, Node)>, i: nat)
    requires i < |es|
    ensures es[i].0 in KeysBefore(es, i) <==> !IsFirst(es, i)
  {
    if !IsFirst(es, i) {
      var j :| 0 <= j < i && es[j].0 == es[i].0;
      assert es[j].0 in KeysBefore(es, i);
    }
  }

  /** Skipping a repeated Chinese entry keeps the accumulated list right. */
  lemma CollectSkip(es: seq<(string, Node)>, i: nat, acc: seq<(string, string)>)
    requires i < |es| && Collected(es, i, acc)
    requires !IsFirst(es, i) && es[i].0 == Chinese
    ensures Collected(es, i + 1, acc)
  {
    KeysBeforeMeansRepeat(es, i);
    KeysBeforeSnoc(es, i);
    ExpectedSkip(es, i);
    NoFailureSnoc(es, i);
  }

  lemma NoFailureSnoc(es: seq<(string, Node)>, i: nat)
    requires i < |es| && !Fails(es, i)
    requires forall j :: 0 <= j < i ==> !Fails(es, j)
    ensures forall j :: 0 <= j < i + 1 ==> !Fails(es, j)
  {
  }

  lemma KeysBeforeSnoc(es: seq<(string, Node)>, i: nat)
    requires i < |es|
    ensures KeysBefore(es, i + 1) == KeysBefore(es, i) + {es[i].0}
  {
  }

  /** An entry that is not the first with its code adds nothing expected. */
  lemma ExpectedSkip(es: seq<(string, Node)>, i: nat)
    requires i < |es| && !IsFirst(es, i)
    ensures Expected(es, i + 1) == Expected(es, i)
  {
  }

  /** Keeping a first entry with its id keeps the accumulated list right. */
  lemma CollectKeep(es: seq<(string, Node)>, i: nat, acc: seq<(string, string)>, id: string)
    requires i < |es| && Collected(es, i, acc)
    requires IsFirst(es, i) && Attribute(es[i].1, "id") == Some(id)
    ensures Collected(es, i + 1, acc + [(es[i].0, id)])
  {
    var acc' := acc + [(es[i].0, id)];
    KeysBeforeMeansRepeat(es, i);
    KeysBeforeSnoc(es, i);
    forall x
      ensures x in Keys(acc') <==> x in Keys(acc) + {es[i].0}
    {
      if x in Keys(acc') {
        var m :| 0 <= m < |acc'| && acc'[m].0 == x;
        if m < |acc| {
          assert acc[m].0 == x;
        }
      }
      if x in Keys(acc) {
        var m :| 0 <= m < |acc| && acc[m].0 == x;
        assert acc'[m].0 == x;
      }
      if x == es[i].0 {
        assert acc'[|acc|].0 == x;
      }
    }
    assert Elements(acc') == Elements(acc) + {(es[i].0, id)} by {
      assert forall m :: 0 <= m < |acc| ==> acc'[m] == acc[m];
    }
    assert Expected(es, i + 1) == Expected(es, i) + {(es[i].0, id)};
    forall a, b | 0 <= a < b < |acc'|
      ensures acc'[a].0 != acc'[b].0
    {
      if b == |acc| {
        assert acc'[a].0 in Keys(acc);
      }
    }
  }

  /** Entry `j` is the first that fails. */
  predicate FirstFailure(es: seq<(string, Node)>, j: int) {
    0 <= j < |es| && Fails(es, j) && forall k :: 0 <= k < j ==> !Fails(es, k)
  }

  /** The loop of `collect_lang_from_pairs` from entry `i` on, with `acc`
      the list built so far. */
  function CollectFrom(es: seq<(string, Node)>, i: nat, acc: seq<(string, string)>): (r: Result<seq<(string, string)>>)
    requires i <= |es| && Collected(es, i, acc)
    ensures r.Ok? <==> forall j :: 0 <= j < |es| ==> !Fails(es, j)
    ensures r.Ok? ==> Collected(es, |es|, r.value)
    ensures r.Err? ==> exists j :: i <= j < |es| && FirstFailure(es, j) && r.error == FailureAt(es, j)
    decreases |es| - i
  {
    if i == |es| then
      Ok(acc)
    else
      var key := es[i].0;
      KeysBeforeMeansRepeat(es, i);
      if KeyFound(acc, key) then
        if key != Chinese then
          assert FirstFailure(es, i);
          Err(DuplicateValue(key))
        else
          CollectSkip(es, i, acc);
          CollectFrom(es, i + 1, acc)
      else
        match Attribute(es[i].1, "id")
        case None =>
          assert FirstFailure(es, i);
          Err(AttributeNotFound("id"))
        case Some(id) =>
          CollectKeep(es, i, acc, id);
          CollectFrom(es, i + 1, acc + [(key, id)])
  }

  /** The language entries among the children of a node. */
  function Entries(ns: seq<Node>): seq<(string, Node)> {
    LanguageEntries(CommentTagPairs(ns, 0))
  }

  /** `collect_lang_from_pairs` on the children of a node: the code and id
      of the first `<language>` element for each code. A repeated code is
      an error unless it is the Chinese one, whose repeats are skipped; a
      kept element without an `id` is an error. */
  function CollectLangs(ns: seq<Node>): (r: Result<seq<(string, string)>>)
    ensures r.Ok? <==> forall j :: 0 <= j < |Entries(ns)| ==> !Fails(Entries(ns), j)
    ensures r.Ok? ==> DistinctKeys(r.value) && Elements(r.value) == Expected(Entries(ns), |Entries(ns)|)
    ensures r.Err? ==> exists j :: 0 <= j < |Entries(ns)| && FirstFailure(Entries(ns), j) && r.error == FailureAt(Entries(ns), j)
  {
    var es := Entries(ns);
    assert Keys([]) == KeysBefore(es, 0);
    assert Elements([]) == Expected(es, 0);
    CollectFrom(es, 0, [])
  }

  // ---------------------------------------------------------------------
  // `find_langs_rec` and `find_langs`
  // ---------------------------------------------------------------------

  /** `find_langs_rec`: the node's own children when they form a language
      list, otherwise the first child subtree that holds one. A leaf's
      empty child list is itself an (empty) language list, so a leaf never
      yields `NoChildren`; `FindLangsRecNeverFails` shows that no node
      yields an error at all. */
  function FindLangsRec(n: Node): (r: Result<seq<(string, string)>>)
    ensures |Children(n)| == 0 ==> r == Ok([])
    decreases n, 1
  {
    assert |Entries([])| == 0;
    match CollectLangs(Children(n))
    case Ok(langs) => Ok(langs)
    case Err(_) => SearchChildren(n, 0, None)
  }

  /** The loop over the children of `n` from child `i` on; `prev` holds the
      error of the last child searched. */
  function SearchChildren(n: Node, i: nat, prev: Option<DataError>): (r: Result<seq<(string, string)>>)
    requires i <= |Children(n)|
    ensures i == |Children(n)| ==> r == Err(prev.GetOr(NoChildren))
    decreases n, 0, |Children(n)| - i
  {
    if i == |Children(n)| then
      Err(prev.GetOr(NoChildren))
    else
      match FindLangsRec(n.children[i])
      case Ok(langs) => Ok(langs)
      case Err(e) => SearchChildren(n, i + 1, Some(e))
  }

  /** The search never fails: the error of the last child and `NoChildren`
      are never returned. Below every node that is not a language list
      itself lies a first child, and following first children ends at a
      leaf, whose empty child list is a language list. */
  lemma {:induction false} FindLangsRecNeverFails(n: Node)
    ensures FindLangsRec(n).Ok?
  {
    if CollectLangs(Children(n)).Err? {
      assert |Children(n)| > 0;
      FindLangsRecNeverFails(n.children[0]);
    }
  }

  /** The nodes of the subtree under `n`, in document order. */
  function Subtree(n: Node): (r: seq<Node>)
    ensures |r| > 0 && r[0] == n
    decreases n, 1
  {
    [n] + Subtrees(n, 0)
  }

  function Subtrees(n: Node, i: nat): seq<Node>
    requires i <= |Children(n)|
    decreases n, 0, |Children(n)| - i
  {
    if i == |Children(n)| then [] else Subtree(n.children[i]) + Subtrees(n, i + 1)
  }

  /** The language list of the first node in `ns` whose children form one. */
  function FirstList(ns: seq<Node>): Option<seq<(string, string)>> {
    if |ns| == 0 then None
    else
      match CollectLangs(Children(ns[0]))
      case Ok(langs) => Some(langs)
      case Err(_) => FirstList(ns[1..])
  }

  lemma {:induction false} FirstListAppend(a: seq<Node>, b: seq<Node>)
    ensures FirstList(a + b) == if FirstList(a).Some? then FirstList(a) else FirstList(b)
  {
    if |a| > 0 {
      assert (a + b)[0] == a[0];
      assert (a + b)[1..] == a[1..] + b;
      FirstListAppend(a[1..], b);
    } else {
      assert a + b == b;
    }
  }

  /** The search is a depth-first search in document order: it succeeds
      exactly when some node of the subtree has children forming a language
      list, and returns the list of the first such node. */
  lemma {:induction false} FindLangsRecIsFirstInDocumentOrder(n: Node)
    ensures Agrees(FindLangsRec(n), FirstList(Subtree(n)))
    decreases n, 1
  {
    var s := Subtree(n);
    FirstListAppend([n], Subtrees(n, 0));
    assert FirstList([n]) == if CollectLangs(Children(n)).Ok? then Some(CollectLangs(Children(n)).value) else FirstList([n][1..]);
    assert [n][1..] == [];
    if CollectLangs(Children(n)).Err? {
      SearchChildrenIsFirst(n, 0, None);
    }
  }

  lemma {:induction false} SearchChildrenIsFirst(n: Node, i: nat, prev: Option<DataError>)
    requires i <= |Children(n)|
    ensures Agrees(SearchChildren(n, i, prev), FirstList(Subtrees(n, i)))
    decreases n, 0, |Children(n)| - i, 1
  {
    if i < |Children(n)| {
      SearchStep(n, i, prev);
    } else {
      assert Subtrees(n, i) == [];
    }
  }

  /** A search result and the first list of a node sequence agree. */
  predicate Agrees(r: Result<Langs>, f: Option<Langs>) {
    (r.Ok? <==> f.Some?) && (r.Ok? ==> f == Some(r.value))
  }

  /** The error the search carries on past a child. */
  function NextPrev(x: Result<Langs>): Option<DataError> {
    if x.Err? then Some(x.error) else None
  }

  /** One step of the search, given what is known of the child and of the
      rest. */
  lemma {:induction false} SearchStep(n: Node, i: nat, prev: Option<DataError>)
    requires i < |Children(n)|
    ensures Agrees(SearchChildren(n, i, prev), FirstList(Subtrees(n, i)))
    decreases n, 0, |Children(n)| - i, 0
  {
    var c := n.children[i];
    var x := FindLangsRec(c);
    FindLangsRecIsFirstInDocumentOrder(c);
    SearchChildrenIsFirst(n, i + 1, NextPrev(x));
    SearchUnfold(n, i, prev);
    FirstListAppend(Subtree(c), Subtrees(n, i + 1));
    FirstOfTwo(x, FirstList(Subtree(c)), SearchChildren(n, i + 1, NextPrev(x)), FirstList(Subtrees(n, i + 1)),
               SearchChildren(n, i, prev), FirstList(Subtrees(n, i)));
  }

  lemma SearchUnfold(n: Node, i: nat, prev: Option<DataError>)
    requires i < |Children(n)|
    ensures Subtrees(n, i) == Subtree(n.children[i]) + Subtrees(n, i + 1)
    ensures var x := FindLangsRec(n.children[i]);
      SearchChildren(n, i, prev) == if x.Ok? then Ok(x.value) else SearchChildren(n, i + 1, NextPrev(x))
  {
  }

  /** A search that tries a first part and then the rest finds what the
      first part finds, or else what the rest finds. */
  lemma FirstOfTwo(x: Result<Langs>, fx: Option<Langs>, y: Result<Langs>, fy: Option<Langs>, z: Result<Langs>, fz: Option<Langs>)
    requires Agrees(x, fx) && Agrees(y, fy)
    requires z == if x.Ok? then Ok(x.value) else y
    requires fz == if fx.Some? then fx else fy
    ensures Agrees(z, fz)
  {
  }

  /** `find_langs`: cut out the `<languages>` block, parse it with `parse`
      (the XML parser, yielding the root element) and search it. */
  function FindLangs(input: string, parse: string -> Option<Node>): (r: Result<seq<(string, string)>>)
    ensures Slicing.FindLanguagesSlice(input).Err? ==> r == Err(Slicing.FindLanguagesSlice(input).error)
    ensures Slicing.FindLanguagesSlice(input).Ok? && parse(Slicing.FindLanguagesSlice(input).value).None? ==>
      r == Err(InvalidXml(Slicing.FindLanguagesSlice(input).value))
    ensures r.Ok? ==> exists root ::
      && parse(Slicing.FindLanguagesSlice(input).value) == Some(root)
      && FirstList(Subtree(root)) == Some(r.value)
    ensures Slicing.FindLanguagesSlice(input).Ok? ==>
      forall root :: parse(Slicing.FindLanguagesSlice(input).value) == Some(root) ==> Agrees(r, FirstList(Subtree(root)))
  {
    var slice :- Slicing.FindLanguagesSlice(input);
    match parse(slice)
    case None => Err(InvalidXml(slice))
    case Some(root) =>
      FindLangsRecIsFirstInDocumentOrder(root);
      FindLangsRec(root)
  }
}
