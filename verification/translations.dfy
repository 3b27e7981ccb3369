/** Translation resolution (`Translations`): reading a translation text
    out of a language document, with its leading comment removed and every
    `{page,item}` reference replaced by the text it points to; the
    per-language tables built for the catalog's wares and methods; and the
    lookup that falls back to English. */
module Translations {
  import opened Errors
  import opened Text
  import opened Xml
  import opened Catalog

  // ---------------------------------------------------------------------
  // The leading comment `^\((?:[[:word:]]|[ \-_])+\)`
  // ---------------------------------------------------------------------

  /** A character allowed inside a leading comment. */
  predicate IsCommentChar(c: char) {
    IsWordChar(c) || c == ' ' || c == '-' || c == '_'
  }

  predicate AllCommentChars(s: string) {
    forall i :: 0 <= i < |s| ==> IsCommentChar(s[i])
  }

  /** The length of the longest prefix of comment characters. */
  function CommentRun(s: string): (r: nat)
    ensures r <= |s| && AllCommentChars(s[..r])
    ensures r < |s| ==> !IsCommentChar(s[r])
  {
    if |s| > 0 && IsCommentChar(s[0]) then
      var k := CommentRun(s[1..]);
      assert s[..k + 1] == [s[0]] + s[1..][..k];
      k + 1
    else
      0
  }

  lemma {:induction false} CommentRunOf(c: string, rest: string)
    requires AllCommentChars(c) && (|rest| == 0 || !IsCommentChar(rest[0]))
    ensures CommentRun(c + rest) == |c|
  {
    if |c| > 0 {
      assert (c + rest)[1..] == c[1..] + rest;
      CommentRunOf(c[1..], rest);
    }
  }

  /** `s` starts with a comment `(c)` and goes on with `rest`. */
  ghost predicate CommentThen(s: string, c: string, rest: string) {
    |c| > 0 && AllCommentChars(c) && s == "(" + c + ")" + rest
  }

  /** `RE_COMMENT.replace(content, "")`: removes one leading comment. The
      comment class holds no parenthesis, so the longest run of comment
      characters after `(` decides the match. */
  function StripComment(s: string): (r: string)
    ensures r == s || exists c :: CommentThen(s, c, r)
    ensures r != s ==> |r| < |s|
  {
    if |s| == 0 || s[0] != '(' then s
    else
      var n := CommentRun(s[1..]);
      if n == 0 || n + 1 >= |s| || s[n + 1] != ')' then s
      else
        assert s[1..][..n] == s[1..n + 1];
        assert s == "(" + s[1..n + 1] + ")" + s[n + 2..];
        assert CommentThen(s, s[1..n + 1], s[n + 2..]);
        s[n + 2..]
  }

  /** A text that starts with a comment loses exactly that comment. */
  lemma StripCommentRemoves(c: string, rest: string)
    requires |c| > 0 && AllCommentChars(c)
    ensures StripComment("(" + c + ")" + rest) == rest
  {
    var s := "(" + c + ")" + rest;
    assert s[1..] == c + (")" + rest);
    CommentRunOf(c, ")" + rest);
    assert s[|c| + 2..] == rest;
  }

  /** A text that does not start with `(` is left alone. */
  lemma StripCommentKeeps(s: string)
    requires |s| == 0 || s[0] != '('
    ensures StripComment(s) == s
  {
  }

  // ---------------------------------------------------------------------
  // References `\{digits,[[:space:]]*digits\}`
  // ---------------------------------------------------------------------

  /** The first `}` at or after `i`. */
  function CloseFrom(s: string, i: nat): (r: Option<nat>)
    requires i <= |s|
    ensures r.Some? ==> i <= r.value < |s| && s[r.value] == '}' && forall k :: i <= k < r.value ==> s[k] != '}'
    ensures r.None? ==> forall k :: i <= k < |s| ==> s[k] != '}'
    decreases |s| - i
  {
    if i == |s| then None
    else if s[i] == '}' then Some(i)
    else CloseFrom(s, i + 1)
  }

  /** No prefix of `t` is a reference. */
  ghost predicate NoRefStart(t: string) {
    forall e :: 0 < e <= |t| ==> MatchLocator(t[..e]).None?
  }

  /** A spelled locator opens with `{`, closes with `}` and holds no other
      `}`. */
  lemma SpelledBraces(t: string, loc: Locator)
    requires WellFormedLocator(loc) && SpellsLocator(t, loc)
    ensures |t| > 0 && t[0] == '{' && t[|t| - 1] == '}'
    ensures forall k :: 0 <= k < |t| - 1 ==> t[k] != '}'
  {
    var sp :| AllAsciiSpace(sp) && t == LocatorText(loc.page, sp, loc.item);
    var body := loc.page + "," + sp + loc.item;
    assert t == "{" + body + "}";
    forall k | 0 <= k < |body|
      ensures body[k] != '}'
    {
      if k < |loc.page| {
        assert body[k] == loc.page[k];
      } else if k == |loc.page| {
        assert body[k] == ',';
      } else if k < |loc.page| + 1 + |sp| {
        assert body[k] == sp[k - |loc.page| - 1];
      } else {
        assert body[k] == loc.item[k - |loc.page| - 1 - |sp|];
      }
    }
    assert forall k :: 1 <= k < |t| - 1 ==> t[k] == body[k - 1];
  }

  /** The reference that starts at `i`, with the position after it. A
      reference holds a single `}`, its last character, so it can only end
      at the first `}` from `i` on. */
  function RefAt(s: string, i: nat): (r: Option<(Locator, nat)>)
    requires i <= |s|
    ensures r.Some? ==> i < r.value.1 <= |s| && MatchLocator(s[i..r.value.1]) == Some(r.value.0)
  {
    if i < |s| && s[i] == '{' then
      match CloseFrom(s, i)
      case Some(j) => RefUpTo(s, i, j)
      case None => None
    else
      None
  }

  /** When no reference starts at `i`, no prefix of the rest is one. */
  lemma RefAtNone(s: string, i: nat)
    requires i <= |s| && RefAt(s, i).None?
    ensures NoRefStart(s[i..])
  {
    if i < |s| && s[i] == '{' {
      match CloseFrom(s, i)
      case Some(j) =>
        assert RefUpTo(s, i, j).None?;
        NoOtherEnd(s, i, j);
      case None => NoEnd(s, i);
    } else {
      NoOpening(s, i);
    }
  }

  /** The reference from `i` up to and including `j`, if that text is
      one. */
  function RefUpTo(s: string, i: nat, j: nat): (r: Option<(Locator, nat)>)
    requires i <= j < |s|
    ensures r.Some? ==> r.value.1 == j + 1 && MatchLocator(s[i..r.value.1]) == Some(r.value.0)
    ensures r.None? ==> MatchLocator(s[i..j + 1]).None?
  {
    match MatchLocator(s[i..j + 1])
    case Some(loc) => Some((loc, j + 1))
    case None => None
  }

  /** Whatever the recogniser accepts opens with `{`, closes with `}` and
      holds no other `}`. */
  lemma MatchedShape(t: string)
    ensures MatchLocator(t).Some? ==>
      |t| > 0 && t[0] == '{' && t[|t| - 1] == '}' && forall k :: 0 <= k < |t| - 1 ==> t[k] != '}'
  {
    if MatchLocator(t).Some? {
      SpelledBraces(t, MatchLocator(t).value);
    }
  }

  lemma NoOpening(s: string, i: nat)
    requires i <= |s| && (i == |s| || s[i] != '{')
    ensures NoRefStart(s[i..])
  {
    forall e | 0 < e <= |s[i..]|
      ensures MatchLocator(s[i..][..e]).None?
    {
      var t := s[i..][..e];
      assert t[0] == s[i];
      MatchedShape(t);
    }
  }

  lemma NoEnd(s: string, i: nat)
    requires i <= |s| && forall k :: i <= k < |s| ==> s[k] != '}'
    ensures NoRefStart(s[i..])
  {
    forall e | 0 < e <= |s[i..]|
      ensures MatchLocator(s[i..][..e]).None?
    {
      var t := s[i..][..e];
      assert t[e - 1] == s[i + e - 1];
      MatchedShape(t);
    }
  }

  lemma NoOtherEnd(s: string, i: nat, j: nat)
    requires i <= j < |s| && s[j] == '}' && (forall k :: i <= k < j ==> s[k] != '}')
    requires RefUpTo(s, i, j).None?
    ensures NoRefStart(s[i..])
  {
    forall e | 0 < e <= |s[i..]|
      ensures MatchLocator(s[i..][..e]).None?
    {
      OtherEnd(s, i, j, e);
    }
  }

  lemma OtherEnd(s: string, i: nat, j: nat, e: nat)
    requires i <= j < |s| && s[j] == '}' && (forall k :: i <= k < j ==> s[k] != '}')
    requires MatchLocator(s[i..j + 1]).None?
    requires 0 < e <= |s| - i
    ensures MatchLocator(s[i..][..e]).None?
  {
    var t := s[i..][..e];
    MatchedShape(t);
    if i + e - 1 < j {
      assert t[e - 1] == s[i + e - 1];
    } else if i + e - 1 > j {
      assert t[j - i] == s[j];
    } else {
      assert t == s[i..j + 1];
    }
  }

  // ---------------------------------------------------------------------
  // Cutting a text into literal characters and references
  // ---------------------------------------------------------------------

  /** What `RE_REF.replace_all` sees: a character kept as it is, or a
      reference with the text that spelled it. */
  datatype Piece = Lit(c: char) | Ref(loc: Locator, raw: string)

  /** The text the pieces were cut from. */
  function Spell(ps: seq<Piece>): string {
    if |ps| == 0 then ""
    else
      (match ps[0]
       case Lit(c) => [c]
       case Ref(_, raw) => raw) + Spell(ps[1..])
  }

  /** Every piece is as the scan found it: a reference spells its locator,
      and no reference starts at a literal character. */
  ghost predicate Scanned(ps: seq<Piece>) {
    forall k :: 0 <= k < |ps| ==>
      (ps[k].Ref? ==> MatchLocator(ps[k].raw) == Some(ps[k].loc)) &&
      (ps[k].Lit? ==> NoRefStart(Spell(ps[k..])))
  }

  /** The leftmost-first scan for references in `s[i..]`, resuming after
      each reference it finds. */
  function Pieces(s: string, i: nat): (r: seq<Piece>)
    requires i <= |s|
    ensures Spell(r) == s[i..]
    decreases |s| - i
  {
    if i == |s| then []
    else
      match RefAt(s, i)
      case Some((loc, e)) =>
        var rest := Pieces(s, e);
        SpellCons(s, i, Ref(loc, s[i..e]), e, rest);
        [Ref(loc, s[i..e])] + rest
      case None =>
        var rest := Pieces(s, i + 1);
        SpellCons(s, i, Lit(s[i]), i + 1, rest);
        [Lit(s[i])] + rest
  }

  /** The scan finds every reference where `RE_REF` would: each reference
      piece spells its locator, and no reference starts at a literal. */
  lemma {:induction false} PiecesScanned(s: string, i: nat)
    requires i <= |s|
    ensures Scanned(Pieces(s, i))
    decreases |s| - i
  {
    if i < |s| {
      match RefAt(s, i)
      case Some((loc, e)) =>
        var rest := Pieces(s, e);
        PiecesScanned(s, e);
        assert Pieces(s, i) == [Ref(loc, s[i..e])] + rest;
        ScannedCons(Ref(loc, s[i..e]), rest);
      case None =>
        var rest := Pieces(s, i + 1);
        var ps := [Lit(s[i])] + rest;
        PiecesScanned(s, i + 1);
        RefAtNone(s, i);
        assert Pieces(s, i) == ps;
        assert Spell(ps) == s[i..];
        ScannedCons(Lit(s[i]), rest);
    }
  }

  /** A text without `{` is all literals. */
  lemma {:induction false} PiecesLiterals(s: string, i: nat)
    requires i <= |s| && forall k :: i <= k < |s| ==> s[k] != '{'
    ensures forall k :: 0 <= k < |Pieces(s, i)| ==> Pieces(s, i)[k].Lit?
    decreases |s| - i
  {
    if i < |s| {
      assert RefAt(s, i).None?;
      PiecesLiterals(s, i + 1);
      var ps := Pieces(s, i);
      assert ps == [Lit(s[i])] + Pieces(s, i + 1);
      assert forall k :: 1 <= k < |ps| ==> ps[k] == Pieces(s, i + 1)[k - 1];
    }
  }

  /** A well-formed locator spelled without spaces from `i` to `j` is
      found as one reference there. */
  lemma RefSpelledAt(s: string, i: nat, loc: Locator, j: nat)
    requires i <= j < |s| && WellFormedLocator(loc)
    requires s[i..j + 1] == LocatorText(loc.page, "", loc.item)
    ensures RefAt(s, i) == Some((loc, j + 1))
  {
    SpelledAt(s, i, loc, j);
    CloseFromAt(s, i, j);
    RefAtClose(s, i, j, loc);
  }

  /** The locator spelled from `i` to the `}` at `j` opens at `i`, holds
      no `}` before `j`, and is recognised. */
  lemma SpelledAt(s: string, i: nat, loc: Locator, j: nat)
    requires i <= j < |s| && WellFormedLocator(loc)
    requires s[i..j + 1] == LocatorText(loc.page, "", loc.item)
    ensures RefUpTo(s, i, j) == Some((loc, j + 1))
    ensures s[i] == '{' && s[j] == '}' && forall k :: i <= k < j ==> s[k] != '}'
  {
    var t := s[i..j + 1];
    MatchLocatorComplete(loc, "");
    SpelledBraces(t, loc);
    assert forall k :: i <= k <= j ==> s[k] == t[k - i];
  }

  /** The first `}` from `i` on is at `j`. */
  lemma CloseFromAt(s: string, i: nat, j: nat)
    requires i <= j < |s| && s[j] == '}' && forall k :: i <= k < j ==> s[k] != '}'
    ensures CloseFrom(s, i) == Some(j)
  {
  }

  lemma RefAtClose(s: string, i: nat, j: nat, loc: Locator)
    requires i <= j < |s| && s[i] == '{' && CloseFrom(s, i) == Some(j)
    requires RefUpTo(s, i, j) == Some((loc, j + 1))
    ensures RefAt(s, i) == Some((loc, j + 1))
  {
  }

  /** The scan cuts a found reference off as one piece and resumes right
      after it. */
  lemma PiecesAfterRef(s: string, i: nat, loc: Locator, e: nat)
    requires i < e <= |s| && RefAt(s, i) == Some((loc, e))
    ensures Pieces(s, i) == [Ref(loc, s[i..e])] + Pieces(s, e)
  {
  }

  /** A character other than `{` is a literal piece. */
  lemma PiecesLitAt(s: string, i: nat)
    requires i < |s| && s[i] != '{'
    ensures Pieces(s, i) == [Lit(s[i])] + Pieces(s, i + 1)
  {
  }

  lemma SpellCons(s: string, i: nat, p: Piece, e: nat, rest: seq<Piece>)
    requires i < e <= |s|
    requires p.Lit? ==> e == i + 1 && p.c == s[i]
    requires p.Ref? ==> p.raw == s[i..e]
    requires Spell(rest) == s[e..]
    ensures Spell([p] + rest) == s[i..]
  {
    assert ([p] + rest)[1..] == rest;
    if p.Lit? {
      assert s[i..] == [s[i]] + s[i + 1..];
    } else {
      assert s[i..] == s[i..e] + s[e..];
    }
  }

  lemma ScannedCons(p: Piece, rest: seq<Piece>)
    requires p.Ref? ==> MatchLocator(p.raw) == Some(p.loc)
    requires p.Lit? ==> NoRefStart(Spell([p] + rest))
    requires Scanned(rest)
    ensures Scanned([p] + rest)
  {
    var ps := [p] + rest;
    forall k | 0 <= k < |ps|
      ensures ps[k].Ref? ==> MatchLocator(ps[k].raw) == Some(ps[k].loc)
      ensures ps[k].Lit? ==> NoRefStart(Spell(ps[k..]))
    {
      if k > 0 {
        assert ps[k] == rest[k - 1] && ps[k..] == rest[k - 1..];
      } else {
        assert ps[k..] == ps;
      }
    }
  }

  /** Cutting loses nothing: pieces spell the text they were cut from. */
  lemma PiecesSpell(s: string)
    ensures Spell(Pieces(s, 0)) == s
  {
  }

  // ---------------------------------------------------------------------
  // `read_translation_value`
  // ---------------------------------------------------------------------

  /** How deep references may nest before resolution gives up. The program
      has no bound; a reference cycle there does not terminate. */
  const MaxDepth: nat := 64

  /** The first child of `n` with the tag whose `id` attribute is `id`. */
  function ChildWithId(n: Node, tag: string, id: string): (r: Option<Node>)
    ensures r.Some? ==> HasTag(r.value, tag) && Attribute(r.value, "id") == Some(id)
  {
    FirstWithTagAndId(Children(n), tag, id)
  }

  function FirstWithTagAndId(ns: seq<Node>, tag: string, id: string): (r: Option<Node>)
    ensures r.Some? ==> HasTag(r.value, tag) && Attribute(r.value, "id") == Some(id) && r.value in ns
    ensures r.None? ==> forall k :: 0 <= k < |ns| ==> !(HasTag(ns[k], tag) && Attribute(ns[k], "id") == Some(id))
  {
    if |ns| == 0 then None
    else if HasTag(ns[0], tag) && Attribute(ns[0], "id") == Some(id) then Some(ns[0])
    else
      var r := FirstWithTagAndId(ns[1..], tag, id);
      assert forall k :: 1 <= k < |ns| ==> ns[k] == ns[1..][k - 1];
      r
  }

  /** The element a locator points to in the language document `doc`:
      the `t` element with the item id on the page with the page id. */
  function Target(doc: Node, loc: Locator): (r: Option<Node>)
    ensures r.Some? ==> HasTag(r.value, "t") && Attribute(r.value, "id") == Some(loc.item)
  {
    match ChildWithId(doc, "page", loc.page)
    case None => None
    case Some(page) => ChildWithId(page, "t", loc.item)
  }

  /** The text a locator points to, read recursively. */
  function Resolve(doc: Node, loc: Locator, fuel: nat): Option<string>
    decreases fuel, 0
  {
    if fuel == 0 then None
    else
      match Target(doc, loc)
      case None => None
      case Some(t) => ReadValue(doc, t, fuel - 1)
  }

  /** `read_translation_value`: the node's text, trimmed, without its
      leading comment, with every reference replaced. */
  function ReadValue(doc: Node, n: Node, fuel: nat): Option<string>
    decreases fuel, 2
  {
    match TextOf(n)
    case None => None
    case Some(text) =>
      var content := StripComment(Trim(text));
      Assemble(doc, Pieces(content, 0), fuel)
  }

  /** The replaced text: every literal kept, every reference resolved;
      nothing when any reference fails. */
  function Assemble(doc: Node, ps: seq<Piece>, fuel: nat): Option<string>
    decreases fuel, 1, |ps|
  {
    if |ps| == 0 then Some("")
    else
      var head :- match ps[0]
                  case Lit(c) => Some([c])
                  case Ref(loc, _) => Resolve(doc, loc, fuel);
      var rest :- Assemble(doc, ps[1..], fuel);
      Some(head + rest)
  }

  /** Resolution is all or nothing: it fails exactly when some reference
      in the text fails. */
  lemma {:induction false} AssembleFails(doc: Node, ps: seq<Piece>, fuel: nat)
    ensures Assemble(doc, ps, fuel).None? <==>
      exists k :: 0 <= k < |ps| && ps[k].Ref? && Resolve(doc, ps[k].loc, fuel).None?
  {
    if |ps| > 0 {
      AssembleFails(doc, ps[1..], fuel);
      assert forall k :: 1 <= k < |ps| ==> ps[k] == ps[1..][k - 1];
      if ps[0].Ref? && Resolve(doc, ps[0].loc, fuel).None? {
        assert Assemble(doc, ps, fuel).None?;
      }
    }
  }

  /** A text without references comes back unchanged. */
  lemma {:induction false} AssembleLiterals(doc: Node, ps: seq<Piece>, fuel: nat)
    requires forall k :: 0 <= k < |ps| ==> ps[k].Lit?
    ensures Assemble(doc, ps, fuel) == Some(Spell(ps))
  {
    if |ps| > 0 {
      AssembleLiterals(doc, ps[1..], fuel);
    }
  }

  /** A text with no `{` and no leading comment reads as itself, trimmed. */
  lemma PlainText(doc: Node, n: Node, fuel: nat)
    requires TextOf(n).Some?
    requires var t := Trim(TextOf(n).value); (|t| == 0 || t[0] != '(') && forall k :: 0 <= k < |t| ==> t[k] != '{'
    ensures ReadValue(doc, n, fuel) == Some(Trim(TextOf(n).value))
  {
    var t := Trim(TextOf(n).value);
    StripCommentKeeps(t);
    PiecesLiterals(t, 0);
    AssembleLiterals(doc, Pieces(t, 0), fuel);
  }

  /** More fuel never changes a value that was found. */
  lemma {:induction false} ResolveMore(doc: Node, loc: Locator, fuel: nat)
    requires Resolve(doc, loc, fuel).Some?
    ensures Resolve(doc, loc, fuel + 1) == Resolve(doc, loc, fuel)
    decreases fuel, 0
  {
    var f := fuel - 1;
    ResolveUnfold(doc, loc, f);
    ResolveUnfold(doc, loc, fuel);
    var t := Target(doc, loc).value;
    ReadValueMore(doc, t, f);
  }

  /** `Resolve` with one unit of fuel more than `f`: the target read with
      `f`. */
  lemma ResolveUnfold(doc: Node, loc: Locator, f: nat)
    ensures Target(doc, loc).None? ==> Resolve(doc, loc, f + 1).None?
    ensures Target(doc, loc).Some? ==> Resolve(doc, loc, f + 1) == ReadValue(doc, Target(doc, loc).value, f)
  {
  }

  lemma {:induction false} ReadValueMore(doc: Node, n: Node, fuel: nat)
    requires ReadValue(doc, n, fuel).Some?
    ensures ReadValue(doc, n, fuel + 1) == ReadValue(doc, n, fuel)
    decreases fuel, 2
  {
    var content := StripComment(Trim(TextOf(n).value));
    AssembleMore(doc, Pieces(content, 0), fuel);
  }

  lemma {:induction false} AssembleMore(doc: Node, ps: seq<Piece>, fuel: nat)
    requires Assemble(doc, ps, fuel).Some?
    ensures Assemble(doc, ps, fuel + 1) == Assemble(doc, ps, fuel)
    decreases fuel, 1, |ps|
  {
    if |ps| > 0 {
      if ps[0].Ref? {
        ResolveMore(doc, ps[0].loc, fuel);
      }
      AssembleMore(doc, ps[1..], fuel);
    }
  }

  // ---------------------------------------------------------------------
  // `Translations::load_from_xml_all`
  // ---------------------------------------------------------------------

  /** The named items of one ware, in the order the loader visits them:
      every method by name, then the ware itself when it has a locator. */
  function WareItems(w: Ware): (r: seq<(string, Locator)>)
    ensures forall it :: it in r <==> NamedBy(w, it)
  {
    var ms := seq(|w.methods|, k requires 0 <= k < |w.methods| => (w.methods[k].name, w.methods[k].locator));
    assert forall it :: it in ms <==> exists m :: m in w.methods && (m.name, m.locator) == it by {
      forall it | it in ms
        ensures exists m :: m in w.methods && (m.name, m.locator) == it
      {
        var k :| 0 <= k < |ms| && ms[k] == it;
        assert w.methods[k] in w.methods;
      }
      forall it | exists m :: m in w.methods && (m.name, m.locator) == it
        ensures it in ms
      {
        var m :| m in w.methods && (m.name, m.locator) == it;
        var k :| 0 <= k < |w.methods| && w.methods[k] == m;
        assert ms[k] == it;
      }
    }
    match w.locator
    case None => ms
    case Some(loc) => ms + [(w.info.id, loc)]
  }

  /** The ware names the item: one of its methods has that name and
      locator, or the ware has that id and locator. */
  predicate NamedBy(w: Ware, it: (string, Locator)) {
    (exists m :: m in w.methods && (m.name, m.locator) == it) || (w.info.id == it.0 && w.locator == Some(it.1))
  }

  /** Every item of the catalog that has a display name, ware by ware in
      catalog order. */
  function ItemsOf(cat: Catalog): (r: seq<(string, Locator)>)
    ensures forall it :: it in r <==> exists w :: w in cat && NamedBy(w, it)
  {
    if |cat| == 0 then []
    else
      var rest := ItemsOf(cat[1..]);
      assert forall w :: w in cat <==> w == cat[0] || w in cat[1..];
      WareItems(cat[0]) + rest
  }

  /** An item's display name in the language document `doc`: what its
      locator resolves to, nested references followed at most `MaxDepth`
      deep. */
  function Lookup(doc: Node, loc: Locator): Option<string> {
    Resolve(doc, loc, MaxDepth)
  }

  /** The reference definition of a language table: the value of the first
      item with that id whose locator resolves under `look`. */
  function FirstResolved(look: Locator -> Option<string>, items: seq<(string, Locator)>, id: string): Option<string> {
    if |items| == 0 then None
    else if items[0].0 == id && look(items[0].1).Some? then look(items[0].1)
    else FirstResolved(look, items[1..], id)
  }

  /** The table for one language: the items are visited in order, an id
      already in the table is skipped, and an item whose text does not
      resolve under `look` is left out. */
  function BuildTable(look: Locator -> Option<string>, items: seq<(string, Locator)>): (r: map<string, string>)
    decreases |items|
  {
    if |items| == 0 then map[]
    else
      var m := BuildTable(look, items[..|items| - 1]);
      var last := items[|items| - 1];
      if last.0 in m then m
      else
        match look(last.1)
        case Some(v) => m[last.0 := v]
        case None => m
  }

  /** The table holds exactly the ids some item of which resolves, each
      with the value of the first such item. */
  lemma {:induction false} BuildTableIsFirstResolved(look: Locator -> Option<string>, items: seq<(string, Locator)>)
    ensures forall id :: id in BuildTable(look, items) <==> FirstResolved(look, items, id).Some?
    ensures forall id :: id in BuildTable(look, items) ==> BuildTable(look, items)[id] == FirstResolved(look, items, id).value
    decreases |items|
  {
    if |items| > 0 {
      var init := items[..|items| - 1];
      var last := items[|items| - 1];
      BuildTableIsFirstResolved(look, init);
      assert init + [last] == items;
      forall id
        ensures FirstResolved(look, items, id) ==
          if FirstResolved(look, init, id).Some? then FirstResolved(look, init, id)
          else if last.0 == id then look(last.1)
          else None
      {
        FirstResolvedSnoc(look, init, last, id);
      }
    }
  }

  /** Appending an item can only settle an id no earlier item settled. */
  lemma {:induction false} FirstResolvedSnoc(look: Locator -> Option<string>, items: seq<(string, Locator)>, last: (string, Locator), id: string)
    ensures FirstResolved(look, items + [last], id) ==
      if FirstResolved(look, items, id).Some? then FirstResolved(look, items, id)
      else if last.0 == id then look(last.1)
      else None
    decreases |items|
  {
    if |items| == 0 {
      assert [last][1..] == [];
    } else {
      assert (items + [last])[1..] == items[1..] + [last];
      FirstResolvedSnoc(look, items[1..], last, id);
    }
  }

  /** `find_map` over the documents: the first whose root is a `language`
      element with the game's language id. */
  function LanguageDoc(docs: seq<Node>, x4: string): (r: Option<Node>)
    ensures r.Some? ==> r.value in docs && HasTag(r.value, "language") && Attribute(r.value, "id") == Some(x4)
    ensures r.None? ==> forall k :: 0 <= k < |docs| ==> !(HasTag(docs[k], "language") && Attribute(docs[k], "id") == Some(x4))
  {
    if |docs| == 0 then None
    else if HasTag(docs[0], "language") && Attribute(docs[0], "id") == Some(x4) then Some(docs[0])
    else
      var r := LanguageDoc(docs[1..], x4);
      assert forall k :: 1 <= k < |docs| ==> docs[k] == docs[1..][k - 1];
      r
  }

  /** The table of one game language; empty when no document is in that
      language. */
  function LanguageTable(docs: seq<Node>, items: seq<(string, Locator)>, x4: string): map<string, string> {
    match LanguageDoc(docs, x4)
    case None => map[]
    case Some(lang) => BuildTable(loc => Lookup(lang, loc), items)
  }

  /** `k` is the last language pair with that code whose table is not
      empty. */
  predicate LastLoaded(tableOf: string -> map<string, string>, langIds: seq<(string, string)>, code: string, k: int) {
    && 0 <= k < |langIds| && langIds[k].0 == code && |tableOf(langIds[k].1)| > 0
    && forall j :: k < j < |langIds| && langIds[j].0 == code ==> |tableOf(langIds[j].1)| == 0
  }

  /** The tables of all languages by language code, `tableOf` giving the
      table of a game language. A language whose table is empty gets no
      entry; a code listed twice keeps the later non-empty table. */
  function LoadTables(tableOf: string -> map<string, string>, langIds: seq<(string, string)>): (r: map<string, map<string, string>>)
    ensures forall code :: code in r ==> |r[code]| > 0
    decreases |langIds|
  {
    if |langIds| == 0 then map[]
    else
      var m := LoadTables(tableOf, langIds[..|langIds| - 1]);
      var last := langIds[|langIds| - 1];
      var table := tableOf(last.1);
      if |table| == 0 then m else m[last.0 := table]
  }

  /** A code has a table exactly when some pair with that code loaded a
      non-empty one, and the table is the one the last such pair loaded. */
  lemma {:induction false} LoadTablesIsLastLoaded(tableOf: string -> map<string, string>, langIds: seq<(string, string)>)
    ensures forall code :: code in LoadTables(tableOf, langIds) <==> exists k :: LastLoaded(tableOf, langIds, code, k)
    ensures forall code, k :: LastLoaded(tableOf, langIds, code, k) ==> LoadTables(tableOf, langIds)[code] == tableOf(langIds[k].1)
    decreases |langIds|
  {
    if |langIds| > 0 {
      var init := langIds[..|langIds| - 1];
      var last := langIds[|langIds| - 1];
      LoadTablesIsLastLoaded(tableOf, init);
      assert init + [last] == langIds;
      LoadedSnoc(tableOf, init, last);
      var full := |tableOf(last.1)| > 0;
      forall code, k | LastLoaded(tableOf, langIds, code, k)
        ensures LoadTables(tableOf, langIds)[code] == tableOf(langIds[k].1)
      {
        if full && code == last.0 {
          assert k == |init|;
        }
      }
    }
  }

  /** How `LastLoaded` changes when one more language pair is listed. */
  lemma LoadedSnoc(tableOf: string -> map<string, string>, init: seq<(string, string)>, last: (string, string))
    ensures var langIds := init + [last];
      var full := |tableOf(last.1)| > 0;
      && (full ==> LastLoaded(tableOf, langIds, last.0, |init|))
      && (full ==> forall k :: LastLoaded(tableOf, langIds, last.0, k) ==> k == |init|)
      && (forall code, k :: code != last.0 || !full ==> (LastLoaded(tableOf, langIds, code, k) <==> LastLoaded(tableOf, init, code, k)))
  {
    var langIds := init + [last];
    assert forall j :: 0 <= j < |init| ==> langIds[j] == init[j];
  }

  /** The translations of every listed language, looked up in English
      until another language is chosen. */
  datatype Translations = Translations(desired: string, tables: map<string, map<string, string>>)

  /** `Translations::load_from_xml_all`, over the documents' root elements
      and the (language code, game language id) pairs. */
  function LoadAll(docs: seq<Node>, cat: Catalog, langIds: seq<(string, string)>): (r: Translations)
    ensures r.desired == "en"
    ensures forall code :: code in r.tables ==> |r.tables[code]| > 0
  {
    Translations("en", LoadTables(x4 => LanguageTable(docs, ItemsOf(cat), x4), langIds))
  }

  /** A loaded translation is what the item's first resolving locator reads
      in the document of the last language pair that loaded a table for
      that code. */
  lemma LoadedValue(docs: seq<Node>, cat: Catalog, langIds: seq<(string, string)>, code: string, item: string)
    requires Holds(LoadAll(docs, cat, langIds), code, item)
    ensures exists k, lang :: && 0 <= k < |langIds| && langIds[k].0 == code
                              && LanguageDoc(docs, langIds[k].1) == Some(lang)
                              && FirstResolved(loc => Lookup(lang, loc), ItemsOf(cat), item) == Some(LoadAll(docs, cat, langIds).tables[code][item])
  {
    var tableOf := x4 => LanguageTable(docs, ItemsOf(cat), x4);
    LoadTablesIsLastLoaded(tableOf, langIds);
    var k :| LastLoaded(tableOf, langIds, code, k);
    var lang := LanguageDoc(docs, langIds[k].1).value;
    BuildTableIsFirstResolved(loc => Lookup(lang, loc), ItemsOf(cat));
  }

  // ---------------------------------------------------------------------
  // Lookup: `get`, `replace_if_exists`, `set_desired_unicode_id`
  // ---------------------------------------------------------------------

  /** The language `code` has a table holding `item`. */
  predicate Holds(tr: Translations, code: string, item: string) {
    code in tr.tables && item in tr.tables[code]
  }

  /** `Translations::get`: the item's name in the chosen language, else in
      English, else nothing. */
  function TranslationOf(tr: Translations, item: string): (r: Option<string>)
    ensures r.Some? <==> Holds(tr, tr.desired, item) || Holds(tr, "en", item)
    ensures Holds(tr, tr.desired, item) ==> r == Some(tr.tables[tr.desired][item])
    ensures !Holds(tr, tr.desired, item) && Holds(tr, "en", item) ==> r == Some(tr.tables["en"][item])
  {
    if Holds(tr, tr.desired, item) then Some(tr.tables[tr.desired][item])
    else if Holds(tr, "en", item) then Some(tr.tables["en"][item])
    else None
  }

  /** `Translations::replace_if_exists`: the item's name when it has one,
      with whether it was replaced; otherwise the item unchanged. */
  function ReplaceIfExists(tr: Translations, item: string): (r: (string, bool))
    ensures r.1 <==> TranslationOf(tr, item).Some?
    ensures r.1 ==> r.0 == TranslationOf(tr, item).value
    ensures !r.1 ==> r.0 == item
  {
    match TranslationOf(tr, item)
    case Some(t) => (t, true)
    case None => (item, false)
  }

  /** `Translations::set_desired_unicode_id`. */
  function WithDesired(tr: Translations, code: string): (r: Translations)
    ensures r.tables == tr.tables && r.desired == code
  {
    tr.(desired := code)
  }

  /** A name is never invented: it is the item's entry in some language's
      table, the chosen language's when that has one. */
  lemma TranslationComesFromATable(tr: Translations, item: string)
    requires TranslationOf(tr, item).Some?
    ensures exists code :: code in {tr.desired, "en"} && Holds(tr, code, item) && TranslationOf(tr, item).value == tr.tables[code][item]
  {
    if Holds(tr, tr.desired, item) {
      assert tr.desired in {tr.desired, "en"};
    } else {
      assert "en" in {tr.desired, "en"};
    }
  }

  /** Once a language is chosen, an item it has a name for reads in that
      language, and an item it lacks reads as in English. */
  lemma ChosenLanguageFirst(tr: Translations, code: string, item: string)
    ensures Holds(tr, code, item) ==> TranslationOf(WithDesired(tr, code), item) == Some(tr.tables[code][item])
    ensures !Holds(tr, code, item) ==> TranslationOf(WithDesired(tr, code), item) == TranslationOf(WithDesired(tr, "en"), item)
  {
  }
}
