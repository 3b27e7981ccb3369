/** A worked translation lookup: the engine name of the loader's own
    translation test, whose text is a leading comment followed by four
    references separated by spaces, one of which points to a text with a
    comment of its own. */
module TranslationFixtures {
  import opened Errors
  import opened Text
  import opened Xml
  import Catalog
  import opened Translations

  /** A `t` element holding one text. */
  function Entry(id: string, text: string): Node {
    Element("t", [("id", id)], [Text(text)])
  }

  function Page(id: string, entries: seq<Node>): Node {
    Element("page", [("id", id)], entries)
  }

  const Comment := "ARG S All-round Engine Mk1"
  /** `{20202,103} {20111,5011} {20107,1001} {20111,101}` */
  const Refs := Catalog.LocatorText("20202", "", "103") + " " + Catalog.LocatorText("20111", "", "5011") + " " +
                Catalog.LocatorText("20107", "", "1001") + " " + Catalog.LocatorText("20111", "", "101")
  const EngineText := "(" + Comment + ")" + Refs

  const Race := Catalog.Locator("20202", "103")
  const Size := Catalog.Locator("20111", "5011")
  const Kind := Catalog.Locator("20107", "1001")
  const Mark := Catalog.Locator("20111", "101")
  const Engine := Catalog.Locator("20107", "1004")

  const Kinds := Page("20107", [Entry("1001", "All-round Engine")] + [Entry("1004", EngineText)])
  const Small := "(" + "small" + ")" + "S"
  const Variations := Page("20111", [Entry("101", "Mk1")] + [Entry("5011", Small)])
  const Races := Page("20202", [Entry("101", "Argon")] + [Entry("103", "ARG")])

  /** The pages of the language document the engine name needs. */
  const Doc := Element("language", [("id", "44")], [Kinds] + ([Variations] + [Races]))

  lemma CommentNamed()
    ensures AllCommentChars(Comment)
  {
  }

  /** A located entry is read with one unit of fuel less. */
  lemma ResolvesTo(doc: Node, loc: Catalog.Locator, n: Node, f: nat)
    requires Target(doc, loc) == Some(n)
    ensures Resolve(doc, loc, f + 1) == ReadValue(doc, n, f)
  {
    ResolveUnfold(doc, loc, f);
  }

  /** A locator whose entry holds text with no whitespace at its ends, no
      leading `(` and no `{` resolves to that text. */
  lemma ResolvesPlain(doc: Node, loc: Catalog.Locator, n: Node, text: string, f: nat)
    requires Target(doc, loc) == Some(n) && TextOf(n) == Some(text)
    requires |text| > 0 && !IsWhitespace(text[0]) && !IsWhitespace(text[|text| - 1]) && text[0] != '('
    requires forall k :: 0 <= k < |text| ==> text[k] != '{'
    ensures Resolve(doc, loc, f + 1) == Some(text)
  {
    ResolvesTo(doc, loc, n, f);
    TrimUntouched(text);
    PlainText(doc, n, f);
  }

  /** Assembling one more piece in front. */
  lemma AssembleCons(doc: Node, p: Piece, ps: seq<Piece>, fuel: nat, h: string, t: string)
    requires p.Lit? ==> h == [p.c]
    requires p.Ref? ==> Resolve(doc, p.loc, fuel) == Some(h)
    requires Assemble(doc, ps, fuel) == Some(t)
    ensures Assemble(doc, [p] + ps, fuel) == Some(h + t)
  {
    assert ([p] + ps)[0] == p && ([p] + ps)[1..] == ps;
  }

  // Where each locator points. A page's entries are searched in order.

  lemma KindsPage(doc: Node)
    requires doc == Doc
    ensures ChildWithId(doc, "page", "20107") == Some(Kinds)
  {
    assert Children(doc)[0] == Kinds;
    assert Attribute(Kinds, "id") == Some("20107");
  }

  lemma VariationsPage(doc: Node)
    requires doc == Doc
    ensures ChildWithId(doc, "page", "20111") == Some(Variations)
  {
    var ps := Children(doc);
    assert ps[0] == Kinds;
    assert Attribute(Kinds, "id") == Some("20107");
    assert ps[1..] == [Variations] + [Races];
    assert Attribute(Variations, "id") == Some("20111");
    assert FirstWithTagAndId(ps[1..], "page", "20111") == Some(Variations);
  }

  lemma RacesPage(doc: Node)
    requires doc == Doc
    ensures ChildWithId(doc, "page", "20202") == Some(Races)
  {
    var ps := Children(doc);
    assert ps[0] == Kinds;
    assert Attribute(Kinds, "id") == Some("20107");
    assert ps[1..] == [Variations] + [Races];
    assert Attribute(Variations, "id") == Some("20111");
    assert ps[1..][1..] == [Races];
    assert Attribute(Races, "id") == Some("20202");
    assert FirstWithTagAndId(ps[1..][1..], "page", "20202") == Some(Races);
    assert FirstWithTagAndId(ps[1..], "page", "20202") == Some(Races);
  }

  /** The second entry of a page, the first one having another id. */
  lemma SecondEntry(page: Node, a: Node, b: Node, id: string)
    requires page.Element? && page.children == [a] + [b]
    requires Attribute(a, "id") != Some(id) && HasTag(b, "t") && Attribute(b, "id") == Some(id)
    ensures ChildWithId(page, "t", id) == Some(b)
  {
    var ns := Children(page);
    assert ns[0] == a && ns[1..] == [b];
    assert FirstWithTagAndId([b], "t", id) == Some(b);
    assert FirstWithTagAndId(ns, "t", id) == FirstWithTagAndId(ns[1..], "t", id);
  }

  lemma FirstEntry(page: Node, a: Node, b: Node, id: string)
    requires page.Element? && page.children == [a] + [b]
    requires HasTag(a, "t") && Attribute(a, "id") == Some(id)
    ensures ChildWithId(page, "t", id) == Some(a)
  {
    assert Children(page)[0] == a;
  }

  /** Where the engine's four references point in a language document. */
  predicate Located(doc: Node) {
    && Target(doc, Race) == Some(Entry("103", "ARG"))
    && Target(doc, Size) == Some(Entry("5011", Small))
    && Target(doc, Kind) == Some(Entry("1001", "All-round Engine"))
    && Target(doc, Mark) == Some(Entry("101", "Mk1"))
  }

  lemma DocLocated(doc: Node)
    requires doc == Doc
    ensures Located(doc)
    ensures Target(doc, Engine) == Some(Entry("1004", EngineText))
  {
    RacesPage(doc);
    SecondEntry(Races, Entry("101", "Argon"), Entry("103", "ARG"), "103");
    VariationsPage(doc);
    SecondEntry(Variations, Entry("101", "Mk1"), Entry("5011", Small), "5011");
    FirstEntry(Variations, Entry("101", "Mk1"), Entry("5011", Small), "101");
    KindsPage(doc);
    FirstEntry(Kinds, Entry("1001", "All-round Engine"), Entry("1004", EngineText), "1001");
    SecondEntry(Kinds, Entry("1001", "All-round Engine"), Entry("1004", EngineText), "1004");
  }

  /** A locator whose entry holds a leading comment and then plain text
      with no whitespace at its end and no `{` resolves to that text. */
  lemma ResolvesCommented(doc: Node, loc: Catalog.Locator, n: Node, text: string, c: string, rest: string, f: nat)
    requires Target(doc, loc) == Some(n) && TextOf(n) == Some(text)
    requires text == "(" + c + ")" + rest && |c| > 0 && AllCommentChars(c)
    requires |rest| > 0 && !IsWhitespace(rest[|rest| - 1]) && forall k :: 0 <= k < |rest| ==> rest[k] != '{'
    ensures Resolve(doc, loc, f + 1) == Some(rest)
  {
    ResolvesTo(doc, loc, n, f);
    assert text[0] == '(' && text[|text| - 1] == rest[|rest| - 1];
    TrimUntouched(text);
    StripCommentRemoves(c, rest);
    assert StripComment(Trim(text)) == rest;
    PiecesLiterals(rest, 0);
    AssembleLiterals(doc, Pieces(rest, 0), f);
    assert Spell(Pieces(rest, 0)) == rest[0..] == rest;
    assert ReadValue(doc, n, f) == Assemble(doc, Pieces(rest, 0), f);
  }

  /** The text after the engine's comment: four references with a space
      between each two. */
  predicate RefsShape(s: string) {
    && |s| == 49
    && s[0..11] == Catalog.LocatorText("20202", "", "103") && s[11] == ' '
    && s[12..24] == Catalog.LocatorText("20111", "", "5011") && s[24] == ' '
    && s[25..37] == Catalog.LocatorText("20107", "", "1001") && s[37] == ' '
    && s[38..49] == Catalog.LocatorText("20111", "", "101")
  }

  lemma RefsShaped()
    ensures RefsShape(Refs)
  {
    FourParts(Refs, Catalog.LocatorText("20202", "", "103"), Catalog.LocatorText("20111", "", "5011"),
              Catalog.LocatorText("20107", "", "1001"), Catalog.LocatorText("20111", "", "101"));
  }

  /** Four texts joined by single spaces sit where their lengths say. */
  lemma FourParts(s: string, r1: string, r2: string, r3: string, r4: string)
    requires s == r1 + " " + r2 + " " + r3 + " " + r4
    ensures var a, b, c := |r1| + 1, |r1| + |r2| + 2, |r1| + |r2| + |r3| + 3;
      && s[..|r1|] == r1 && s[|r1|] == ' ' && s[a..a + |r2|] == r2 && s[a + |r2|] == ' '
      && s[b..b + |r3|] == r3 && s[b + |r3|] == ' ' && s[c..] == r4
  {
  }

  lemma RefsEnd(s: string)
    requires RefsShape(s)
    ensures s[48] == '}'
  {
    assert s[48] == s[38..49][10];
  }

  /** A reference spelled without spaces and followed by a space is cut
      as the reference and then the space. */
  lemma RefThenSpace(s: string, i: nat, loc: Catalog.Locator, j: nat)
    requires i <= j && j + 1 < |s| && Catalog.WellFormedLocator(loc)
    requires s[i..j + 1] == Catalog.LocatorText(loc.page, "", loc.item) && s[j + 1] == ' '
    ensures Pieces(s, i) == [Ref(loc, s[i..j + 1])] + ([Lit(' ')] + Pieces(s, j + 2))
  {
    RefSpelledAt(s, i, loc, j);
    PiecesAfterRef(s, i, loc, j + 1);
    PiecesLitAt(s, j + 1);
  }

  /** The scan cuts the four references and the spaces between them, one
      reference at a time. */
  lemma RaceRef(s: string)
    requires RefsShape(s)
    ensures Pieces(s, 0) == [Ref(Race, s[0..11])] + ([Lit(' ')] + Pieces(s, 12))
  {
    RefThenSpace(s, 0, Race, 10);
  }

  lemma SizeRef(s: string)
    requires RefsShape(s)
    ensures Pieces(s, 12) == [Ref(Size, s[12..24])] + ([Lit(' ')] + Pieces(s, 25))
  {
    RefThenSpace(s, 12, Size, 23);
  }

  lemma KindRef(s: string)
    requires RefsShape(s)
    ensures Pieces(s, 25) == [Ref(Kind, s[25..37])] + ([Lit(' ')] + Pieces(s, 38))
  {
    RefThenSpace(s, 25, Kind, 36);
  }

  lemma MarkRef(s: string)
    requires RefsShape(s)
    ensures Pieces(s, 38) == [Ref(Mark, s[38..49])]
  {
    RefSpelledAt(s, 38, Mark, 48);
    PiecesAfterRef(s, 38, Mark, 49);
  }

  /** A reference, a space and then the rest read as the reference's
      text, a space and the rest's text. */
  lemma AssembleRefSpace(doc: Node, ps: seq<Piece>, loc: Catalog.Locator, raw: string, tail: seq<Piece>, fuel: nat, h: string, t: string)
    requires ps == [Ref(loc, raw)] + ([Lit(' ')] + tail)
    requires Resolve(doc, loc, fuel) == Some(h) && Assemble(doc, tail, fuel) == Some(t)
    ensures Assemble(doc, ps, fuel) == Some(h + (" " + t))
  {
    var sp := [Lit(' ')] + tail;
    assert sp[0] == Lit(' ') && sp[1..] == tail;
    assert Assemble(doc, sp, fuel) == Some(" " + t);
    assert ps[0] == Ref(loc, raw) && ps[1..] == sp;
  }

  /** The engine's name: the comment is dropped, and the race, size,
      kind and mark are filled in from their pages, the size without its
      own comment. */
  lemma EngineName(doc: Node, n: Node, text: string, c: string, s: string, f: nat)
    requires Located(doc) && TextOf(n) == Some(text)
    requires text == "(" + c + ")" + s && |c| > 0 && AllCommentChars(c) && RefsShape(s)
    ensures ReadValue(doc, n, f + 1) == Some(Name)
  {
    RefsEnd(s);
    assert text[0] == '(' && text[|text| - 1] == s[48];
    TrimUntouched(text);
    StripCommentRemoves(c, s);
    LocatedParts(doc, f);
    NamedParts(doc, s, f + 1);
  }

  /** What the four references resolve to. */
  predicate PartsRead(doc: Node, g: nat) {
    && Resolve(doc, Race, g) == Some("ARG")
    && Resolve(doc, Size, g) == Some("S")
    && Resolve(doc, Kind, g) == Some("All-round Engine")
    && Resolve(doc, Mark, g) == Some("Mk1")
  }

  lemma LocatedParts(doc: Node, f: nat)
    requires Located(doc)
    ensures PartsRead(doc, f + 1)
  {
    RaceRead(doc, f);
    SizeRead(doc, f);
    KindRead(doc, f);
    MarkRead(doc, f);
  }

  lemma RaceRead(doc: Node, f: nat)
    requires Located(doc)
    ensures Resolve(doc, Race, f + 1) == Some("ARG")
  {
    ResolvesPlain(doc, Race, Entry("103", "ARG"), "ARG", f);
  }

  lemma SizeRead(doc: Node, f: nat)
    requires Located(doc)
    ensures Resolve(doc, Size, f + 1) == Some("S")
  {
    ResolvesCommented(doc, Size, Entry("5011", Small), Small, "small", "S", f);
  }

  lemma KindRead(doc: Node, f: nat)
    requires Located(doc)
    ensures Resolve(doc, Kind, f + 1) == Some("All-round Engine")
  {
    KindBraceFree();
    ResolvesPlain(doc, Kind, Entry("1001", "All-round Engine"), "All-round Engine", f);
  }

  lemma KindBraceFree()
    ensures forall k :: 0 <= k < |"All-round Engine"| ==> "All-round Engine"[k] != '{'
  {
  }

  lemma MarkRead(doc: Node, f: nat)
    requires Located(doc)
    ensures Resolve(doc, Mark, f + 1) == Some("Mk1")
  {
    ResolvesPlain(doc, Mark, Entry("101", "Mk1"), "Mk1", f);
  }

  /** The engine's name as its parts spell it. */
  const Name := "ARG" + (" " + ("S" + (" " + ("All-round Engine" + (" " + "Mk1")))))

  lemma NameSpelled()
    ensures Name == "ARG S All-round Engine Mk1"
  {
  }

  /** The four references read as the race, size, kind and mark. */
  lemma NamedParts(doc: Node, s: string, g: nat)
    requires PartsRead(doc, g) && RefsShape(s)
    ensures Assemble(doc, Pieces(s, 0), g) == Some(Name)
  {
    MarkRef(s);
    AssembleCons(doc, Ref(Mark, s[38..49]), [], g, "Mk1", "");
    assert "Mk1" + "" == "Mk1";
    KindRef(s);
    AssembleRefSpace(doc, Pieces(s, 25), Kind, s[25..37], Pieces(s, 38), g, "All-round Engine", "Mk1");
    SizeRef(s);
    AssembleRefSpace(doc, Pieces(s, 12), Size, s[12..24], Pieces(s, 25), g, "S", "All-round Engine" + (" " + "Mk1"));
    RaceRef(s);
    AssembleRefSpace(doc, Pieces(s, 0), Race, s[0..11], Pieces(s, 12), g, "ARG", "S" + (" " + ("All-round Engine" + (" " + "Mk1"))));
  }

  /** The same name looked up through the engine's own locator. */
  lemma EngineLookup(doc: Node)
    requires doc == Doc
    ensures Lookup(doc, Engine) == Some("ARG S All-round Engine Mk1")
  {
    DocLocated(doc);
    var n := Entry("1004", EngineText);
    ResolvesTo(doc, Engine, n, 63);
    RefsShaped();
    CommentNamed();
    EngineName(doc, n, EngineText, Comment, Refs, 62);
    NameSpelled();
  }
}
