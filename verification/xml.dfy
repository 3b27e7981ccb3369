/** A parsed XML tree, reduced to what the loaders look at: elements with
    attributes and children, text nodes, comments and processing
    instructions. */
module Xml {
  import opened Errors

  datatype Node =
    | Element(tag: string, attrs: seq<(string, string)>, children: seq<Node>)
    | Text(text: string)
    | Comment(text: string)
    | Instruction(target: string)

  /** `Node::has_tag_name`: only elements have a tag. */
  predicate HasTag(n: Node, tag: string) {
    n.Element? && n.tag == tag
  }

  /** `Node::attribute`: the value of the first attribute with that name. */
  function Attribute(n: Node, name: string): (r: Option<string>)
    ensures r.Some? ==> n.Element? && (name, r.value) in n.attrs
    ensures r.None? ==> !n.Element? || forall k :: 0 <= k < |n.attrs| ==> n.attrs[k].0 != name
  {
    if n.Element? then LookupAttr(n.attrs, name) else None
  }

  function LookupAttr(attrs: seq<(string, string)>, name: string): (r: Option<string>)
    ensures r.Some? ==> (name, r.value) in attrs
    ensures r.None? ==> forall k :: 0 <= k < |attrs| ==> attrs[k].0 != name
  {
    if |attrs| == 0 then None
    else if attrs[0].0 == name then Some(attrs[0].1)
    else LookupAttr(attrs[1..], name)
  }

  /** `Node::children` of a text or comment node is empty. */
  function Children(n: Node): seq<Node> {
    if n.Element? then n.children else []
  }

  /** `Node::text`: the text of a text or comment node, or of an element's
      first child when that child is a text node. */
  function TextOf(n: Node): Option<string> {
    match n
    case Text(t) => Some(t)
    case Comment(t) => Some(t)
    case Element(_, _, cs) => if |cs| > 0 && cs[0].Text? then Some(cs[0].text) else None
    case Instruction(_) => None
  }

  /** The nodes of `ns` with the given tag, in document order. */
  function WithTag(ns: seq<Node>, tag: string): (r: seq<Node>)
    ensures |r| <= |ns|
    ensures forall k :: 0 <= k < |r| ==> HasTag(r[k], tag)
  {
    if |ns| == 0 then []
    else if HasTag(ns[0], tag) then [ns[0]] + WithTag(ns[1..], tag)
    else WithTag(ns[1..], tag)
  }

  /** `mygetatr`: a required attribute. */
  function GetAttr(n: Node, name: string): (r: Result<string>)
    ensures r.Ok? <==> Attribute(n, name).Some?
    ensures r.Ok? ==> Attribute(n, name) == Some(r.value)
    ensures r.Err? ==> r.error == AttributeNotFound(name)
  {
    match Attribute(n, name)
    case Some(v) => Ok(v)
    case None => Err(AttributeNotFound(name))
  }

  /** `mygetatrparsed`: a required attribute read through `parse`, which
      stands for Rust's `str::parse` at the attribute's numeric type. */
  function GetParsed<T>(n: Node, name: string, parse: string -> Option<T>): (r: Result<T>)
    ensures r.Ok? <==> Attribute(n, name).Some? && parse(Attribute(n, name).value).Some?
    ensures r.Ok? ==> parse(Attribute(n, name).value) == Some(r.value)
    ensures r.Err? && Attribute(n, name).None? ==> r.error == AttributeNotFound(name)
    ensures r.Err? && Attribute(n, name).Some? ==> r.error == AttributeBadValue(name)
  {
    match Attribute(n, name)
    case None => Err(AttributeNotFound(name))
    case Some(v) =>
      match parse(v)
      case None => Err(AttributeBadValue(name))
      case Some(x) => Ok(x)
  }

  /** `myfindchildtag`: the first child element with the tag. */
  function FindChild(n: Node, tag: string): (r: Result<Node>)
    ensures r.Ok? <==> |WithTag(Children(n), tag)| > 0
    ensures r.Ok? ==> r.value == WithTag(Children(n), tag)[0]
    ensures r.Err? ==> r.error == TagNotFound(tag)
  {
    var found := WithTag(Children(n), tag);
    if |found| > 0 then Ok(found[0]) else Err(TagNotFound(tag))
  }
}
