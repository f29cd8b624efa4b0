/** XML elements, their printed form and the recursive-descent reader, as functions of text. */
module XmlTree {
  import opened Bytes
  import opened XmlText

  datatype Attr = Attr(name: string, value: string)

  /** An element; its attributes are kept under their lower-case names. */
  datatype Element = Element(name: string, attrs: map<string, Attr>, value: string, children: seq<Element>)

  /** An element with the order in which a map iterator happens to list the attributes of every node. */
  datatype Listing = Listing(name: string, attrs: seq<Attr>, value: string, children: seq<Listing>)

  function Keyed(attrs: seq<Attr>, acc: map<string, Attr>): map<string, Attr> {
    if attrs == [] then acc else Keyed(attrs[1..], acc[Lower(attrs[0].name) := attrs[0]])
  }

  /** The element that a listing lists. */
  function Listed(l: Listing): Element
    decreases l
  {
    Element(l.name, Keyed(l.attrs, map[]), l.value, ListedAll(l.children))
  }

  function ListedAll(ls: seq<Listing>): (r: seq<Element>)
    ensures |r| == |ls|
    decreases ls
  {
    if ls == [] then [] else [Listed(ls[0])] + ListedAll(ls[1..])
  }

  // ---------------------------------------------------------------- printing

  function EndLine(newline: bool): string { if newline then "\r\n" else "" }

  function PrintAttrs(attrs: seq<Attr>): string {
    if attrs == [] then "" else " " + attrs[0].name + "=\"" + attrs[0].value + "\"" + PrintAttrs(attrs[1..])
  }

  /** What stands behind the attributes. */
  function PrintBody(l: Listing, newline: bool): string
    decreases l, 0
  {
    if l.children == [] && l.value == "" then "/>" + EndLine(newline)
    else
      ">" + EndLine(newline && l.children != []) + PrintAll(l.children, newline) + l.value
      + "</" + l.name + ">" + EndLine(newline)
  }

  function Print(l: Listing, newline: bool): string
    decreases l, 1
  {
    "<" + l.name + PrintAttrs(l.attrs) + PrintBody(l, newline)
  }

  function PrintAll(ls: seq<Listing>, newline: bool): string
    decreases ls, 0
  {
    if ls == [] then "" else Print(ls[0], newline) + PrintAll(ls[1..], newline)
  }

  const HEADER := "<?xml version=\"1.0\"?>"

  /** CXMLElement::ToString. */
  function Document(l: Listing, header: bool, newline: bool): string {
    (if header then HEADER else "") + EndLine(newline) + Print(l, newline)
  }

  // ---------------------------------------------------------------- reading

  /** A quoted value: up to the next quote, and then the quote itself, from where the value was left. */
  function Quoted(s: string, quote: char): (r: Option<(string, string)>)
    ensures r.Some? ==> |r.value.1| < |s|
  {
    var e := Find(s, quote);
    if e == |s| then None
    else
      var (v, u) := Value(s[..e], false);
      var m := Match(u + s[e..], [quote]);
      if m.None? then None else Some((v, m.value))
  }

  /** CXMLAttribute::ParseString. */
  function ParseAttr(s: string): (r: Option<(Attr, string)>)
    ensures r.Some? ==> |r.value.1| < |s|
  {
    var id := Identifier(s);
    if id.None? then None
    else
      var eq := Match(id.value.1, "=");
      if eq.None? then None
      else
        var double := Match(eq.value, "\"");
        var single := Match(eq.value, "'");
        var q := if double.Some? then Quoted(double.value, '\"') else if single.Some? then Quoted(single.value, '\'') else None;
        if q.None? then None else Some((Attr(id.value.0, q.value.0), q.value.1))
  }

  /** The end of a start tag: content follows, or nothing does, or it is malformed. */
  datatype Tag = Open(attrs: map<string, Attr>, rest: string) | Closed(attrs: map<string, Attr>, rest: string) | Bad

  function ParseAttrs(s: string, acc: map<string, Attr>): (r: Tag)
    ensures !r.Bad? ==> |r.rest| < |s|
    decreases |s|
  {
    if Match(s, ">").Some? then Open(acc, Match(s, ">").value)
    else if Match(s, "/").Some? then
      var m := Match(Match(s, "/").value, ">");
      if m.None? then Bad else Closed(acc, m.value)
    else if s == "" then Bad
    else
      var a := ParseAttr(s);
      if a.None? then Bad else ParseAttrs(a.value.1, acc[Lower(a.value.0.name) := a.value.0])
  }

  /** Position of the first occurrence of a token, or the length. */
  function FindText(s: string, token: string): (n: nat)
    ensures n <= |s| && (n < |s| ==> token <= s[n..])
  {
    if s == "" then 0 else if token <= s then 0 else 1 + FindText(s[1..], token)
  }

  /** The value so far, ready for more text. */
  function Spaced(value: string): string {
    if value != "" && value[|value| - 1] != ' ' then value + " " else value
  }

  /** The text up to the next markup, added to the value; what follows starts with the markup. */
  function ParseText(s: string, value: string): (r: Option<(string, string)>)
    ensures r.Some? ==> |r.value.1| <= |s|
  {
    var e := Find(s, '<');
    if e == |s| then None
    else
      var (v, u) := Value(s[..e], false);
      if u != "" then None else Some((if e > 0 then Spaced(value) + v else value, s[e..]))
  }

  /** CXMLElement::ParseString. */
  function ParseElement(s: string): (r: Option<(Element, string)>)
    ensures r.Some? ==> |r.value.1| < |s|
    decreases |s|, 0
  {
    var open := Match(s, "<");
    if open.None? then None
    else
      var id := Identifier(open.value);
      if id.None? then None
      else
        var tag := ParseAttrs(id.value.1, map[]);
        match tag
        case Bad => None
        case Closed(attrs, rest) => Some((Element(id.value.0, attrs, "", []), rest))
        case Open(attrs, rest) =>
          var c := ParseContent(rest, id.value.0, "", []);
          if c.None? then None else Some((Element(id.value.0, attrs, c.value.0, c.value.1), c.value.2))
  }

  /** Text, comments and children up to the end tag: the value, the children and what follows. */
  function ParseContent(s: string, name: string, value: string, children: seq<Element>): (r: Option<(string, seq<Element>, string)>)
    ensures r.Some? ==> |r.value.2| < |s|
    decreases |s|, 1
  {
    var text := ParseText(s, value);
    if text.None? then None
    else
      var (value', t) := text.value;
      var close, comment := Match(t, "</" + name + ">"), Match(t, "<!--");
      if close.Some? then Some((value', children, close.value))
      else if comment.Some? then
        var p := FindText(comment.value, "-->");
        if p == |comment.value| then None else ParseContent(comment.value[p + 3..], name, value', children)
      else
        var c := ParseElement(t);
        if c.None? then None else ParseContent(c.value.1, name, value', children + [c.value.0])
  }

  /** Comments before the element: what follows the last of them. */
  function SkipComments(s: string): (r: Option<string>)
    ensures r.Some? ==> |r.value| <= |s|
    decreases |s|
  {
    var m := Match(s, "<!--");
    if m.None? then Some(s)
    else
      var p := FindText(m.value, "-->");
      if p == |m.value| then None else SkipComments(m.value[p + 3..])
  }

  function SkipDoctype(s: string): Option<string> {
    var m := Match(s, "<!DOCTYPE");
    if m.None? then Some(s)
    else
      var p := Find(m.value, '>');
      if p == |m.value| then None else Some(m.value[p + 1..])
  }

  function SkipHeader(s: string, header: bool): Option<string> {
    var m := Match(s, "<?xml version=\"");
    if m.None? then (if header then None else Some(s))
    else
      var p := FindText(m.value, "?>");
      if p == |m.value| then None else Some(m.value[p + 2..])
  }

  /** What stands before the element: header, comments, document type, comments. */
  function Prolog(s: string, header: bool): Option<string> {
    var a := SkipHeader(s, header);
    if a.None? then None
    else
      var b := SkipComments(a.value);
      if b.None? then None
      else
        var c := SkipDoctype(b.value);
        if c.None? then None else SkipComments(c.value)
  }

  /** CXMLElement::FromString. */
  function FromString(s: string, header: bool): Option<Element> {
    var body := Prolog(s, header);
    if body.None? then None
    else var e := ParseElement(body.value); if e.None? then None else Some(e.value.0)
  }

  // ---------------------------------------------------------------- equality and copies

  /** CXMLElement::Equals: attributes are looked up in the other element by their own names. */
  predicate Equals(a: Element, b: Element)
    decreases a
  {
    && a.name == b.name && a.value == b.value && |a.attrs| == |b.attrs| && |a.children| == |b.children|
    && (forall k | k in a.attrs :: Lower(a.attrs[k].name) in b.attrs && b.attrs[Lower(a.attrs[k].name)] == a.attrs[k])
    && (forall i | 0 <= i < |a.children| :: Equals(a.children[i], b.children[i]))
  }

  /** Every attribute is stored under its own lower-case name. */
  predicate WellKeyed(e: Element)
    decreases e
  {
    (forall k | k in e.attrs :: k == Lower(e.attrs[k].name)) && forall i | 0 <= i < |e.children| :: WellKeyed(e.children[i])
  }
}
