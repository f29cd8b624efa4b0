/** Content of texts, comments and children in any order: what its value and its children are. */
module XmlMixed {
  import opened Bytes
  import opened XmlText
  import opened XmlTree
  import opened XmlRoundTrip
  import opened XmlDocuments

  /** What stands between two texts. */
  datatype Mark = Comment(c: string) | Child(l: Listing)

  function PrintMark(m: Mark, newline: bool): string {
    match m
    case Comment(c) => "<!--" + (c + "-->")
    case Child(l) => Bare(l, newline)
  }

  /** A text, and then marks each with the text behind it; texts may be empty. */
  function Mixed(u: string, ms: seq<(Mark, string)>, newline: bool): string
    decreases |ms|
  {
    u + if ms == [] then "" else PrintMark(ms[0].0, newline) + Mixed(ms[0].1, ms[1..], newline)
  }

  /** Texts are joined with one space between them, unless what is there is empty or ends in one. */
  function Join(value: string, u: string): string {
    if u == "" then value
    else if value == "" || value[|value| - 1] == ' ' then value + Value(u, false).0
    else value + (" " + Value(u, false).0)
  }

  function MixedValue(value: string, u: string, ms: seq<(Mark, string)>): string
    decreases |ms|
  {
    var v := Join(value, u);
    if ms == [] then v else MixedValue(v, ms[0].1, ms[1..])
  }

  /** The children that are read, in order, or nothing. */
  function MixedChildren(ms: seq<(Mark, string)>): Option<seq<Element>> {
    if ms == [] then Some([])
    else
      var more := MixedChildren(ms[1..]);
      match ms[0].0
      case Comment(_) => more
      case Child(l) => if ReadBack(l).None? || more.None? then None else Some([ReadBack(l).value] + more.value)
  }

  predicate Text(u: string) { '<' !in u && Value(u, false).1 == "" }

  predicate GoodMark(m: Mark) {
    match m
    case Comment(c) => XmlDocuments.Closed(c)
    case Child(l) => Printable(l)
  }

  predicate GoodMarks(ms: seq<(Mark, string)>) { forall i | 0 <= i < |ms| :: GoodMark(ms[i].0) && Text(ms[i].1) }

  // ---------------------------------------------------------------- one text and one mark

  lemma TextReads(u: string, t: string, value: string)
    requires Text(u) && t != "" && t[0] == '<'
    ensures ParseText(u + t, value) == Some((Join(value, u), t))
  {
    hide Value;
    assert t == ['<'] + t[1..];
    FindAt(u, '<', t[1..]);
    assert (u + t)[..|u|] == u && (u + t)[|u|..] == t;
    var v := Value(u, false).0;
    assert value + " " + v == value + (" " + v);
  }

  /** Up to the end tag. */
  lemma EndReads(u: string, name: string, rest: string, value: string, acc: seq<Element>)
    requires Text(u)
    ensures ParseContent(u + EndTag(name, rest), name, value, acc) == Some((Join(value, u), acc, rest))
  {
    hide Join, Match, Text, Value;
    TextReads(u, EndTag(name, rest), value);
    TokenMatches("</" + name + ">", rest);
    hide ParseText;
  }

  /** Past a comment. */
  lemma CommentReads(u: string, c: string, rest: string, name: string, value: string, acc: seq<Element>)
    requires Text(u) && XmlDocuments.Closed(c) && IsName(name)
    ensures ParseContent(u + ("<!--" + (c + ("-->" + rest))), name, value, acc) == ParseContent(rest, name, Join(value, u), acc)
  {
    hide Join, Match, Text, Value, XmlDocuments.Closed, FindText;
    var t := "<!--" + (c + ("-->" + rest));
    TextReads(u, t, value);
    CommentEnds(c, rest);
    SecondDiffers(t, "</" + name + ">");
    hide ParseText;
  }

  /** Past a child. */
  lemma ChildReads(u: string, l: Listing, newline: bool, rest: string, name: string, value: string, acc: seq<Element>)
    requires Text(u) && Printable(l)
    ensures ParseContent(u + (Bare(l, newline) + rest), name, value, acc) ==
      if ReadBack(l).None? then None else ParseContent(rest, name, Join(value, u), acc + [ReadBack(l).value])
  {
    hide Join, Match, Text, Value, Bare, Printable, ReadBack, ParseElement;
    var t := Bare(l, newline) + rest;
    BareStarts(l, newline, rest);
    TextReads(u, t, value);
    ElementNext(t, name);
    BareReads(l, newline, "", rest);
    assert "" + t == t;
    hide ParseText;
  }

  lemma BareStarts(l: Listing, newline: bool, rest: string)
    requires Printable(l)
    ensures var s := Bare(l, newline) + rest; |s| >= 2 && s[0] == '<' && NameChar(s[1])
  {
    hide PrintAttrs, PrintAll;
    assert NameChar(l.name[0]);
  }

  // ---------------------------------------------------------------- any number of them

  /** The texts joined in order, and the children in order, for every content. */
  lemma {:induction false} MixedReads(
    u: string, ms: seq<(Mark, string)>, newline: bool, name: string, rest: string, value: string, acc: seq<Element>)
    requires Text(u) && GoodMarks(ms) && IsName(name)
    ensures var c := MixedChildren(ms);
      ParseContent(Mixed(u, ms, newline) + EndTag(name, rest), name, value, acc) ==
      if c.None? then None else Some((MixedValue(value, u, ms), acc + c.value, rest))
    decreases |ms|
  {
    hide Text, GoodMark, IsName, ParseContent, Join, Bare, Printable, ReadBack, EndTag, XmlDocuments.Closed;
    if ms == [] {
      assert u + "" == u && acc + [] == acc;
      EndReads(u, name, rest, value, acc);
    } else {
      var v, more := ms[0].1, ms[1..];
      var tail := Mixed(v, more, newline) + EndTag(name, rest);
      assert forall i | 0 <= i < |more| :: more[i] == ms[i + 1];
      match ms[0].0
      case Comment(c) =>
        CommentShape(u, c, Mixed(v, more, newline), EndTag(name, rest));
        MarkIs(ms[0].0);
        CommentReads(u, c, tail, name, value, acc);
        MixedReads(v, more, newline, name, rest, Join(value, u), acc);
      case Child(l) =>
        ChildShape(u, Bare(l, newline), Mixed(v, more, newline), EndTag(name, rest));
        MarkIs(ms[0].0);
        ChildReads(u, l, newline, tail, name, value, acc);
        if ReadBack(l).Some? {
          var e := ReadBack(l).value;
          MixedReads(v, more, newline, name, rest, Join(value, u), acc + [e]);
          var c := MixedChildren(more);
          if c.Some? { assert acc + [e] + c.value == acc + ([e] + c.value); }
        }
    }
  }

  lemma MarkIs(m: Mark)
    requires GoodMark(m)
    ensures m.Comment? ==> XmlDocuments.Closed(m.c)
    ensures m.Child? ==> Printable(m.l)
  {}

  lemma CommentShape(u: string, c: string, more: string, end: string)
    ensures u + ("<!--" + (c + "-->") + more) + end == u + ("<!--" + (c + ("-->" + (more + end))))
  {}

  lemma ChildShape(u: string, p: string, more: string, end: string)
    ensures u + (p + more) + end == u + (p + (more + end))
  {}

  /** A whole element of such content. */
  lemma MixedElement(name: string, u: string, ms: seq<(Mark, string)>, newline: bool, rest: string)
    requires Text(u) && GoodMarks(ms) && IsName(name)
    ensures var c := MixedChildren(ms);
      ParseElement("<" + (name + (">" + (Mixed(u, ms, newline) + EndTag(name, rest))))) ==
      if c.None? then None else Some((Element(name, map[], MixedValue("", u, ms), c.value), rest))
  {
    hide Text, GoodMarks, IsName, ParseContent, MixedChildren, MixedValue, Mixed, EndTag, Match, ParseAttrs, Identifier;
    var inner := Mixed(u, ms, newline) + EndTag(name, rest);
    TokenMatches("<", name + (">" + inner));
    NameReads(name, ">" + inner);
    OpenEnd(map[], inner);
    MixedReads(u, ms, newline, name, rest, "", []);
    var c := MixedChildren(ms);
    if c.Some? { assert [] + c.value == c.value; }
  }

  /** Two tidy texts around a comment or a child: one space between them, and no second one. */
  lemma TwoTexts(name: string, u: string, m: Mark, v: string, newline: bool, rest: string)
    requires IsName(name) && GoodMark(m) && u != "" && v != "" && '<' !in u && '<' !in v && Tidy(u, false) && Tidy(v, false)
    ensures var e := ParseElement("<" + (name + (">" + (Mixed(u, [(m, v)], newline) + EndTag(name, rest)))));
      && (e.Some? <==> m.Comment? || ReadBack(m.l).Some?)
      && (e.Some? ==> e.value.1 == rest && e.value.0.value == if u[|u| - 1] == ' ' then u + v else u + (" " + v))
  {
    hide Value, Tidy, GoodMark, IsName, ParseElement, Mixed, EndTag, ReadBack;
    TidyKept(u, false);
    TidyKept(v, false);
    var ms := [(m, v)];
    assert ms[1..] == [];
    MixedElement(name, u, ms, newline, rest);
    assert "" + u == u;
  }
}
