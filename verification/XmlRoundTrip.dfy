/** Reading printed elements: what comes back, exactly, for every tree, attribute order and layout. */
module XmlRoundTrip {
  import opened Bytes
  import opened XmlText
  import opened XmlTree

  // ---------------------------------------------------------------- what can be printed, and what it reads as

  /** Names are identifiers; text holds no less-than sign, attribute values no double quote. */
  predicate Printable(l: Listing)
    decreases l
  {
    && IsName(l.name) && '<' !in l.value && PrintableAttrs(l.attrs) && PrintableAll(l.children)
  }

  predicate PrintableAttrs(attrs: seq<Attr>) {
    forall i | 0 <= i < |attrs| :: IsName(attrs[i].name) && '\"' !in attrs[i].value
  }

  predicate PrintableAll(ls: seq<Listing>)
    decreases ls
  {
    ls == [] || (Printable(ls[0]) && PrintableAll(ls[1..]))
  }

  function ReadAttrs(attrs: seq<Attr>, acc: map<string, Attr>): Option<map<string, Attr>> {
    if attrs == [] then Some(acc)
    else
      var (v, u) := Value(attrs[0].value, false);
      if SkipBlank(u) != "" then None
      else ReadAttrs(attrs[1..], acc[Lower(attrs[0].name) := Attr(attrs[0].name, v)])
  }

  /** The element a listing reads back as: every value as the reader sees it, or nothing. */
  function ReadBack(l: Listing): Option<Element>
    decreases l
  {
    var attrs, children, value := ReadAttrs(l.attrs, map[]), ReadBackAll(l.children), Value(l.value, false);
    if attrs.None? || children.None? || value.1 != "" then None
    else Some(Element(l.name, attrs.value, value.0, children.value))
  }

  function ReadBackAll(ls: seq<Listing>): Option<seq<Element>>
    decreases ls
  {
    if ls == [] then Some([])
    else
      var first, more := ReadBack(ls[0]), ReadBackAll(ls[1..]);
      if first.None? || more.None? then None else Some([first.value] + more.value)
  }

  // ---------------------------------------------------------------- tokens of printed text

  lemma {:induction false} TokenHere(token: string, rest: string)
    ensures MatchHere(token + rest, token) == Some(rest)
  {
    if token == "" {
      assert token + rest == rest;
    } else if token + rest != "" {
      assert (token + rest)[1..] == token[1..] + rest;
      TokenHere(token[1..], rest);
    }
  }

  lemma TokenMatches(token: string, rest: string)
    requires token != "" && !Blank(token[0])
    ensures Match(token + rest, token) == Some(rest)
  {
    TokenHere(token, rest);
  }

  /** The second characters differ. */
  lemma SecondDiffers(s: string, token: string)
    requires |s| >= 2 && |token| >= 2 && !Blank(s[0]) && s[1] != token[1]
    ensures Match(s, token) == None
  {
    assert s[1..][0] == s[1] && token[1..][0] == token[1];
    assert MatchHere(s[1..], token[1..]) == None;
  }

  lemma FirstDiffers(s: string, token: string)
    requires s != "" && token != "" && !Blank(s[0]) && s[0] != token[0]
    ensures Match(s, token) == None
  {}

  lemma {:induction false} BlanksSkipped(b: string, s: string)
    requires forall i | 0 <= i < |b| :: Blank(b[i])
    ensures SkipBlank(b + s) == SkipBlank(s)
  {
    if b == "" {
      assert b + s == s;
    } else {
      assert (b + s)[1..] == b[1..] + s;
      BlanksSkipped(b[1..], s);
    }
  }

  lemma BlankMatch(b: string, s: string, token: string)
    requires forall i | 0 <= i < |b| :: Blank(b[i])
    ensures Match(b + s, token) == Match(s, token)
  {
    BlanksSkipped(b, s);
  }

  lemma {:induction false} NameEnds(name: string, rest: string)
    requires (forall i | 0 <= i < |name| :: NameChar(name[i])) && (rest == "" || !NameChar(rest[0]))
    ensures NameEnd(name + rest) == |name|
  {
    if name == "" {
      assert name + rest == rest;
    } else {
      assert (name + rest)[1..] == name[1..] + rest;
      NameEnds(name[1..], rest);
    }
  }

  lemma NameReads(name: string, rest: string)
    requires IsName(name) && (rest == "" || !NameChar(rest[0]))
    ensures Identifier(name + rest) == Some((name, rest))
  {
    NameEnds(name, rest);
    assert !Blank((name + rest)[0]) by { assert NameChar(name[0]); }
    assert (name + rest)[..|name|] == name && (name + rest)[|name|..] == rest;
  }

  lemma FindAt(s: string, c: char, rest: string)
    requires c !in s
    ensures Find(s + ([c] + rest), c) == |s|
  {
    var t := s + ([c] + rest);
    assert t[|s|] == c;
    assert forall i | 0 <= i < |s| :: t[i] == s[i];
  }

  // ---------------------------------------------------------------- values

  lemma {:induction false} UnreadFrom(s: string, started: bool, c: char)
    requires c !in s
    ensures c !in Value(s, started).1
    decreases |s|
  {
    hide Reference;
    if s == "" {
    } else if Space(s[0]) {
      SkippedFrom(s, c);
      UnreadFrom(SkipSpace(s), started, c);
    } else if s[0] != '&' {
      UnreadFrom(s[1..], true, c);
    } else if |s| > 1 {
      UnreadFrom(s[1 + Reference(s[1..]).1..], true, c);
    }
  }

  lemma {:induction false} SkippedFrom(s: string, c: char)
    requires c !in s
    ensures c !in SkipSpace(s)
  {
    if s != "" && Space(s[0]) { SkippedFrom(s[1..], c); }
  }

  lemma {:induction false} BlankPart(u: string, c: char)
    requires c !in u
    ensures c !in SkipBlank(u) && (SkipBlank(u) != "" ==> !Blank(SkipBlank(u)[0]))
  {
    if u != "" && Blank(u[0]) { BlankPart(u[1..], c); }
  }

  lemma {:induction false} BlankBefore(u: string, s: string)
    requires s != "" && !Blank(s[0])
    ensures SkipBlank(u + s) == SkipBlank(u) + s
  {
    if u == "" || !Blank(u[0]) {
      assert SkipBlank(u) == u;
      assert u == "" ==> u + s == s;
    } else {
      assert (u + s)[1..] == u[1..] + s;
      BlankBefore(u[1..], s);
    }
  }

  /** A quoted value, in either kind of quotes. */
  lemma QuotedReads(value: string, quote: char, rest: string)
    requires quote !in value && (quote == '\"' || quote == '\'')
    ensures var (v, u) := Value(value, false);
      Quoted(value + ([quote] + rest), quote) == if SkipBlank(u) == "" then Some((v, rest)) else None
  {
    hide Value;
    var s := value + ([quote] + rest);
    var u := Value(value, false).1;
    FindAt(value, quote, rest);
    assert s[..|value|] == value && s[|value|..] == [quote] + rest;
    UnreadFrom(value, false, quote);
    BlankPart(u, quote);
    BlankBefore(u, [quote] + rest);
    var w := SkipBlank(u);
    if w == "" {
      assert w + ([quote] + rest) == [quote] + rest;
      TokenHere([quote], rest);
    }
  }

  // ---------------------------------------------------------------- attributes

  lemma AttrReads(a: Attr, rest: string)
    requires IsName(a.name) && '\"' !in a.value
    ensures var (v, u) := Value(a.value, false);
      ParseAttr(" " + (a.name + ("=" + ("\"" + (a.value + ("\"" + rest)))))) ==
      if SkipBlank(u) == "" then Some((Attr(a.name, v), rest)) else None
  {
    hide Value, Quoted, Match;
    var q := "\"" + (a.value + ("\"" + rest));
    BlanksSkipped(" ", a.name + ("=" + q));
    NameReads(a.name, "=" + q);
    NotBlank(a.name, "=" + q);
    TokenMatches("=", q);
    TokenMatches("\"", a.value + ("\"" + rest));
    QuotedReads(a.value, '\"', rest);
  }

  /** Single quotes are read as double quotes are. */
  lemma SingleQuoted(a: Attr, rest: string)
    requires IsName(a.name) && '\'' !in a.value
    ensures var (v, u) := Value(a.value, false);
      ParseAttr(" " + (a.name + ("=" + ("'" + (a.value + ("'" + rest)))))) ==
      if SkipBlank(u) == "" then Some((Attr(a.name, v), rest)) else None
  {
    hide Value, Quoted, Match;
    var q := "'" + (a.value + ("'" + rest));
    BlanksSkipped(" ", a.name + ("=" + q));
    NameReads(a.name, "=" + q);
    NotBlank(a.name, "=" + q);
    TokenMatches("=", q);
    FirstDiffers(q, "\"");
    TokenMatches("'", a.value + ("'" + rest));
    QuotedReads(a.value, '\'', rest);
  }

  lemma NotBlank(name: string, rest: string)
    requires IsName(name)
    ensures SkipBlank(name + rest) == name + rest
  {
    assert NameChar(name[0]);
  }

  /** A name behind a space is neither the end of the tag nor a slash. */
  lemma NameNext(name: string, rest: string)
    requires IsName(name)
    ensures Match(" " + (name + rest), ">") == None && Match(" " + (name + rest), "/") == None
  {
    assert NameChar(name[0]);
    BlankMatch(" ", name + rest, ">");
    BlankMatch(" ", name + rest, "/");
    FirstDiffers(name + rest, ">");
    FirstDiffers(name + rest, "/");
  }

  lemma AttrShape(name: string, value: string, more: string, tail: string)
    ensures " " + name + "=\"" + value + "\"" + more + tail == " " + (name + ("=" + ("\"" + (value + ("\"" + (more + tail))))))
  {}

  lemma {:induction false} AttrsRead(attrs: seq<Attr>, tail: string, acc: map<string, Attr>)
    requires PrintableAttrs(attrs)
    ensures ParseAttrs(PrintAttrs(attrs) + tail, acc) ==
      if ReadAttrs(attrs, acc).None? then Bad else ParseAttrs(tail, ReadAttrs(attrs, acc).value)
    decreases |attrs|
  {
    hide Value, Match, ParseAttr, SkipBlank, IsName, Lower;
    if attrs == [] {
      assert PrintAttrs(attrs) + tail == tail;
    } else {
      var a, more := attrs[0], PrintAttrs(attrs[1..]);
      AttrShape(a.name, a.value, more, tail);
      NameNext(a.name, "=" + ("\"" + (a.value + ("\"" + (more + tail)))));
      AttrReads(a, more + tail);
      var v := Value(a.value, false).0;
      AttrsRead(attrs[1..], tail, acc[Lower(a.name) := Attr(a.name, v)]);
    }
  }

  // ---------------------------------------------------------------- elements

  predicate Break(b: string) { b == "" || b == "\r\n" }

  lemma {:induction false} LeadSkipped(b: string, s: string)
    requires forall i | 0 <= i < |b| :: Space(b[i])
    ensures SkipSpace(b + s) == SkipSpace(s)
  {
    if b == "" {
      assert b + s == s;
    } else {
      assert (b + s)[1..] == b[1..] + s;
      LeadSkipped(b[1..], s);
    }
  }

  /** A line break before a text is not part of its value. */
  lemma BreakSkipped(b: string, s: string)
    requires Break(b)
    ensures Value(b + s, false) == Value(s, false)
  {
    if b == "" {
      assert b + s == s;
    } else {
      LeadSkipped(b, s);
      var t := SkipSpace(s);
      assert Value(b + s, false) == Value(t, false);
      if s != "" && !Space(s[0]) { assert t == s; }
      if s == "" { assert t == ""; }
    }
  }

  lemma SlashEnd(m: map<string, Attr>, rest: string)
    ensures ParseAttrs("/>" + rest, m) == Closed(m, rest)
  {
    FirstDiffers("/>" + rest, ">");
    TokenMatches("/", ">" + rest);
    assert "/" + (">" + rest) == "/>" + rest;
    TokenMatches(">", rest);
  }

  lemma OpenEnd(m: map<string, Attr>, rest: string)
    ensures ParseAttrs(">" + rest, m) == Open(m, rest)
  {
    TokenMatches(">", rest);
  }

  lemma AttrsHead(attrs: seq<Attr>, tail: string)
    requires tail != "" && !NameChar(tail[0])
    ensures !NameChar((PrintAttrs(attrs) + tail)[0])
  {}

  /** Start tag: name and attributes, up to what stands behind them. */
  lemma TagReads(l: Listing, b: string, tail: string)
    requires Printable(l) && Break(b) && tail != "" && !NameChar(tail[0])
    ensures var s := b + ("<" + (l.name + (PrintAttrs(l.attrs) + tail)));
      && Match(s, "<") == Some(l.name + (PrintAttrs(l.attrs) + tail))
      && Identifier(l.name + (PrintAttrs(l.attrs) + tail)) == Some((l.name, PrintAttrs(l.attrs) + tail))
      && ParseAttrs(PrintAttrs(l.attrs) + tail, map[]) ==
         if ReadAttrs(l.attrs, map[]).None? then Bad else ParseAttrs(tail, ReadAttrs(l.attrs, map[]).value)
  {
    hide Match, Identifier, ParseAttrs, ReadAttrs, PrintAttrs, PrintableAttrs, IsName;
    var rest := l.name + (PrintAttrs(l.attrs) + tail);
    BlankMatch(b, "<" + rest, "<");
    TokenMatches("<", rest);
    AttrsHead(l.attrs, tail);
    NameReads(l.name, PrintAttrs(l.attrs) + tail);
    AttrsRead(l.attrs, tail, map[]);
  }

  function EndTag(name: string, rest: string): string { "</" + name + ">" + rest }

  /** The printed element without the line break behind it. */
  function Bare(l: Listing, newline: bool): string {
    "<" + l.name + PrintAttrs(l.attrs)
    + (if l.children == [] && l.value == "" then "/>"
       else ">" + EndLine(newline && l.children != []) + PrintAll(l.children, newline) + l.value + "</" + l.name + ">")
  }

  lemma PrintIsBare(l: Listing, newline: bool)
    ensures Print(l, newline) == Bare(l, newline) + EndLine(newline)
  {
    hide PrintAttrs, PrintAll;
    var front, e := "<" + l.name + PrintAttrs(l.attrs), EndLine(newline);
    if l.children == [] && l.value == "" {
      assert front + ("/>" + e) == front + "/>" + e;
    } else {
      var body := ">" + EndLine(newline && l.children != []) + PrintAll(l.children, newline) + l.value + "</" + l.name + ">";
      assert front + (body + e) == front + body + e;
    }
  }

  /** The same, cut where the reader cuts it. */
  lemma ClosedShape(l: Listing, newline: bool, rest: string)
    requires l.children == [] && l.value == ""
    ensures Bare(l, newline) + rest == "<" + (l.name + (PrintAttrs(l.attrs) + ("/>" + rest)))
  {
    hide PrintAttrs;
  }

  lemma OpenShape(l: Listing, newline: bool, rest: string)
    requires l.children != [] || l.value != ""
    ensures Bare(l, newline) + rest ==
      "<" + (l.name + (PrintAttrs(l.attrs) + (">" + (EndLine(newline && l.children != [])
      + (PrintAll(l.children, newline) + (l.value + EndTag(l.name, rest)))))))
  {
    hide PrintAttrs, PrintAll;
    Nine("<" + l.name, PrintAttrs(l.attrs), ">", EndLine(newline && l.children != []), PrintAll(l.children, newline), l.value,
      "</", l.name, ">", rest);
    var more := PrintAttrs(l.attrs) + (">" + (EndLine(newline && l.children != [])
      + (PrintAll(l.children, newline) + (l.value + EndTag(l.name, rest)))));
    assert "<" + l.name + more == "<" + (l.name + more);
  }

  lemma Nine(x: string, a: string, b: string, c: string, d: string, v: string, y: string, n: string, z: string, rest: string)
    ensures x + a + (b + c + d + v + y + n + z) + rest == x + (a + (b + (c + (d + (v + (y + n + z + rest))))))
  {}

  /** Text and end tag. */
  lemma TextReads(b: string, value: string, name: string, rest: string, acc: seq<Element>)
    requires Break(b) && '<' !in value && IsName(name)
    ensures ParseContent(b + (value + EndTag(name, rest)), name, "", acc) ==
      if Value(value, false).1 != "" then None else Some((Value(value, false).0, acc, rest))
  {
    hide Value, Match, IsName;
    var s := b + (value + EndTag(name, rest));
    var run := b + value;
    assert s == run + (['<'] + ("/" + name + ">" + rest));
    FindAt(run, '<', "/" + name + ">" + rest);
    assert s[..|run|] == run && s[|run|..] == "</" + name + ">" + rest;
    BreakSkipped(b, value);
    TokenMatches("</" + name + ">", rest);
    var v := Value(run, false).0;
    assert "" + v == v;
  }

  lemma PrintedHead(l: Listing, newline: bool, rest: string)
    requires Printable(l)
    ensures var s := Print(l, newline) + rest; |s| >= 2 && s[0] == '<' && NameChar(s[1])
  {
    hide PrintAttrs, PrintBody;
    assert NameChar(l.name[0]);
  }

  /** Before a child there is at most a line break, and the child is neither the end tag nor a comment. */
  lemma ChildNext(b: string, s: string, name: string, acc: seq<Element>)
    requires Break(b) && |s| >= 2 && s[0] == '<' && NameChar(s[1])
    ensures var c := ParseElement(s);
      ParseContent(b + s, name, "", acc) == if c.None? then None else ParseContent(c.value.1, name, "", acc + [c.value.0])
  {
    hide Value, ParseElement, Match;
    assert s == ['<'] + s[1..];
    FindAt(b, '<', s[1..]);
    assert (b + s)[..|b|] == b && (b + s)[|b|..] == s;
    assert b + "" == b;
    BreakSkipped(b, "");
    EmptyReads();
    var v := Value((b + s)[..Find(b + s, '<')], false);
    assert v == ("", "");
    assert Spaced("") + v.0 == "";
    ElementNext(s, name);
  }

  lemma ElementNext(s: string, name: string)
    requires |s| >= 2 && s[0] == '<' && NameChar(s[1])
    ensures Match(s, "</" + name + ">") == None && Match(s, "<!--") == None
  {
    SecondDiffers(s, "</" + name + ">");
    SecondDiffers(s, "<!--");
  }

  lemma {:induction false} ContentReads(ls: seq<Listing>, newline: bool, b: string, value: string, name: string, rest: string, acc: seq<Element>)
    requires PrintableAll(ls) && Break(b) && '<' !in value && IsName(name)
    ensures ParseContent(b + (PrintAll(ls, newline) + (value + EndTag(name, rest))), name, "", acc) ==
      if ReadBackAll(ls).None? || Value(value, false).1 != "" then None
      else Some((Value(value, false).0, acc + ReadBackAll(ls).value, rest))
    decreases ls
  {
    hide Value, ParseContent, Print, Printable, ReadBack, EndTag, IsName, ParseElement;
    var tail := value + EndTag(name, rest);
    if ls == [] {
      assert "" + tail == tail && acc + [] == acc;
      TextReads(b, value, name, rest, acc);
    } else {
      var x := PrintAll(ls[1..], newline) + tail;
      assert PrintAll(ls, newline) + tail == Print(ls[0], newline) + x;
      PrintedHead(ls[0], newline, x);
      ChildNext(b, Print(ls[0], newline) + x, name, acc);
      ElementReads(ls[0], newline, "", x);
      assert "" + (Print(ls[0], newline) + x) == Print(ls[0], newline) + x;
      var first := ReadBack(ls[0]);
      if first.Some? {
        ContentReads(ls[1..], newline, EndLine(newline), value, name, rest, acc + [first.value]);
        var more := ReadBackAll(ls[1..]);
        if more.Some? { assert acc + [first.value] + more.value == acc + ([first.value] + more.value); }
      }
    }
  }

  /** Reading a printed element, whatever follows it. */
  lemma {:induction false} ElementReads(l: Listing, newline: bool, b: string, rest: string)
    requires Printable(l) && Break(b)
    ensures ParseElement(b + (Print(l, newline) + rest)) ==
      if ReadBack(l).None? then None else Some((ReadBack(l).value, EndLine(newline) + rest))
    decreases l, 1
  {
    hide ParseElement, Print, Bare, ReadBack, Printable;
    PrintIsBare(l, newline);
    assert Bare(l, newline) + EndLine(newline) + rest == Bare(l, newline) + (EndLine(newline) + rest);
    BareReads(l, newline, b, EndLine(newline) + rest);
  }

  lemma {:induction false} BareReads(l: Listing, newline: bool, b: string, rest: string)
    requires Printable(l) && Break(b)
    ensures ParseElement(b + (Bare(l, newline) + rest)) == if ReadBack(l).None? then None else Some((ReadBack(l).value, rest))
    decreases l, 0
  {
    hide Value, ParseContent, Bare, Match, Identifier, ParseAttrs, ReadAttrs, PrintAttrs, EndTag, IsName, PrintAll, PrintableAttrs;
    if l.children == [] && l.value == "" {
      ClosedShape(l, newline, rest);
      TagReads(l, b, "/>" + rest);
      EmptyReads();
      if ReadAttrs(l.attrs, map[]).Some? { SlashEnd(ReadAttrs(l.attrs, map[]).value, rest); }
    } else {
      var inner := EndLine(newline && l.children != []) + (PrintAll(l.children, newline) + (l.value + EndTag(l.name, rest)));
      OpenShape(l, newline, rest);
      TagReads(l, b, ">" + inner);
      ContentReads(l.children, newline, EndLine(newline && l.children != []), l.value, l.name, rest, []);
      if ReadAttrs(l.attrs, map[]).Some? { OpenEnd(ReadAttrs(l.attrs, map[]).value, inner); }
      if ReadBackAll(l.children).Some? { assert [] + ReadBackAll(l.children).value == ReadBackAll(l.children).value; }
    }
  }

  lemma EmptyReads()
    ensures Value("", false) == ("", "")
  {}
}
