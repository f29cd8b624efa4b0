/** Printed documents that are cut off: which of them the reader takes for whole ones. */
module XmlPrefixes {
  import opened Bytes
  import opened XmlText
  import opened XmlTree
  import opened XmlRoundTrip
  import opened XmlDocuments

  // ---------------------------------------------------------------- start tags

  /** A token is matched by the end of the text at any of its characters. */
  lemma {:induction false} PartialHere(s: string, token: string)
    requires s <= token
    ensures MatchHere(s, token) == Some("")
  {
    if s != "" {
      assert s[1..] == token[1..][..|s| - 1];
      PartialHere(s[1..], token[1..]);
    }
  }

  lemma PartialMatches(s: string, token: string)
    requires s != "" && s <= token && !Blank(s[0])
    ensures Match(s, token) == Some("")
  {
    PartialHere(s, token);
  }

  lemma NothingMatches(s: string, token: string)
    requires s == "" || s == " " || s == "\r" || s == "\r\n"
    ensures Match(s, token) == None
  {
    if s == "\r\n" { assert s[1..] == "\n" && SkipBlank(s[1..]) == "" && SkipBlank(s) == SkipBlank(s[1..]); }
  }

  lemma NoQuote(v: string)
    requires '\"' !in v
    ensures Quoted(v, '\"') == None
  {
    hide Value;
    assert Find(v, '\"') == |v|;
  }

  /** An attribute cut off in its name. */
  lemma NameCut(name: string)
    requires IsName(name)
    ensures ParseAttr(" " + name) == None && Match(" " + name, ">") == None && Match(" " + name, "/") == None
  {
    hide Match, Quoted;
    assert name + "" == name;
    NameNext(name, "");
    BlanksSkipped(" ", name);
    NameReads(name, "");
    NotBlank(name, "");
    NothingMatches("", "=");
  }

  /** An attribute cut off in its value, or before it. */
  lemma ValueCut(name: string, r: string)
    requires IsName(name) && (r == "" || (r[0] == '\"' && '\"' !in r[1..]))
    ensures var s := " " + (name + ("=" + r)); ParseAttr(s) == None && Match(s, ">") == None && Match(s, "/") == None
  {
    hide Match, Quoted, Value;
    NameNext(name, "=" + r);
    BlanksSkipped(" ", name + ("=" + r));
    NameReads(name, "=" + r);
    NotBlank(name, "=" + r);
    TokenMatches("=", r);
    if r == "" {
      NothingMatches(r, "\"");
      NothingMatches(r, "'");
    } else {
      assert r == "\"" + r[1..];
      TokenMatches("\"", r[1..]);
      NoQuote(r[1..]);
    }
  }

  function PrintAttr(a: Attr): string { " " + (a.name + ("=" + ("\"" + (a.value + "\"")))) }

  lemma AttrCut(a: Attr, k: nat)
    requires IsName(a.name) && '\"' !in a.value && 0 < k < |PrintAttr(a)|
    ensures var s := PrintAttr(a)[..k]; ParseAttr(s) == None && Match(s, ">") == None && Match(s, "/") == None
  {
    hide ParseAttr, Match;
    var s := PrintAttr(a)[..k];
    if k == 1 {
      assert s == " ";
      OneBlank();
    } else if k <= 1 + |a.name| {
      assert s == " " + a.name[..k - 1];
      NameCut(a.name[..k - 1]);
    } else {
      var r := ("\"" + (a.value + "\""))[..k - 2 - |a.name|];
      assert s == " " + (a.name + ("=" + r));
      assert r != "" ==> r[1..] == a.value[..|r| - 1];
      ValueCut(a.name, r);
    }
  }

  lemma OneBlank()
    ensures ParseAttr(" ") == None && Match(" ", ">") == None && Match(" ", "/") == None
  {}

  lemma AttrWhole(a: Attr, rest: string)
    requires IsName(a.name) && '\"' !in a.value
    ensures var (v, u) := Value(a.value, false); var s := PrintAttr(a) + rest;
      && Match(s, ">") == None && Match(s, "/") == None
      && ParseAttr(s) == if SkipBlank(u) == "" then Some((Attr(a.name, v), rest)) else None
  {
    hide Value, ParseAttr, Match, SkipBlank;
    var s := " " + (a.name + ("=" + ("\"" + (a.value + ("\"" + rest)))));
    assert PrintAttr(a) + rest == s;
    NameNext(a.name, "=" + ("\"" + (a.value + ("\"" + rest))));
    AttrReads(a, rest);
  }

  /** Attributes that the text ends in or behind. */
  lemma {:induction false} AttrsCut(attrs: seq<Attr>, k: nat, acc: map<string, Attr>)
    requires PrintableAttrs(attrs) && k <= |PrintAttrs(attrs)|
    ensures ParseAttrs(PrintAttrs(attrs)[..k], acc) == Bad
    decreases |attrs|
  {
    hide Value, Match, ParseAttr, SkipBlank, IsName, Lower;
    var s := PrintAttrs(attrs)[..k];
    if k == 0 {
      NothingMatches(s, ">");
      NothingMatches(s, "/");
    } else {
      var a, more := attrs[0], PrintAttrs(attrs[1..]);
      var m := |PrintAttr(a)|;
      AttrFirst(attrs);
      if k < m {
        assert s == PrintAttr(a)[..k];
        AttrCut(a, k);
      } else {
        assert s == PrintAttr(a) + more[..k - m];
        AttrWhole(a, more[..k - m]);
        AttrsCut(attrs[1..], k - m, acc[Lower(a.name) := Attr(a.name, Value(a.value, false).0)]);
      }
    }
  }

  lemma AttrFirst(attrs: seq<Attr>)
    requires attrs != []
    ensures PrintAttrs(attrs) == PrintAttr(attrs[0]) + PrintAttrs(attrs[1..])
  {
    var a, more := attrs[0], PrintAttrs(attrs[1..]);
    assert " " + a.name + "=\"" + a.value + "\"" + more == PrintAttr(a) + more;
  }

  /** A start tag without its last character. */
  lemma TagCut(l: Listing, n: nat)
    requires Printable(l) && n <= 1 + |l.name| + |PrintAttrs(l.attrs)|
    ensures ParseElement(("<" + l.name + PrintAttrs(l.attrs))[..n]) == None
  {
    hide ParseAttrs, ParseContent, PrintAttrs, PrintableAttrs;
    var s := ("<" + l.name + PrintAttrs(l.attrs))[..n];
    if n == 0 {
      NothingMatches(s, "<");
    } else if n == 1 {
      assert s == "<";
    } else {
      var k := if n <= 1 + |l.name| then 0 else n - 1 - |l.name|;
      var name, more := l.name[..n - 1 - k], PrintAttrs(l.attrs)[..k];
      assert s == "<" + (name + more);
      NamePart(l.name, n - 1 - k);
      AttrsStart(l.attrs, k);
      TokenMatches("<", name + more);
      NameReads(name, more);
      AttrsCut(l.attrs, k, map[]);
    }
  }

  lemma NamePart(name: string, k: nat)
    requires IsName(name) && 0 < k <= |name|
    ensures IsName(name[..k])
  {}

  lemma AttrsStart(attrs: seq<Attr>, k: nat)
    requires k <= |PrintAttrs(attrs)|
    ensures k > 0 ==> !NameChar(PrintAttrs(attrs)[..k][0])
  {}

  // ---------------------------------------------------------------- content

  /** What the reader makes of the first n characters of a line break, printed children, text and end tag. */
  function ContentCut(ls: seq<Listing>, newline: bool, b: string, value: string, n: nat, acc: seq<Element>): Option<(string, seq<Element>)>
  {
    if ls == [] then
      if n <= |b| + |value| || Value(value, false).1 != "" then None else Some((Value(value, false).0, acc))
    else if n <= |b| then None
    else if n == |b| + 1 then Some(("", acc))
    else
      var p, first := |b| + |Bare(ls[0], newline)|, ReadBack(ls[0]);
      if n <= p || first.None? then None
      else ContentCut(ls[1..], newline, EndLine(newline), value, n - p, acc + [first.value])
  }

  /** What the reader makes of the first n characters of a printed element. */
  function Truncated(l: Listing, newline: bool, n: nat): Option<Element> {
    var t, attrs := 2 + |l.name| + |PrintAttrs(l.attrs)|, ReadAttrs(l.attrs, map[]);
    if n <= t || (l.children == [] && l.value == "") || attrs.None? then None
    else
      var c := ContentCut(l.children, newline, EndLine(newline && l.children != []), l.value, n - t, []);
      if c.None? then None else Some(Element(l.name, attrs.value, c.value.0, c.value.1))
  }

  function Content(ls: seq<Listing>, newline: bool, b: string, value: string, name: string): string {
    b + (PrintAll(ls, newline) + (value + EndTag(name, "")))
  }

  lemma TextOnly(s: string, name: string, value: string, acc: seq<Element>)
    requires '<' !in s
    ensures ParseContent(s, name, value, acc) == None
  {
    hide Value;
    assert Find(s, '<') == |s|;
  }

  /** Text and the beginning of an end tag, or of whatever starts with a less-than sign. */
  lemma TextCut(b: string, value: string, name: string, end: string, acc: seq<Element>)
    requires Break(b) && '<' !in value && end != "" && end <= "</" + name + ">"
    ensures ParseContent(b + value + end, name, "", acc) ==
      if Value(value, false).1 != "" then None else Some((Value(value, false).0, acc, ""))
  {
    hide Value, Match;
    var run, s := b + value, b + value + end;
    assert end[0] == '<';
    assert end == ['<'] + end[1..];
    FindAt(run, '<', end[1..]);
    assert s[..|run|] == run && s[|run|..] == end;
    BreakSkipped(b, value);
    PartialMatches(end, "</" + name + ">");
    var v := Value(run, false).0;
    assert "" + v == v;
    EmptyReads();
  }

  lemma EndCut(b: string, value: string, name: string, n: nat, acc: seq<Element>)
    requires Break(b) && '<' !in value && n < |Content([], false, b, value, name)|
    ensures ParseContent(Content([], false, b, value, name)[..n], name, "", acc) ==
      if n <= |b| + |value| || Value(value, false).1 != "" then None else Some((Value(value, false).0, acc, ""))
  {
    hide Value, ParseContent;
    var end := "</" + name + ">";
    var s := Content([], false, b, value, name);
    assert s == b + value + end;
    if n <= |b| + |value| {
      assert s[..n] == (b + value)[..n];
      TextOnly(s[..n], name, "", acc);
    } else {
      assert s[..n] == b + value + end[..n - |b| - |value|];
      TextCut(b, value, name, end[..n - |b| - |value|], acc);
    }
  }

  /** A child is cut off, and with it the content, unless it is just the less-than sign that is left. */
  lemma ChildCut(b: string, c: string, name: string, acc: seq<Element>)
    requires Break(b) && c != "" && c[0] == '<' && (|c| > 1 ==> NameChar(c[1]))
    requires var r := ParseElement(c); r.Some? ==> r.value.1 == ""
    ensures ParseContent(b + c, name, "", acc) == if |c| == 1 then Some(("", acc, "")) else None
  {
    hide Value, ParseElement, ParseContent;
    if |c| == 1 {
      assert c == "<" && c <= "</" + name + ">";
      assert b + "" + c == b + c;
      TextCut(b, "", name, c, acc);
      EmptyReads();
    } else {
      ChildNext(b, c, name, acc);
      var r := ParseElement(c);
      if r.Some? { TextOnly("", name, "", acc + [r.value.0]); }
    }
  }

  lemma BareHead(l: Listing, newline: bool)
    requires Printable(l)
    ensures var s := Bare(l, newline); |s| > 2 && s[0] == '<' && NameChar(s[1])
  {
    hide PrintAttrs, PrintAll;
    assert NameChar(l.name[0]);
  }

  /** Content that starts with a child: the child, and the content behind it. */
  lemma ContentFirst(ls: seq<Listing>, newline: bool, b: string, value: string, name: string)
    requires ls != []
    ensures Content(ls, newline, b, value, name) ==
      b + (Bare(ls[0], newline) + Content(ls[1..], newline, EndLine(newline), value, name))
  {
    hide Bare, Print, EndTag;
    PrintIsBare(ls[0], newline);
    Moved(b, Bare(ls[0], newline), EndLine(newline), PrintAll(ls[1..], newline), value + EndTag(name, ""));
  }

  lemma Moved(b: string, p: string, e: string, q: string, t: string)
    ensures b + (p + e + q + t) == b + (p + (e + (q + t)))
  {}

  lemma {:induction false} ContentCuts(ls: seq<Listing>, newline: bool, b: string, value: string, name: string, n: nat, acc: seq<Element>)
    requires PrintableAll(ls) && Break(b) && '<' !in value && n < |Content(ls, newline, b, value, name)|
    ensures var c := ContentCut(ls, newline, b, value, n, acc);
      ParseContent(Content(ls, newline, b, value, name)[..n], name, "", acc) ==
      if c.None? then None else Some((c.value.0, c.value.1, ""))
    decreases ls
  {
    hide Value, ParseContent, ParseElement, Bare, Content, Printable, ReadBack, EndTag;
    var s := Content(ls, newline, b, value, name);
    if ls == [] {
      assert s == Content([], false, b, value, name) by { NoChildren(newline, b, value, name); }
      EndCut(b, value, name, n, acc);
    } else {
      var q, more := Bare(ls[0], newline), Content(ls[1..], newline, EndLine(newline), value, name);
      ContentFirst(ls, newline, b, value, name);
      BareHead(ls[0], newline);
      if n <= |b| {
        assert s[..n] == b[..n];
        TextOnly(s[..n], name, "", acc);
      } else if n < |b| + |q| {
        assert s[..n] == b + q[..n - |b|];
        ElementCuts(ls[0], newline, n - |b|);
        ChildCut(b, q[..n - |b|], name, acc);
      } else {
        ChildPassed(ls[0], newline, b, more[..n - |b| - |q|], name, acc);
        assert s[..n] == b + (q + more[..n - |b| - |q|]);
        var first := ReadBack(ls[0]);
        if first.Some? {
          ContentCuts(ls[1..], newline, EndLine(newline), value, name, n - |b| - |q|, acc + [first.value]);
          EmptyCut(ls[1..], newline, EndLine(newline), value, acc + [first.value]);
        }
      }
    }
  }

  lemma NoChildren(newline: bool, b: string, value: string, name: string)
    ensures Content([], newline, b, value, name) == Content([], false, b, value, name)
  {}

  lemma EmptyCut(ls: seq<Listing>, newline: bool, b: string, value: string, acc: seq<Element>)
    ensures ContentCut(ls, newline, b, value, 0, acc) == None
  {}

  /** A whole child, and the content goes on behind it. */
  lemma ChildPassed(l: Listing, newline: bool, b: string, rest: string, name: string, acc: seq<Element>)
    requires Printable(l) && Break(b)
    ensures ParseContent(b + (Bare(l, newline) + rest), name, "", acc) ==
      if ReadBack(l).None? then None else ParseContent(rest, name, "", acc + [ReadBack(l).value])
  {
    hide ParseContent, ParseElement, Bare, Printable, ReadBack;
    var s := Bare(l, newline) + rest;
    BareHead(l, newline);
    ChildNext(b, s, name, acc);
    assert "" + s == s;
    BareReads(l, newline, "", rest);
  }

  /** Reading the first characters of a printed element; when that succeeds nothing is left. */
  lemma {:induction false} ElementCuts(l: Listing, newline: bool, n: nat)
    requires Printable(l) && n < |Bare(l, newline)|
    ensures var e := Truncated(l, newline, n);
      ParseElement(Bare(l, newline)[..n]) == if e.None? then None else Some((e.value, ""))
    decreases l
  {
    hide Value, ParseContent, Match, Identifier, ParseAttrs, ReadAttrs, PrintAttrs, EndTag, IsName, PrintAll, PrintableAttrs, ParseElement, Bare, ContentCut;
    var s, head := Bare(l, newline), "<" + l.name + PrintAttrs(l.attrs);
    var t := |head|;
    assert s + "" == s;
    if l.children == [] && l.value == "" {
      ClosedShape(l, newline, "");
      assert s == head + "/>";
      if n <= t { TagCut(l, n); assert s[..n] == head[..n]; } else {
        assert s[..n] == "<" + (l.name + (PrintAttrs(l.attrs) + "/"));
        TagOpens(l, "/");
        SlashCut(if ReadAttrs(l.attrs, map[]).Some? then ReadAttrs(l.attrs, map[]).value else map[]);
      }
    } else {
      var b := EndLine(newline && l.children != []);
      var inner := Content(l.children, newline, b, l.value, l.name);
      OpenShape(l, newline, "");
      assert s == head + (">" + inner);
      if n <= t { TagCut(l, n); assert s[..n] == head[..n]; } else {
        var cut := inner[..n - t - 1];
        assert s[..n] == "<" + (l.name + (PrintAttrs(l.attrs) + (">" + cut)));
        TagOpens(l, ">" + cut);
        if ReadAttrs(l.attrs, map[]).Some? { OpenEnd(ReadAttrs(l.attrs, map[]).value, cut); }
        ContentCuts(l.children, newline, b, l.value, l.name, n - t - 1, []);
        if n == t + 1 { EmptyCut(l.children, newline, b, l.value, []); }
      }
    }
  }

  lemma SlashCut(m: map<string, Attr>)
    ensures ParseAttrs("/", m) == Bad
  {
    FirstDiffers("/", ">");
    TokenMatches("/", "");
    assert "/" + "" == "/";
    NothingMatches("", ">");
  }

  /** An element from behind its start tag on. */
  lemma TagOpens(l: Listing, tail: string)
    requires Printable(l) && tail != "" && !NameChar(tail[0])
    ensures var attrs := ReadAttrs(l.attrs, map[]);
      ParseElement("<" + (l.name + (PrintAttrs(l.attrs) + tail))) ==
        if attrs.None? then None else
        match ParseAttrs(tail, attrs.value)
        case Bad => None
        case Closed(m, rest) => Some((Element(l.name, m, "", []), rest))
        case Open(m, rest) =>
          var c := ParseContent(rest, l.name, "", []);
          if c.None? then None else Some((Element(l.name, m, c.value.0, c.value.1), c.value.2))
  {
    hide Value, ParseContent, Match, Identifier, ParseAttrs, ReadAttrs, PrintAttrs, Printable;
    var s := "<" + (l.name + (PrintAttrs(l.attrs) + tail));
    assert "" + s == s;
    TagReads(l, "", tail);
  }

  // ---------------------------------------------------------------- which prefixes are accepted

  /** Where the child of that number starts in the printed element; the text, after the last child. */
  function ChildAt(l: Listing, newline: bool, i: nat): nat
    requires i <= |l.children|
  {
    2 + |l.name| + |PrintAttrs(l.attrs)| + |EndLine(newline && l.children != [])| + |PrintAll(l.children[..i], newline)|
  }

  lemma PrintFirst(ls: seq<Listing>, newline: bool, i: nat)
    requires 0 < i <= |ls|
    ensures |PrintAll(ls[..i], newline)| == |Bare(ls[0], newline)| + |EndLine(newline)| + |PrintAll(ls[1..][..i - 1], newline)|
    ensures ls[..i][0] == ls[0] && ls[..i][1..] == ls[1..][..i - 1]
  {
    hide Bare, Print;
    PrintIsBare(ls[0], newline);
    assert ls[..i][1..] == ls[1..][..i - 1];
  }

  /** The text ends with the first character of a child. */
  lemma {:induction false} CutAtChild(ls: seq<Listing>, newline: bool, b: string, value: string, i: nat, acc: seq<Element>)
    requires PrintableAll(ls) && i < |ls|
    ensures var c, r := ContentCut(ls, newline, b, value, |b| + |PrintAll(ls[..i], newline)| + 1, acc), ReadBackAll(ls[..i]);
      c == if r.None? then None else Some(("", acc + r.value))
    decreases ls
  {
    hide Bare, PrintAll, ReadBack, Printable, Value;
    if i == 0 {
      NonePrinted(newline);
      assert ls[..i] == [] && acc + [] == acc;
    } else {
      PrintFirst(ls, newline, i);
      BareHead(ls[0], newline);
      var first, more := ReadBack(ls[0]), ReadBackAll(ls[1..][..i - 1]);
      if first.Some? {
        CutAtChild(ls[1..], newline, EndLine(newline), value, i - 1, acc + [first.value]);
        if more.Some? { assert acc + [first.value] + more.value == acc + ([first.value] + more.value); }
      }
    }
  }

  lemma NonePrinted(newline: bool)
    ensures PrintAll([], newline) == ""
  {}

  /** The text ends inside the end tag. */
  lemma {:induction false} CutAtEnd(ls: seq<Listing>, newline: bool, b: string, value: string, n: nat, acc: seq<Element>)
    requires PrintableAll(ls) && n > |b| + |PrintAll(ls, newline)| + |value|
    ensures var c, r := ContentCut(ls, newline, b, value, n, acc), ReadBackAll(ls);
      c == if r.None? || Value(value, false).1 != "" then None else Some((Value(value, false).0, acc + r.value))
    decreases ls
  {
    hide Bare, PrintAll, ReadBack, Printable, Value;
    if ls == [] {
      NonePrinted(newline);
      assert acc + [] == acc;
    } else {
      assert ls[..|ls|] == ls && ls[1..][..|ls| - 1] == ls[1..];
      PrintFirst(ls, newline, |ls|);
      BareHead(ls[0], newline);
      var first, more := ReadBack(ls[0]), ReadBackAll(ls[1..]);
      if first.Some? {
        CutAtEnd(ls[1..], newline, EndLine(newline), value, n - |b| - |Bare(ls[0], newline)|, acc + [first.value]);
        if more.Some? { assert acc + [first.value] + more.value == acc + ([first.value] + more.value); }
      }
    }
  }

  /** The text ends anywhere else. */
  lemma {:induction false} CutElsewhere(ls: seq<Listing>, newline: bool, b: string, value: string, n: nat, acc: seq<Element>)
    requires n <= |b| + |PrintAll(ls, newline)| + |value|
    requires forall i | 0 <= i < |ls| :: n != |b| + |PrintAll(ls[..i], newline)| + 1
    ensures ContentCut(ls, newline, b, value, n, acc) == None
    decreases ls
  {
    hide Bare, PrintAll, ReadBack, Value;
    NonePrinted(newline);
    if ls != [] {
      assert ls[..|ls|] == ls && ls[1..][..|ls| - 1] == ls[1..] && ls[..0] == [];
      PrintFirst(ls, newline, |ls|);
      var p, first := |b| + |Bare(ls[0], newline)|, ReadBack(ls[0]);
      if n > p && first.Some? {
        forall i | 0 <= i < |ls[1..]| ensures n - p != |EndLine(newline)| + |PrintAll(ls[1..][..i], newline)| + 1 {
          PrintFirst(ls, newline, i + 1);
        }
        CutElsewhere(ls[1..], newline, EndLine(newline), value, n - p, acc + [first.value]);
      }
    }
  }

  /** The element without that child, all behind it, and the text. */
  function UpTo(l: Listing, i: nat): Listing
    requires i <= |l.children|
  {
    l.(children := l.children[..i], value := "")
  }

  lemma CutChild(l: Listing, newline: bool, i: nat)
    requires Printable(l) && i < |l.children|
    ensures Truncated(l, newline, ChildAt(l, newline, i) + 1) == ReadBack(UpTo(l, i))
  {
    hide PrintAll, ReadBackAll, ReadAttrs, Value, PrintAttrs, ContentCut;
    EmptyReads();
    CutAtChild(l.children, newline, EndLine(newline && l.children != []), l.value, i, []);
    var r := ReadBackAll(l.children[..i]);
    if r.Some? { assert [] + r.value == r.value; }
  }

  predicate InEndTag(l: Listing, newline: bool, n: nat) {
    (l.children != [] || l.value != "") && n > ChildAt(l, newline, |l.children|) + |l.value|
  }

  lemma CutEnd(l: Listing, newline: bool, n: nat)
    requires Printable(l) && InEndTag(l, newline, n)
    ensures Truncated(l, newline, n) == ReadBack(l)
  {
    hide PrintAll, ReadBackAll, ReadAttrs, Value, PrintAttrs, ContentCut;
    assert l.children[..|l.children|] == l.children;
    var t := 2 + |l.name| + |PrintAttrs(l.attrs)|;
    CutAtEnd(l.children, newline, EndLine(newline && l.children != []), l.value, n - t, []);
    var r := ReadBackAll(l.children);
    if r.Some? { assert [] + r.value == r.value; }
  }

  predicate BehindChild(l: Listing, newline: bool, n: nat) {
    exists i :: 0 <= i < |l.children| && n == ChildAt(l, newline, i) + 1
  }

  lemma CutOther(l: Listing, newline: bool, n: nat)
    requires !InEndTag(l, newline, n) && !BehindChild(l, newline, n)
    ensures Truncated(l, newline, n) == None
  {
    hide PrintAll, ReadAttrs, Value, PrintAttrs, ContentCut;
    var b, t := EndLine(newline && l.children != []), 2 + |l.name| + |PrintAttrs(l.attrs)|;
    if n > t && (l.children != [] || l.value != "") {
      assert l.children[..|l.children|] == l.children;
      forall i | 0 <= i < |l.children| ensures n - t != |b| + |PrintAll(l.children[..i], newline)| + 1 {
        assert n != ChildAt(l, newline, i) + 1;
      }
      CutElsewhere(l.children, newline, b, l.value, n - t, []);
    }
  }

  // ---------------------------------------------------------------- documents

  /** Where the element starts in the document. */
  function ElementAt(header: bool, newline: bool): nat {
    (if header then |HEADER| else 0) + |EndLine(newline)|
  }

  /** Nothing is left of the element but its less-than sign: it counts as the beginning of a comment. */
  lemma SignOnly(b: string, want: bool)
    requires Break(b)
    ensures SkipHeader(b + "<", want) == None && SkipComments(b + "<") == None
  {
    BlankMatch(b, "<", "<?xml version=\"");
    BlankMatch(b, "<", "<!--");
    PartialMatches("<", "<?xml version=\"");
    PartialMatches("<", "<!--");
  }

  lemma BlankOnly(b: string, want: bool)
    requires b == "" || b == "\r" || b == "\r\n"
    ensures SkipHeader(b, want) == (if want then None else Some(b))
    ensures SkipComments(b) == Some(b) && SkipDoctype(b) == Some(b) && ParseElement(b) == None
  {
    NothingMatches(b, "<?xml version=\"");
    NothingMatches(b, "<!--");
    NothingMatches(b, "<!DOCTYPE");
    NothingMatches(b, "<");
  }

  lemma ElementOnly(b: string, s: string)
    requires Break(b) && |s| >= 2 && s[0] == '<' && NameChar(s[1])
    ensures SkipHeader(b + s, false) == Some(b + s) && SkipHeader(b + s, true) == None
    ensures SkipComments(b + s) == Some(b + s) && SkipDoctype(b + s) == Some(b + s)
    ensures ParseElement(b + s) == ParseElement(s)
  {
    hide Match, ParseAttrs, ParseContent, Identifier;
    BlankMatch(b, s, "<?xml version=\"");
    BlankMatch(b, s, "<!--");
    BlankMatch(b, s, "<!DOCTYPE");
    BlankMatch(b, s, "<");
    SecondDiffers(s, "<?xml version=\"");
    SecondDiffers(s, "<!--");
    SecondDiffers(s, "<!DOCTYPE");
  }

  /** The header of a document is cut off. */
  lemma HeaderCut(n: nat, want: bool)
    requires n < |HEADER|
    ensures SkipHeader(HEADER[..n], want) == if want || n > 0 then None else Some("")
  {
    var s, token := HEADER[..n], "<?xml version=\"";
    if n == 0 {
      NothingMatches(s, token);
    } else if n <= |token| {
      assert s <= token;
      PartialMatches(s, token);
    } else {
      var r := "1.0\"?"[..n - |token|];
      assert s == token + r;
      TokenMatches(token, r);
      NoneFound(r);
    }
  }

  lemma {:induction false} NoneFound(r: string)
    requires '>' !in r
    ensures FindText(r, "?>") == |r|
  {
    if r != "" {
      assert "?>"[1] == '>' && (|r| > 1 ==> r[1] != '>');
      NoneFound(r[1..]);
    }
  }

  /** The element behind the prolog is cut off. */
  lemma BodyCut(l: Listing, newline: bool, n: nat, want: bool)
    requires Printable(l) && n < |EndLine(newline) + Bare(l, newline)|
    ensures var s, b := (EndLine(newline) + Bare(l, newline))[..n], |EndLine(newline)|;
      var e := if n < b then None else Truncated(l, newline, n - b);
      && FromString(s, want) == (if want then None else e)
      && (if SkipComments(s).None? || SkipDoctype(SkipComments(s).value).None? then e == None else
          var t := SkipComments(SkipDoctype(SkipComments(s).value).value);
          if t.None? then e == None else
          var r := ParseElement(t.value);
          e == if r.None? then None else Some(r.value.0))
  {
    hide Bare, Printable, SkipHeader, SkipComments, SkipDoctype, ParseElement;
    var b, q := EndLine(newline), Bare(l, newline);
    var s := (b + q)[..n];
    BareHead(l, newline);
    if n <= |b| {
      assert s == b[..n];
      BlankOnly(s, want);
      NoElement(l, newline);
    } else if n == |b| + 1 {
      assert s == b + "<";
      SignOnly(b, want);
      NoElement(l, newline);
    } else {
      var c := q[..n - |b|];
      assert s == b + c;
      ElementOnly(b, c);
      ElementCuts(l, newline, n - |b|);
    }
  }

  lemma NoElement(l: Listing, newline: bool)
    ensures Truncated(l, newline, 0) == Truncated(l, newline, 1) == None
  {}

  /** What the reader makes of every proper prefix of a document that ends before its last line break. */
  lemma DocumentCuts(l: Listing, header: bool, newline: bool, want: bool, n: nat)
    requires Printable(l) && n < |Document(l, header, newline)| - |EndLine(newline)|
    ensures FromString(Document(l, header, newline)[..n], want) ==
      if (want && !header) || n < ElementAt(header, newline) then None else Truncated(l, newline, n - ElementAt(header, newline))
  {
    hide Bare, Print, Printable, SkipHeader, SkipComments, SkipDoctype, ParseElement, Truncated, HEADER;
    var b, q, d := EndLine(newline), Bare(l, newline), Document(l, header, newline);
    PrintIsBare(l, newline);
    var h := if header then HEADER else "";
    assert d == h + (b + q) + b;
    if n < |h| {
      assert d[..n] == HEADER[..n];
      HeaderCut(n, want);
      BlankOnly("", want);
    } else {
      var s := (b + q)[..n - |h|];
      assert d[..n] == h + s;
      BodyCut(l, newline, n - |h|, false);
      BodyCut(l, newline, n - |h|, want);
      if header { HeaderSkipped(s, want); } else { assert h + s == s; }
    }
  }

  /** What is read of the first n characters of an element. */
  predicate CutRead(l: Listing, newline: bool, n: nat, e: Option<Element>) {
    && (InEndTag(l, newline, n) ==> e == ReadBack(l))
    && (forall i | 0 <= i < |l.children| && n == ChildAt(l, newline, i) + 1 :: e == ReadBack(UpTo(l, i)))
    && (!InEndTag(l, newline, n) && !BehindChild(l, newline, n) ==> e == None)
  }

  /**
   * Of the proper prefixes of a printed document the reader takes for an element exactly those that end with the
   * first character of a child, as the element without that child and all behind it, and those that end inside
   * the end tag, as the whole element.
   */
  lemma PrefixesExactly(l: Listing, header: bool, newline: bool, want: bool, n: nat)
    requires Printable(l) && n < |Document(l, header, newline)| - |EndLine(newline)|
    ensures var e, at := FromString(Document(l, header, newline)[..n], want), ElementAt(header, newline);
      if (want && !header) || n < at then e == None else CutRead(l, newline, n - at, e)
  {
    hide Document, Printable, ReadBack, ChildAt, Truncated, FromString, BehindChild, InEndTag, UpTo;
    DocumentCuts(l, header, newline, want, n);
    var at := ElementAt(header, newline);
    if n >= at { Cuts(l, newline, n - at); }
  }

  lemma Cuts(l: Listing, newline: bool, n: nat)
    requires Printable(l)
    ensures CutRead(l, newline, n, Truncated(l, newline, n))
  {
    hide Printable, ReadBack, ChildAt, Truncated, BehindChild, InEndTag, UpTo;
    if InEndTag(l, newline, n) { CutEnd(l, newline, n); }
    forall i | 0 <= i < |l.children| && n == ChildAt(l, newline, i) + 1 ensures Truncated(l, newline, n) == ReadBack(UpTo(l, i)) {
      CutChild(l, newline, i);
    }
    if !InEndTag(l, newline, n) && !BehindChild(l, newline, n) { CutOther(l, newline, n); }
  }
}
