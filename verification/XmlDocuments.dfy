/** Whole documents: printing an element in any attribute order and reading it back. */
module XmlDocuments {
  import opened Bytes
  import opened XmlText
  import opened XmlTree
  import opened XmlRoundTrip

  // ---------------------------------------------------------------- the document around the element

  lemma {:induction false} FindTextSkips(s: string, token: string, n: nat)
    requires n <= |s| && token <= s[n..] && s[n..] != "" && forall i | 0 <= i < n :: !(token <= s[i..])
    ensures FindText(s, token) == n
    decreases n
  {
    if n > 0 {
      assert s[0..] == s;
      forall i | 0 <= i < n - 1 ensures !(token <= s[1..][i..]) {
        assert s[1..][i..] == s[i + 1..];
      }
      assert s[1..][n - 1..] == s[n..];
      FindTextSkips(s[1..], token, n - 1);
    } else {
      assert s[0..] == s;
    }
  }

  lemma HeaderSkipped(rest: string, want: bool)
    ensures SkipHeader(HEADER + rest, want) == Some(rest)
  {
    var token, r := "<?xml version=\"", "1.0\"?>" + rest;
    assert HEADER + rest == token + r;
    TokenMatches(token, r);
    assert r[4] == '?' && r[5] == '>' && r[6..] == rest && r[4..] == "?>" + rest;
    forall i | 0 <= i < 4 ensures !("?>" <= r[i..]) {
      assert r[i..][0] == r[i];
    }
    FindTextSkips(r, "?>", 4);
    hide Match, FindText;
    assert r[4 + 2..] == rest;
  }

  lemma NothingSkipped(l: Listing, newline: bool, want: bool)
    requires Printable(l)
    ensures var s := EndLine(newline) + Print(l, newline);
      SkipHeader(s, false) == Some(s) && SkipHeader(s, true) == None && SkipComments(s) == Some(s) && SkipDoctype(s) == Some(s)
  {
    hide Match, Print, Printable;
    var b, p := EndLine(newline), Print(l, newline);
    PrintedHead(l, newline, "");
    assert p + "" == p;
    BlankMatch(b, p, "<?xml version=\"");
    BlankMatch(b, p, "<!--");
    BlankMatch(b, p, "<!DOCTYPE");
    SecondDiffers(p, "<?xml version=\"");
    SecondDiffers(p, "<!--");
    SecondDiffers(p, "<!DOCTYPE");
  }

  /** With or without header and line breaks, reading a printed element gives ReadBack, unless a header is missing. */
  lemma DocumentReads(l: Listing, header: bool, newline: bool, want: bool)
    requires Printable(l)
    ensures FromString(Document(l, header, newline), want) == if want && !header then None else ReadBack(l)
  {
    hide SkipHeader, SkipComments, SkipDoctype, ParseElement, Print, Printable, ReadBack, HEADER;
    var s := EndLine(newline) + Print(l, newline);
    NothingSkipped(l, newline, want);
    assert Document(l, header, newline) == (if header then HEADER else "") + s;
    if header { HeaderSkipped(s, want); } else { assert "" + s == s; }
    ElementReads(l, newline, EndLine(newline), "");
    assert Print(l, newline) + "" == Print(l, newline);
  }

  // ---------------------------------------------------------------- comments

  /** The text of a comment does not end it early. */
  predicate Closed(c: string) {
    forall i | 0 <= i < |c| :: !("-->" <= c[i..] + "-->")
  }

  lemma CommentEnds(c: string, rest: string)
    requires Closed(c)
    ensures Match("<!--" + (c + ("-->" + rest)), "<!--") == Some(c + ("-->" + rest))
    ensures FindText(c + ("-->" + rest), "-->") == |c| && (c + ("-->" + rest))[|c| + 3..] == rest
  {
    hide Match, FindText, Closed;
    var s := c + ("-->" + rest);
    TokenMatches("<!--", s);
    assert s[|c|..] == "-->" + rest;
    forall i | 0 <= i < |c| ensures !("-->" <= s[i..]) { NotYet(c, i, rest, s); }
    FindTextSkips(s, "-->", |c|);
    assert s[|c| + 3..] == s[|c|..][3..];
  }

  lemma NotYet(c: string, i: nat, rest: string, s: string)
    requires Closed(c) && i < |c| && s == c + ("-->" + rest)
    ensures !("-->" <= s[i..])
  {
    var x, y := s[i..], c[i..] + "-->";
    assert |x| >= 3 && |y| >= 3;
    assert x[0] == y[0] && x[1] == y[1] && x[2] == y[2];
    ThreeOf(x);
    ThreeOf(y);
  }

  lemma ThreeOf(x: string)
    requires |x| >= 3
    ensures "-->" <= x <==> x[0] == '-' && x[1] == '-' && x[2] == '>'
  {
    if x[0] == '-' && x[1] == '-' && x[2] == '>' { assert x[..3] == "-->"; }
  }

  /** A comment among the content of an element leaves no trace. */
  lemma CommentIgnored(c: string, rest: string, name: string, value: string, children: seq<Element>)
    requires Closed(c) && IsName(name)
    ensures ParseContent("<!--" + (c + ("-->" + rest)), name, value, children) == ParseContent(rest, name, value, children)
  {
    hide Value, Match, FindText, Closed;
    var s := "<!--" + (c + ("-->" + rest));
    CommentEnds(c, rest);
    assert s[0] == '<' && s[1] == '!';
    assert Find(s, '<') == 0 && s[..0] == "" && s[0..] == s;
    EmptyReads();
    SecondDiffers(s, "</" + name + ">");
  }

  /** So does one in front of it. */
  lemma LeadingComment(c: string, rest: string)
    requires Closed(c)
    ensures SkipComments("<!--" + (c + ("-->" + rest))) == SkipComments(rest)
  {
    hide Match, FindText, Closed;
    CommentEnds(c, rest);
  }

  // ---------------------------------------------------------------- attribute maps

  predicate Distinct(attrs: seq<Attr>) {
    forall i, j | 0 <= i < j < |attrs| :: Lower(attrs[i].name) != Lower(attrs[j].name)
  }

  /** A key that no listed attribute has is left alone. */
  lemma {:induction false} KeyedOther(attrs: seq<Attr>, acc: map<string, Attr>, k: string)
    requires forall i | 0 <= i < |attrs| :: Lower(attrs[i].name) != k
    ensures k in Keyed(attrs, acc) <==> k in acc
    ensures k in acc ==> Keyed(attrs, acc)[k] == acc[k]
    decreases |attrs|
  {
    hide Lower;
    if attrs != [] {
      assert forall i | 0 < i < |attrs| :: attrs[i] == attrs[1..][i - 1];
      KeyedOther(attrs[1..], acc[Lower(attrs[0].name) := attrs[0]], k);
    }
  }

  /** A listed attribute is found under its key. */
  lemma {:induction false} KeyedAt(attrs: seq<Attr>, acc: map<string, Attr>, i: nat)
    requires Distinct(attrs) && i < |attrs|
    ensures Lower(attrs[i].name) in Keyed(attrs, acc) && Keyed(attrs, acc)[Lower(attrs[i].name)] == attrs[i]
    decreases |attrs|
  {
    hide Lower;
    var more, acc' := attrs[1..], acc[Lower(attrs[0].name) := attrs[0]];
    assert forall j | 0 < j < |attrs| :: attrs[j] == more[j - 1];
    if i == 0 {
      KeyedOther(more, acc', Lower(attrs[0].name));
    } else {
      KeyedAt(more, acc', i - 1);
    }
  }

  /** Attributes as the reader sees their values. */
  function Seen(attrs: seq<Attr>): (r: seq<Attr>)
    ensures |r| == |attrs| && forall i | 0 <= i < |attrs| :: r[i] == Attr(attrs[i].name, Value(attrs[i].value, false).0)
  {
    seq(|attrs|, i requires 0 <= i < |attrs| => Attr(attrs[i].name, Value(attrs[i].value, false).0))
  }

  lemma {:induction false} ReadAttrsIs(attrs: seq<Attr>, acc: map<string, Attr>)
    ensures ReadAttrs(attrs, acc) ==
      if forall i | 0 <= i < |attrs| :: SkipBlank(Value(attrs[i].value, false).1) == "" then Some(Keyed(Seen(attrs), acc)) else None
    decreases |attrs|
  {
    hide Value, SkipBlank, Lower;
    if attrs != [] {
      assert Seen(attrs)[1..] == Seen(attrs[1..]);
      ReadAttrsIs(attrs[1..], acc[Lower(attrs[0].name) := Attr(attrs[0].name, Value(attrs[0].value, false).0)]);
      assert forall i | 0 < i < |attrs| :: attrs[i] == attrs[1..][i - 1];
    }
  }

  predicate TidyAttrs(attrs: seq<Attr>) { forall i | 0 <= i < |attrs| :: Tidy(attrs[i].value, false) }

  lemma TidyAttrsRead(attrs: seq<Attr>)
    requires Distinct(attrs)
    ensures ReadAttrs(attrs, map[]) == Some(Keyed(attrs, map[])) <==> TidyAttrs(attrs)
  {
    hide Value, Tidy, Keyed, Lower;
    ReadAttrsIs(attrs, map[]);
    forall i | 0 <= i < |attrs| ensures Tidy(attrs[i].value, false) <==> Value(attrs[i].value, false) == (attrs[i].value, "") {
      TidyKept(attrs[i].value, false);
    }
    if TidyAttrs(attrs) {
      assert Seen(attrs) == attrs;
    }
    if ReadAttrs(attrs, map[]) == Some(Keyed(attrs, map[])) {
      forall i | 0 <= i < |attrs| ensures Tidy(attrs[i].value, false) {
        KeyedAt(attrs, map[], i);
        KeyedAt(Seen(attrs), map[], i);
      }
    }
  }
}
