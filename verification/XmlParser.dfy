/** What the reading of an element calls, with one cursor shared by all of it. */
module XmlParser {
  import opened Bytes
  import opened XmlText
  import opened XmlTree
  import opened XmlReader

  /** Position of a character from the cursor on, or the end of the text. */
  method IndexOf(cursor: Cursor, c: char) returns (p: nat)
    requires cursor.Valid()
    ensures cursor.at <= p <= |cursor.text| && p == cursor.at + Find(cursor.Rest(), c)
  {
    p := cursor.at;
    while p < |cursor.text| && cursor.text[p] != c
      invariant cursor.at <= p <= |cursor.text| && Find(cursor.Rest(), c) == p - cursor.at + Find(cursor.text[p..], c)
    {
      AdvanceRest(cursor.text, p);
      p := p + 1;
    }
    if p < |cursor.text| { AdvanceRest(cursor.text, p); }
  }

  /** Move behind the next occurrence of a token; false, and no move, when there is none. */
  method SkipPast(cursor: Cursor, token: string) returns (found: bool)
    requires cursor.Valid() && token != ""
    modifies cursor`at
    ensures cursor.Valid() && found == (FindText(old(cursor.Rest()), token) < |old(cursor.Rest())|)
    ensures cursor.Rest() == if found then old(cursor.Rest())[FindText(old(cursor.Rest()), token) + |token|..] else old(cursor.Rest())
  {
    hide FindText;
    ghost var s := cursor.Rest();
    var p := cursor.at;
    while p < |cursor.text| && !(token <= cursor.text[p..])
      invariant cursor.at <= p <= |cursor.text| && cursor.at == old(cursor.at)
      invariant FindText(s, token) == p - cursor.at + FindText(cursor.text[p..], token)
    {
      FindTextOn(cursor.text, p, token);
      p := p + 1;
    }
    FoundText(cursor.text, p, token);
    found := p < |cursor.text|;
    if found {
      Dropped(cursor.text, cursor.at, p - cursor.at + |token|);
      cursor.at := p + |token|;
    }
  }

  /** Where the token does not stand it is sought from the next character on. */
  lemma FindTextOn(text: string, p: nat, token: string)
    requires p < |text| && !(token <= text[p..])
    ensures FindText(text[p..], token) == 1 + FindText(text[p + 1..], token)
  {
    AdvanceRest(text, p);
  }

  lemma FoundText(text: string, p: nat, token: string)
    requires p <= |text| && (p < |text| ==> token <= text[p..])
    ensures FindText(text[p..], token) == 0
  {}

  lemma Dropped(s: string, a: nat, n: nat)
    requires a + n <= |s|
    ensures s[a..][n..] == s[a + n..]
  {}

  /** A value up to the next quote, and the quote. */
  method ParseQuoted(cursor: Cursor, quote: char) returns (value: Option<string>)
    requires cursor.Valid()
    modifies cursor`at
    ensures cursor.Valid() && value.Some? == Quoted(old(cursor.Rest()), quote).Some?
    ensures value.Some? ==> Quoted(old(cursor.Rest()), quote).value == (value.value, cursor.Rest())
  {
    hide Value, Match, Find;
    ghost var s := cursor.Rest();
    var p := IndexOf(cursor, quote);
    if p == |cursor.text| { return None; }
    ghost var e := p - cursor.at;
    Sliced(cursor.text, cursor.at, e);
    var v := cursor.StringToValue(p - cursor.at);
    ghost var u := Value(s[..e], false).1;
    SuffixLeft(s[..e], false);
    RestAfter(cursor.text, p - e, e, |u|);
    var ok := cursor.ParseMatch([quote]);
    value := if ok then Some(v) else None;
  }

  lemma Sliced(s: string, at: nat, n: nat)
    requires at + n <= |s|
    ensures s[at..at + n] == s[at..][..n]
  {}

  /** What a value leaves unread is the end of its text. */
  lemma {:induction false} SuffixLeft(s: string, started: bool)
    ensures Value(s, started).1 == s[|s| - |Value(s, started).1|..]
    decreases |s|
  {
    hide Value, Reference;
    ValueLeft(s, started);
    if s == "" {
    } else if Space(s[0]) {
      SkipLeft(s);
      SuffixLeft(SkipSpace(s), started);
      Chained(s, SkipSpace(s), Value(SkipSpace(s), started).1);
    } else if s[0] != '&' {
      SuffixLeft(s[1..], true);
      Chained(s, s[1..], Value(s[1..], true).1);
    } else if |s| > 1 {
      var t := s[1 + Reference(s[1..]).1..];
      SuffixLeft(t, true);
      Chained(s, t, Value(t, true).1);
    }
  }

  /** What is left unread, one step on. */
  lemma ValueLeft(s: string, started: bool)
    ensures Value(s, started).1 ==
      if s == "" then ""
      else if Space(s[0]) then Value(SkipSpace(s), started).1
      else if s[0] != '&' then Value(s[1..], true).1
      else if |s| == 1 then ""
      else var (_, n, more) := Reference(s[1..]); if more then Value(s[1 + n..], true).1 else s[1 + n..]
  {
    hide Reference;
  }

  lemma Chained(s: string, t: string, u: string)
    requires |u| <= |t| <= |s| && t == s[|s| - |t|..] && u == t[|t| - |u|..]
    ensures u == s[|s| - |u|..]
  {}

  lemma {:induction false} SkipLeft(s: string)
    ensures SkipSpace(s) == s[|s| - |SkipSpace(s)|..]
  {
    if s != "" && Space(s[0]) { SkipLeft(s[1..]); }
  }

  lemma RestAfter(text: string, at: nat, e: nat, left: nat)
    requires at + e <= |text| && left <= e
    ensures text[at + e - left..] == text[at..][..e][e - left..] + text[at..][e..]
  {}

  /** CXMLAttribute::ParseString. */
  method ParseAttribute(cursor: Cursor) returns (a: Option<Attr>)
    requires cursor.Valid()
    modifies cursor`at
    ensures cursor.Valid() && a.Some? == ParseAttr(old(cursor.Rest())).Some?
    ensures a.Some? ==> ParseAttr(old(cursor.Rest())).value == (a.value, cursor.Rest())
  {
    hide Match, Identifier, Quoted;
    var name := cursor.ParseIdentifier();
    if name.None? { return None; }
    var equal := cursor.ParseMatch("=");
    if !equal { return None; }
    var v: Option<string> := None;
    var double := cursor.ParseMatch("\"");
    if double {
      v := ParseQuoted(cursor, '\"');
    } else {
      var single := cursor.ParseMatch("'");
      if single { v := ParseQuoted(cursor, '\''); }
    }
    a := if v.None? then None else Some(Attr(name.value, v.value));
  }

  /** Attributes up to the end of the start tag: None when malformed, else them and whether content follows. */
  method ParseAttributes(cursor: Cursor) returns (r: Option<(map<string, Attr>, bool)>)
    requires cursor.Valid()
    modifies cursor`at
    ensures cursor.Valid()
    ensures ParseAttrs(old(cursor.Rest()), map[]) ==
      if r.None? then Bad else if r.value.1 then Open(r.value.0, cursor.Rest()) else Closed(r.value.0, cursor.Rest())
  {
    hide Match, ParseAttr, Lower;
    var attrs: map<string, Attr> := map[];
    ghost var tag := ParseAttrs(cursor.Rest(), map[]);
    var open := cursor.ParseMatch(">");
    while !open
      invariant cursor.Valid()
      invariant tag == if open then Open(attrs, cursor.Rest()) else ParseAttrs(cursor.Rest(), attrs)
      invariant !open ==> Match(cursor.Rest(), ">").None?
      decreases |cursor.Rest()|, !open
    {
      var slash := cursor.ParseMatch("/");
      if slash {
        var close := cursor.ParseMatch(">");
        return if close then Some((attrs, false)) else None;
      }
      if cursor.at == |cursor.text| { return None; }
      var a := ParseAttribute(cursor);
      if a.None? { return None; }
      attrs := attrs[Lower(a.value.name) := a.value];
      open := cursor.ParseMatch(">");
    }
    r := Some((attrs, true));
  }

  /** Text up to the next markup. */
  method ReadText(cursor: Cursor, value: string) returns (r: Option<string>)
    requires cursor.Valid()
    modifies cursor`at
    ensures cursor.Valid() && r.Some? == ParseText(old(cursor.Rest()), value).Some?
    ensures r.Some? ==> ParseText(old(cursor.Rest()), value).value == (r.value, cursor.Rest())
  {
    hide Value, Find, Spaced;
    ghost var s := cursor.Rest();
    var p := IndexOf(cursor, '<');
    if p == |cursor.text| { return None; }
    ghost var e := p - cursor.at;
    Dropped(cursor.text, cursor.at, e);
    Sliced(cursor.text, cursor.at, e);
    if p == cursor.at {
      NoValue(s[..0]);
      return Some(value);
    }
    var v := cursor.StringToValue(p - cursor.at);
    if cursor.at != p { return None; }
    r := Some(Spaced(value) + v);
  }

  lemma NoValue(s: string)
    requires s == ""
    ensures Value(s, false) == ("", "")
  {}

  /** Comments in front of the element. */
  method PassComments(cursor: Cursor) returns (ok: bool)
    requires cursor.Valid()
    modifies cursor`at
    ensures cursor.Valid() && ok == SkipComments(old(cursor.Rest())).Some?
    ensures ok ==> SkipComments(old(cursor.Rest())).value == cursor.Rest()
  {
    hide Match, FindText;
    ghost var goal := SkipComments(cursor.Rest());
    var comment := cursor.ParseMatch("<!--");
    while comment
      invariant cursor.Valid()
      invariant goal == if comment then AfterComment(cursor.Rest()) else Some(cursor.Rest())
      decreases |cursor.Rest()|, comment
    {
      var found := SkipPast(cursor, "-->");
      if !found { return false; }
      comment := cursor.ParseMatch("<!--");
    }
    ok := true;
  }

  function AfterComment(s: string): Option<string> {
    var p := FindText(s, "-->");
    if p == |s| then None else SkipComments(s[p + 3..])
  }

  method PassHeader(cursor: Cursor, header: bool) returns (ok: bool)
    requires cursor.Valid()
    modifies cursor`at
    ensures cursor.Valid() && ok == SkipHeader(old(cursor.Rest()), header).Some?
    ensures ok ==> SkipHeader(old(cursor.Rest()), header).value == cursor.Rest()
  {
    hide Match, FindText;
    var declared := cursor.ParseMatch("<?xml version=\"");
    if !declared { return !header; }
    ok := SkipPast(cursor, "?>");
  }

  method PassDoctype(cursor: Cursor) returns (ok: bool)
    requires cursor.Valid()
    modifies cursor`at
    ensures cursor.Valid() && ok == SkipDoctype(old(cursor.Rest())).Some?
    ensures ok ==> SkipDoctype(old(cursor.Rest())).value == cursor.Rest()
  {
    hide Match, Find;
    var doctype := cursor.ParseMatch("<!DOCTYPE");
    if !doctype { return true; }
    var p := IndexOf(cursor, '>');
    if p == |cursor.text| { return false; }
    Dropped(cursor.text, cursor.at, p - cursor.at + 1);
    cursor.at := p + 1;
    ok := true;
  }

  method PassProlog(cursor: Cursor, header: bool) returns (ok: bool)
    requires cursor.Valid()
    modifies cursor`at
    ensures cursor.Valid() && ok == Prolog(old(cursor.Rest()), header).Some?
    ensures ok ==> Prolog(old(cursor.Rest()), header).value == cursor.Rest()
  {
    hide SkipHeader, SkipDoctype, SkipComments;
    ok := PassHeader(cursor, header);
    if !ok { return; }
    ok := PassComments(cursor);
    if !ok { return; }
    ok := PassDoctype(cursor);
    if !ok { return; }
    ok := PassComments(cursor);
  }
}
