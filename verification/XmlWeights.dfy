/**
 * Weights: the less-than signs, ampersands and quotes of a text, and what the print of an element has of them. The
 * reader never makes more of them than it takes.
 */
module XmlWeights {
  import opened XmlText
  import opened XmlTree
  import opened XmlEquality
  import opened XmlRoundTrip

  predicate Mark(c: char) { c == '<' || c == '&' || c == '\"' || c == '\'' }

  function Weight(s: string): (w: nat)
    ensures w <= |s|
  {
    if s == "" then 0 else (if Mark(s[0]) then 1 else 0) + Weight(s[1..])
  }

  lemma {:induction false} WeightAppend(a: string, b: string)
    ensures Weight(a + b) == Weight(a) + Weight(b)
  {
    if a == "" {
      assert a + b == b;
    } else {
      assert (a + b)[1..] == a[1..] + b;
      WeightAppend(a[1..], b);
    }
  }

  lemma WeightSplit(s: string, n: nat)
    requires n <= |s|
    ensures Weight(s) == Weight(s[..n]) + Weight(s[n..])
  {
    assert s == s[..n] + s[n..];
    WeightAppend(s[..n], s[n..]);
  }

  // ---------------------------------------------------------------- tokens and values

  lemma {:induction false} SpaceWeight(s: string)
    ensures Weight(SkipSpace(s)) == Weight(s)
  {
    if s != "" && Space(s[0]) { SpaceWeight(s[1..]); }
  }

  lemma {:induction false} BlankWeight(s: string)
    ensures Weight(SkipBlank(s)) == Weight(s)
  {
    if s != "" && Blank(s[0]) { BlankWeight(s[1..]); }
  }

  /** What is read of a value and what is left of its text weigh no more than the text. */
  lemma {:induction false} ValueWeight(s: string, started: bool)
    ensures Weight(Value(s, started).0) + Weight(Value(s, started).1) <= Weight(s)
    decreases |s|
  {
    hide Reference;
    if s == "" {
    } else if Space(s[0]) {
      var t := SkipSpace(s);
      SpaceWeight(s);
      ValueWeight(t, started);
      if started { WeightAppend(" ", Value(t, true).0); }
    } else if s[0] != '&' {
      ValueWeight(s[1..], true);
      WeightAppend([s[0]], Value(s[1..], true).0);
      assert [s[0]][1..] == "";
    } else if |s| > 1 {
      var (a, n, more) := Reference(s[1..]);
      WeightSplit(s[1..], n);
      assert s[1..][n..] == s[1 + n..];
      if more {
        ValueWeight(s[1 + n..], true);
        WeightAppend(a, Value(s[1 + n..], true).0);
      }
    }
  }

  lemma {:induction false} HereWeight(s: string, token: string)
    ensures var m := MatchHere(s, token); m.Some? ==>
      Weight(m.value) + (if s != "" && token != "" && Mark(token[0]) then 1 else 0) <= Weight(s)
  {
    if s != "" && token != "" { HereWeight(s[1..], token[1..]); }
  }

  lemma MatchWeight(s: string, token: string)
    ensures var m := Match(s, token); m.Some? ==> Weight(m.value) + (if token != "" && Mark(token[0]) then 1 else 0) <= Weight(s)
  {
    BlankWeight(s);
    HereWeight(SkipBlank(s), token);
  }

  lemma {:induction false} NameRead(s: string)
    ensures forall i | 0 <= i < NameEnd(s) :: NameChar(s[i])
  {
    if s != "" && NameChar(s[0]) {
      NameRead(s[1..]);
      assert forall i | 0 < i < NameEnd(s) :: s[i] == s[1..][i - 1];
    }
  }

  lemma IdentifierWeight(s: string)
    ensures var id := Identifier(s); id.Some? ==> IsName(id.value.0) && Weight(id.value.1) <= Weight(s)
  {
    var t := SkipBlank(s);
    BlankWeight(s);
    NameRead(t);
    WeightSplit(t, NameEnd(t));
  }

  lemma QuotedWeight(s: string, quote: char)
    requires Mark(quote)
    ensures var q := Quoted(s, quote); q.Some? ==>
      Weight(q.value.0) + 1 + Weight(q.value.1) <= Weight(s) && |q.value.0| <= Find(s, quote) < |s|
  {
    hide Value, Match;
    var e := Find(s, quote);
    if e < |s| {
      var (v, u) := Value(s[..e], false);
      WeightSplit(s, e);
      ValueWeight(s[..e], false);
      WeightAppend(u, s[e..]);
      MatchWeight(u + s[e..], [quote]);
    }
  }

  function AttrWeight(a: Attr): nat { 2 + Weight(a.value) }

  lemma AttrReadWeight(s: string)
    ensures var a := ParseAttr(s); a.Some? ==> IsName(a.value.0.name) && AttrWeight(a.value.0) + Weight(a.value.1) <= Weight(s)
  {
    hide Match, Identifier, Quoted, IsName;
    IdentifierWeight(s);
    var id := Identifier(s);
    if id.Some? {
      MatchWeight(id.value.1, "=");
      var eq := Match(id.value.1, "=");
      if eq.Some? {
        MatchWeight(eq.value, "\"");
        MatchWeight(eq.value, "'");
        if Match(eq.value, "\"").Some? { QuotedWeight(Match(eq.value, "\"").value, '\"'); }
        if Match(eq.value, "'").Some? { QuotedWeight(Match(eq.value, "'").value, '\''); }
      }
    }
  }

  // ---------------------------------------------------------------- attribute maps

  ghost function MapWeight(m: map<string, Attr>): nat {
    if m == map[] then 0 else var k :| k in m; AttrWeight(m[k]) + MapWeight(m - {k})
  }

  function AllWeight(attrs: seq<Attr>): nat {
    if attrs == [] then 0 else AttrWeight(attrs[0]) + AllWeight(attrs[1..])
  }

  lemma {:induction false} MapWithout(m: map<string, Attr>, k: string)
    requires k in m
    ensures MapWeight(m) == AttrWeight(m[k]) + MapWeight(m - {k})
    decreases |m|
  {
    hide AttrWeight;
    var j :| j in m && MapWeight(m) == AttrWeight(m[j]) + MapWeight(m - {j});
    if j != k {
      MapWithout(m - {j}, k);
      MapWithout(m - {k}, j);
      assert m - {j} - {k} == m - {k} - {j};
    }
  }

  lemma MapWith(m: map<string, Attr>, k: string, a: Attr)
    ensures MapWeight(m[k := a]) == AttrWeight(a) + MapWeight(m - {k})
    ensures k in m ==> MapWeight(m) == AttrWeight(m[k]) + MapWeight(m - {k})
    ensures k !in m ==> m - {k} == m
  {
    hide MapWeight, AttrWeight;
    MapWithout(m[k := a], k);
    assert m[k := a] - {k} == m - {k};
    if k in m { MapWithout(m, k); }
  }

  lemma {:induction false} OrderedWeight(keys: seq<string>, attrs: seq<Attr>, m: map<string, Attr>)
    requires Orders(keys, attrs, m)
    ensures MapWeight(m) == AllWeight(attrs)
    decreases |keys|
  {
    hide AttrWeight;
    if keys == [] {
      assert m == map[];
    } else {
      MapWithout(m, keys[0]);
      OrdersRest(keys, attrs, m);
      OrderedWeight(keys[1..], attrs[1..], m - {keys[0]});
    }
  }

  lemma OrdersRest(keys: seq<string>, attrs: seq<Attr>, m: map<string, Attr>)
    requires Orders(keys, attrs, m) && keys != []
    ensures Orders(keys[1..], attrs[1..], m - {keys[0]})
  {
    var rest := keys[1..];
    forall k | k in m - {keys[0]} ensures k in rest {
      var i :| 0 <= i < |keys| && keys[i] == k;
      assert rest[i - 1] == k;
    }
  }

  // ---------------------------------------------------------------- reading

  predicate NamedAttrs(m: map<string, Attr>) { forall k | k in m :: IsName(m[k].name) }

  /** Names are identifiers. */
  predicate WellNamed(e: Element)
    decreases e
  {
    IsName(e.name) && NamedAttrs(e.attrs) && forall i | 0 <= i < |e.children| :: WellNamed(e.children[i])
  }

  predicate NamedAll(es: seq<Element>) { forall i | 0 <= i < |es| :: WellNamed(es[i]) }

  ghost function ElementWeight(e: Element): nat
    decreases e, 0
  {
    1 + MapWeight(e.attrs)
    + if e.children == [] && e.value == "" then 0 else ChildrenWeight(e.children) + Weight(e.value) + 1
  }

  ghost function ChildrenWeight(es: seq<Element>): nat
    decreases es, 1
  {
    if es == [] then 0 else ElementWeight(es[0]) + ChildrenWeight(es[1..])
  }

  lemma {:induction false} ChildrenAppend(es: seq<Element>, e: Element)
    ensures ChildrenWeight(es + [e]) == ChildrenWeight(es) + ElementWeight(e)
    decreases |es|
  {
    hide ElementWeight;
    if es == [] {
      assert [e][1..] == [] && es + [e] == [e];
    } else {
      assert (es + [e])[1..] == es[1..] + [e];
      ChildrenAppend(es[1..], e);
    }
  }

  lemma {:induction false} TagWeight(s: string, acc: map<string, Attr>)
    requires NamedAttrs(acc)
    ensures var tag := ParseAttrs(s, acc);
      !tag.Bad? ==> NamedAttrs(tag.attrs) && MapWeight(tag.attrs) + Weight(tag.rest) <= MapWeight(acc) + Weight(s)
    decreases |s|
  {
    hide Match, ParseAttr, MapWeight, AttrWeight, Lower, IsName;
    MatchWeight(s, ">");
    MatchWeight(s, "/");
    if Match(s, ">").Some? {
    } else if Match(s, "/").Some? {
      MatchWeight(Match(s, "/").value, ">");
    } else if s != "" {
      AttrReadWeight(s);
      var a := ParseAttr(s);
      if a.Some? {
        MapWith(acc, Lower(a.value.0.name), a.value.0);
        TagWeight(a.value.1, acc[Lower(a.value.0.name) := a.value.0]);
      }
    }
  }

  /** An attribute that is replaced later weighs nothing in the end. */
  lemma {:induction false} ReplacedWeight(s: string, acc: map<string, Attr>, k: string)
    requires NamedAttrs(acc) && k in acc
    ensures var tag := ParseAttrs(s, acc);
      !tag.Bad? && !(k in tag.attrs && tag.attrs[k] == acc[k]) ==>
        MapWeight(tag.attrs) + Weight(tag.rest) <= MapWeight(acc - {k}) + Weight(s)
    decreases |s|
  {
    hide Match, ParseAttr, MapWeight, AttrWeight, Lower, IsName;
    MatchWeight(s, ">");
    MatchWeight(s, "/");
    if Match(s, ">").Some? {
    } else if Match(s, "/").Some? {
      MatchWeight(Match(s, "/").value, ">");
    } else if s != "" {
      AttrReadWeight(s);
      var a := ParseAttr(s);
      if a.Some? {
        var j := Lower(a.value.0.name);
        var acc' := acc[j := a.value.0];
        if j == k {
          MapWith(acc, k, a.value.0);
          TagWeight(a.value.1, acc');
        } else {
          MapWith(acc - {k}, j, a.value.0);
          assert acc' - {k} == (acc - {k})[j := a.value.0];
          MapWith(acc - {k}, j, a.value.0);
          ReplacedWeight(a.value.1, acc', k);
        }
      }
    }
  }

  lemma {:induction false} ElementReadWeight(s: string)
    ensures var e := ParseElement(s); e.Some? ==> WellNamed(e.value.0) && ElementWeight(e.value.0) + Weight(e.value.1) <= Weight(s)
    decreases |s|, 0
  {
    hide Match, Identifier, ParseAttrs, ParseContent, MapWeight, IsName, NamedAttrs;
    var open := Match(s, "<");
    if open.Some? {
      MatchWeight(s, "<");
      IdentifierWeight(open.value);
      var id := Identifier(open.value);
      if id.Some? {
        NothingNamed();
        TagWeight(id.value.1, map[]);
        var tag := ParseAttrs(id.value.1, map[]);
        if tag.Open? { ContentReadWeight(tag.rest, id.value.0, "", []); }
      }
    }
  }

  lemma NothingNamed()
    ensures NamedAttrs(map[]) && MapWeight(map[]) == 0
  {}

  lemma TextWeight(s: string, value: string)
    ensures var t := ParseText(s, value); t.Some? ==>
      Weight(t.value.0) + Weight(t.value.1) <= Weight(value) + Weight(s) && t.value.1 != "" && t.value.1[0] == '<'
  {
    hide Value;
    var e := Find(s, '<');
    if e < |s| {
      var v := Value(s[..e], false).0;
      WeightSplit(s, e);
      ValueWeight(s[..e], false);
      WeightAppend(value, " ");
      WeightAppend(Spaced(value), v);
    }
  }

  lemma {:induction false} ContentReadWeight(s: string, name: string, value: string, children: seq<Element>)
    requires NamedAll(children)
    ensures var c := ParseContent(s, name, value, children); c.Some? ==>
      && NamedAll(c.value.1) && children <= c.value.1
      && Weight(c.value.0) + ChildrenWeight(c.value.1) + 1 + Weight(c.value.2) <= Weight(s) + Weight(value) + ChildrenWeight(children)
    decreases |s|, 1
  {
    hide Match, ParseText, ParseElement, WellNamed, ElementWeight, ChildrenWeight;
    var text := ParseText(s, value);
    TextWeight(s, value);
    if text.Some? {
      var (value', t) := text.value;
      var close, comment := Match(t, "</" + name + ">"), Match(t, "<!--");
      MatchWeight(t, "</" + name + ">");
      MatchWeight(t, "<!--");
      if close.Some? {
      } else if comment.Some? {
        var p := FindText(comment.value, "-->");
        if p < |comment.value| {
          WeightSplit(comment.value, p + 3);
          ContentReadWeight(comment.value[p + 3..], name, value', children);
        }
      } else if ParseElement(t).Some? {
        ElementReadWeight(t);
        var c := ParseElement(t).value;
        ChildrenAppend(children, c.0);
        ContentReadWeight(c.1, name, value', children + [c.0]);
      }
    }
  }

  // ---------------------------------------------------------------- printing

  lemma {:induction false} NameWeight(s: string)
    requires forall i | 0 <= i < |s| :: NameChar(s[i])
    ensures Weight(s) == 0
  {
    if s != "" { NameWeight(s[1..]); }
  }

  lemma {:induction false} AttrsWeight(attrs: seq<Attr>)
    requires forall i | 0 <= i < |attrs| :: IsName(attrs[i].name)
    ensures Weight(PrintAttrs(attrs)) == AllWeight(attrs)
    decreases |attrs|
  {
    hide IsName;
    if attrs != [] {
      var a, more := attrs[0], PrintAttrs(attrs[1..]);
      AttrsWeight(attrs[1..]);
      NameIs(a.name);
      AttrShape(a.name, a.value, more, "");
      OneAttr(a.name, a.value, more);
    }
  }

  lemma NameIs(s: string)
    requires IsName(s)
    ensures Weight(s) == 0
  {
    NameWeight(s);
  }

  lemma OneAttr(name: string, value: string, more: string)
    ensures Weight(" " + name + "=\"" + value + "\"" + more) == Weight(name) + 2 + Weight(value) + Weight(more)
  {
    WeightAppend(" " + name + "=\"" + value + "\"", more);
    WeightAppend(" " + name + "=\"" + value, "\"");
    WeightAppend(" " + name + "=\"", value);
    WeightAppend(" " + name, "=\"");
    WeightAppend(" ", name);
    Signs();
  }

  lemma Signs()
    ensures Weight(" ") == 0 && Weight("=\"") == 1 && Weight("\"") == 1 && Weight("<") == 1 && Weight(">") == 0
    ensures Weight("/>") == 0 && Weight("</") == 1 && Weight("\r\n") == 0 && Weight("") == 0
  {
    assert "=\""[1..] == "\"" && "\""[1..] == "" && "</"[1..] == "/" && "/"[1..] == "" && "/>"[1..] == ">" && ">"[1..] == "";
    assert "\r\n"[1..] == "\n" && "\n"[1..] == "" && " "[1..] == "" && "<"[1..] == "";
  }

  lemma EndWeight(name: string, rest: string)
    requires IsName(name)
    ensures Weight(EndTag(name, rest)) == 1 + Weight(rest)
  {
    NameIs(name);
    Signs();
    WeightAppend("</" + name + ">", rest);
    WeightAppend("</" + name, ">");
    WeightAppend("</", name);
  }

  lemma LineWeight(newline: bool)
    ensures Weight(EndLine(newline)) == 0
  {
    Signs();
  }

  /** The print of an element, in any attribute order and layout, has the weight of the element. */
  lemma {:induction false} PrintWeight(l: Listing, e: Element, newline: bool)
    requires Lists(l, e) && WellNamed(e)
    ensures Weight(Print(l, newline)) == ElementWeight(e)
    decreases l, 1
  {
    hide PrintAll, PrintAttrs, MapWeight, IsName, Orders, Weight;
    var keys :| Orders(keys, l.attrs, e.attrs);
    OrderedWeight(keys, l.attrs, e.attrs);
    OrderedNames(keys, l.attrs, e.attrs);
    AttrsWeight(l.attrs);
    Signs();
    LineWeight(newline);
    LineWeight(newline && l.children != []);
    NameIs(l.name);
    WeightAppend("<" + l.name + PrintAttrs(l.attrs), PrintBody(l, newline));
    WeightAppend("<" + l.name, PrintAttrs(l.attrs));
    WeightAppend("<", l.name);
    if l.children == [] && l.value == "" {
      WeightAppend("/>", EndLine(newline));
    } else {
      PrintAllWeight(l.children, e.children, newline);
      BodyWeight(l, newline);
    }
  }

  lemma OrderedNames(keys: seq<string>, attrs: seq<Attr>, m: map<string, Attr>)
    requires Orders(keys, attrs, m) && NamedAttrs(m)
    ensures forall i | 0 <= i < |attrs| :: IsName(attrs[i].name)
  {}

  lemma BodyWeight(l: Listing, newline: bool)
    requires (l.children != [] || l.value != "") && IsName(l.name)
    ensures Weight(PrintBody(l, newline)) == Weight(PrintAll(l.children, newline)) + Weight(l.value) + 1
  {
    hide PrintAll, IsName, Weight;
    Signs();
    LineWeight(newline);
    LineWeight(newline && l.children != []);
    NameIs(l.name);
    var a, c := ">" + EndLine(newline && l.children != []), PrintAll(l.children, newline);
    WeightAppend(a + c + l.value + "</" + l.name + ">", EndLine(newline));
    WeightAppend(a + c + l.value + "</" + l.name, ">");
    WeightAppend(a + c + l.value + "</", l.name);
    WeightAppend(a + c + l.value, "</");
    WeightAppend(a + c, l.value);
    WeightAppend(a, c);
    WeightAppend(">", EndLine(newline && l.children != []));
  }

  lemma {:induction false} PrintAllWeight(ls: seq<Listing>, es: seq<Element>, newline: bool)
    requires |ls| == |es| && (forall i | 0 <= i < |ls| :: Lists(ls[i], es[i])) && NamedAll(es)
    ensures Weight(PrintAll(ls, newline)) == ChildrenWeight(es)
    decreases ls, 0
  {
    hide Print, Lists, WellNamed, ElementWeight;
    if ls != [] {
      PrintWeight(ls[0], es[0], newline);
      PrintAllWeight(ls[1..], es[1..], newline);
      WeightAppend(Print(ls[0], newline), PrintAll(ls[1..], newline));
    }
  }
}
