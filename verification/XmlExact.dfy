/**
 * Only what can be printed comes back: an element that is read as itself from its print, in any attribute order and
 * layout, has no less-than sign in a text and no double quote in an attribute value.
 */
module XmlExact {
  import opened Bytes
  import opened XmlText
  import opened XmlTree
  import opened XmlRoundTrip
  import opened XmlDocuments
  import opened XmlEquality
  import opened XmlPrefixes
  import opened XmlWeights

  // ---------------------------------------------------------------- attributes

  /** An attribute up to its value, whatever that holds. */
  lemma AttrOpens(name: string, value: string, rest: string)
    requires IsName(name)
    ensures var q := Quoted(value + ("\"" + rest), '\"');
      ParseAttr(" " + (name + ("=" + ("\"" + (value + ("\"" + rest)))))) ==
      if q.None? then None else Some((Attr(name, q.value.0), q.value.1))
  {
    hide Quoted, Match;
    var q := "\"" + (value + ("\"" + rest));
    BlanksSkipped(" ", name + ("=" + q));
    NameReads(name, "=" + q);
    NotBlank(name, "=" + q);
    TokenMatches("=", q);
    TokenMatches("\"", value + ("\"" + rest));
  }

  /** A value read as itself up to the first quote holds no quote. */
  lemma QuoteFree(value: string, rest: string)
    requires Find(value + ("\"" + rest), '\"') >= |value|
    ensures '\"' !in value
  {
    var s := value + ("\"" + rest);
    forall i | 0 <= i < |value| ensures value[i] != '\"' {
      assert s[i] == value[i];
    }
  }

  lemma ValueLineWeight(value: string, rest: string)
    ensures Weight(value + ("\"" + rest)) == Weight(value) + 1 + Weight(rest)
  {
    Signs();
    WeightAppend(value, "\"" + rest);
    WeightAppend("\"", rest);
  }

  /** The first of the attributes is read as it is, or something of the text has been wasted. */
  lemma AttrTight(a: Attr, rest: string, acc: map<string, Attr>, m: map<string, Attr>)
    requires IsName(a.name) && NamedAttrs(acc) && Lower(a.name) !in acc
    requires var tag := ParseAttrs(" " + (a.name + ("=" + ("\"" + (a.value + ("\"" + rest))))), acc);
      !tag.Bad? && tag.attrs == m && MapWeight(m) + Weight(tag.rest) >= MapWeight(acc) + AttrWeight(a) + Weight(rest)
    requires Lower(a.name) in m && m[Lower(a.name)] == a
    ensures '\"' !in a.value && Value(a.value, false).0 == a.value
  {
    hide Match, Quoted, ParseAttr, MapWeight, Lower, IsName, NamedAttrs, Weight, Find, Value;
    var s, k := a.value + ("\"" + rest), Lower(a.name);
    AttrOpens(a.name, a.value, rest);
    NameNext(a.name, "=" + ("\"" + s));
    var q := Quoted(s, '\"');
    QuotedWeight(s, '\"');
    ValueLineWeight(a.value, rest);
    var acc' := acc[k := Attr(a.name, q.value.0)];
    MoreNamed(acc, k, Attr(a.name, q.value.0));
    assert acc' - {k} == acc;
    if q.value.0 == a.value {
      QuoteFree(a.value, rest);
      QuotedReads(a.value, '\"', rest);
    } else {
      ReplacedWeight(q.value.1, acc', k);
    }
  }

  lemma MoreNamed(acc: map<string, Attr>, k: string, a: Attr)
    requires NamedAttrs(acc) && IsName(a.name)
    ensures NamedAttrs(acc[k := a])
  {}

  lemma {:induction false} AttrsTight(attrs: seq<Attr>, tail: string, acc: map<string, Attr>, m: map<string, Attr>)
    requires NamedAttrs(acc) && Distinct(attrs) && forall i | 0 <= i < |attrs| :: IsName(attrs[i].name) && Lower(attrs[i].name) !in acc
    requires forall i | 0 <= i < |attrs| :: Lower(attrs[i].name) in m && m[Lower(attrs[i].name)] == attrs[i]
    requires var tag := ParseAttrs(PrintAttrs(attrs) + tail, acc);
      !tag.Bad? && tag.attrs == m && MapWeight(m) + Weight(tag.rest) >= MapWeight(acc) + AllWeight(attrs) + Weight(tail)
    ensures PrintableAttrs(attrs)
    decreases |attrs|
  {
    hide Match, ParseAttr, MapWeight, AttrWeight, Lower, IsName, NamedAttrs, Weight, Value, SkipBlank;
    if attrs != [] {
      var a, more := attrs[0], PrintAttrs(attrs[1..]);
      var k := Lower(a.name);
      AttrShape(a.name, a.value, more, tail);
      AttrsWeight(attrs[1..]);
      WeightAppend(more, tail);
      AttrTight(a, more + tail, acc, m);
      NameNext(a.name, "=" + ("\"" + (a.value + ("\"" + (more + tail)))));
      AttrReads(a, more + tail);
      MoreNamed(acc, k, a);
      MapWith(acc, k, a);
      assert forall i | 0 <= i < |attrs[1..]| :: attrs[1..][i] == attrs[i + 1];
      AttrsTight(attrs[1..], tail, acc[k := a], m);
    }
  }

  // ---------------------------------------------------------------- text

  /** A text that is read as itself, and nothing wasted, holds no less-than sign. */
  lemma TextTight(b: string, value: string, name: string, rest: string, acc: seq<Element>, rest': string)
    requires Break(b) && IsName(name) && NamedAll(acc)
    requires ParseContent(b + (value + EndTag(name, rest)), name, "", acc) == Some((value, acc, rest')) && Weight(rest') >= Weight(rest)
    ensures '<' !in value
  {
    hide Value, Match, ParseText, ParseElement, ParseContent, Weight, IsName, NamedAll, EndTag, Find;
    var j := Find(value, '<');
    if '<' in value {
      InFront(value);
      var p, t := value[..j], value[j..] + EndTag(name, rest);
      SignCuts(b, value, EndTag(name, rest));
      var (v, u) := Value(p, false);
      WeightSplit(value, j);
      WeightAppend(value[j..], EndTag(name, rest));
      EndWeight(name, rest);
      FirstPiece(b, p, t);
      TextSome(b + (value + EndTag(name, rest)), name, acc);
      ValueWeight(p, false);
      ContentOn(b + (value + EndTag(name, rest)), name, acc, v, t);
      assert false;
    }
  }

  lemma TextSome(s: string, name: string, acc: seq<Element>)
    requires ParseContent(s, name, "", acc).Some?
    ensures ParseText(s, "").Some?
  {
    hide ParseText, ParseElement, Match;
  }

  lemma InFront(value: string)
    requires '<' in value
    ensures var j := Find(value, '<'); j < |value| && value[j] == '<' && '<' !in value[..j]
  {
    var i :| 0 <= i < |value| && value[i] == '<';
    assert Find(value, '<') <= i;
  }

  lemma SignCuts(b: string, value: string, end: string)
    requires '<' in value
    ensures var j := Find(value, '<'); b + (value + end) == b + value[..j] + (value[j..] + end)
  {
    hide Find;
    var j := Find(value, '<');
    Rejoined(b, value, end, j);
  }

  lemma Rejoined(b: string, value: string, end: string, j: nat)
    requires j <= |value|
    ensures b + (value + end) == b + value[..j] + (value[j..] + end)
  {
    assert value == value[..j] + value[j..];
    FourParts(b, value[..j], value[j..], end);
  }

  lemma FourParts(b: string, p: string, q: string, end: string)
    ensures b + (p + q + end) == b + p + (q + end)
  {}

  /** The text up to the first less-than sign. */
  lemma FirstPiece(b: string, p: string, t: string)
    requires Break(b) && '<' !in p && t != "" && t[0] == '<'
    ensures var (v, u) := Value(p, false); var r := ParseText(b + p + t, "");
      if u != "" then r.None? else r == Some((v, t))
  {
    hide Value;
    assert t == ['<'] + t[1..];
    FindAt(b + p, '<', t[1..]);
    assert (b + p + t)[..|b + p|] == b + p && (b + p + t)[|b + p|..] == t;
    BreakSkipped(b, p);
    EmptyReads();
    var v := Value(p, false).0;
    assert "" + v == v;
    assert |b + p| == 0 ==> v == "";
  }

  /** What comes behind a first piece of text: the end, or something that weighs. */
  lemma ContentOn(s: string, name: string, acc: seq<Element>, v: string, t: string)
    requires ParseText(s, "") == Some((v, t)) && NamedAll(acc)
    ensures var c := ParseContent(s, name, "", acc); c.Some? && c.value.1 == acc && c.value.0 != v ==>
      Weight(c.value.0) + 2 + Weight(c.value.2) <= Weight(t) + Weight(v)
  {
    hide Match, ParseText, ParseElement, NamedAll, Weight, ChildrenWeight, WellNamed;
    MatchWeight(t, "<!--");
    if Match(t, "</" + name + ">").Some? {
    } else if Match(t, "<!--").Some? {
      var m := Match(t, "<!--").value;
      var p := FindText(m, "-->");
      if p < |m| {
        WeightSplit(m, p + 3);
        ContentReadWeight(m[p + 3..], name, v, acc);
      }
    } else if ParseElement(t).Some? {
      ElementReadWeight(t);
      var c := ParseElement(t).value;
      OneMoreNamed(acc, c.0);
      ContentReadWeight(c.1, name, v, acc + [c.0]);
    }
  }

  lemma OneMoreNamed(es: seq<Element>, e: Element)
    requires NamedAll(es) && WellNamed(e)
    ensures NamedAll(es + [e])
  {
    hide WellNamed;
  }

  // ---------------------------------------------------------------- elements

  lemma NamedHead(l: Listing, newline: bool, rest: string)
    requires IsName(l.name)
    ensures var s := Bare(l, newline) + rest; |s| >= 2 && s[0] == '<' && NameChar(s[1])
  {
    hide PrintAttrs, PrintAll;
    assert NameChar(l.name[0]);
  }

  lemma ChildrenSplit(es: seq<Element>, acc: seq<Element>)
    requires es != []
    ensures ChildrenWeight(acc + es) == ChildrenWeight(acc + [es[0]]) + ChildrenWeight(es[1..])
  {
    hide ElementWeight;
    ChildrenJoin(acc, es);
    ChildrenAppend(acc, es[0]);
  }

  lemma {:induction false} ChildrenJoin(a: seq<Element>, b: seq<Element>)
    ensures ChildrenWeight(a + b) == ChildrenWeight(a) + ChildrenWeight(b)
    decreases |a|
  {
    hide ElementWeight;
    if a == [] {
      assert a + b == b;
    } else {
      assert (a + b)[1..] == a[1..] + b;
      ChildrenJoin(a[1..], b);
    }
  }

  /** What stands behind a printed child weighs as much as what must still be read. */
  lemma TailWeight(ls: seq<Listing>, es: seq<Element>, newline: bool, value: string, name: string, rest: string)
    requires |ls| == |es| && (forall i | 0 <= i < |ls| :: Lists(ls[i], es[i])) && NamedAll(es) && IsName(name)
    ensures Weight(EndLine(newline) + (PrintAll(ls, newline) + (value + EndTag(name, rest))))
         == ChildrenWeight(es) + Weight(value) + 1 + Weight(rest)
  {
    hide PrintAll, EndTag, Weight, IsName, Lists, NamedAll, ChildrenWeight;
    PrintAllWeight(ls, es, newline);
    EndWeight(name, rest);
    LineWeight(newline);
    WeightAppend(value, EndTag(name, rest));
    WeightAppend(PrintAll(ls, newline), value + EndTag(name, rest));
    WeightAppend(EndLine(newline), PrintAll(ls, newline) + (value + EndTag(name, rest)));
  }

  lemma {:induction false} ContentTight(
    ls: seq<Listing>, es: seq<Element>, newline: bool, b: string, value: string, name: string, rest: string, acc: seq<Element>, rest': string)
    requires |ls| == |es| && (forall i | 0 <= i < |ls| :: Lists(ls[i], es[i])) && AllWellKeyed(es) && NamedAll(es) && NamedAll(acc)
    requires Break(b) && IsName(name) && Weight(rest') >= Weight(rest)
    requires ParseContent(b + (PrintAll(ls, newline) + (value + EndTag(name, rest))), name, "", acc) == Some((value, acc + es, rest'))
    ensures PrintableAll(ls) && '<' !in value
    decreases ls, 0
  {
    hide Lists, WellKeyed, WellNamed, IsName, Weight, ParseContent, ParseElement, EndTag, Bare, Printable, ChildrenWeight, ElementWeight, ReadBack, Print;
    var tail := value + EndTag(name, rest);
    if ls == [] {
      assert "" + tail == tail && acc + [] == acc && es == [];
      TextTight(b, value, name, rest, acc, rest');
    } else {
      var l, e, more := ls[0], es[0], EndLine(newline) + (PrintAll(ls[1..], newline) + tail);
      FirstChild(ls, newline, tail);
      var s := Bare(l, newline) + more;
      NameOf(l, e);
      NamedHead(l, newline, more);
      ChildNext(b, s, name, acc);
      var c := ParseElement(s).value;
      ElementReadWeight(s);
      OneMoreNamed(acc, c.0);
      ContentReadWeight(c.1, name, "", acc + [c.0]);
      assert c.0 == (acc + es)[|acc|] == e;
      ChildrenSplit(es, acc);
      TailWeight(ls[1..], es[1..], newline, value, name, rest);
      assert "" + s == s;
      ElementTight(l, e, newline, "", more, c.1);
      BareReads(l, newline, "", more);
      assert acc + es == acc + [e] + es[1..];
      ContentTight(ls[1..], es[1..], newline, EndLine(newline), value, name, rest, acc + [e], rest');
    }
  }

  lemma FirstChild(ls: seq<Listing>, newline: bool, tail: string)
    requires ls != []
    ensures PrintAll(ls, newline) + tail == Bare(ls[0], newline) + (EndLine(newline) + (PrintAll(ls[1..], newline) + tail))
  {
    hide Bare, Print, PrintAll;
    PrintIsBare(ls[0], newline);
    FirstOf(ls, newline);
    Regrouped(Bare(ls[0], newline), EndLine(newline), PrintAll(ls[1..], newline), tail);
  }

  lemma FirstOf(ls: seq<Listing>, newline: bool)
    requires ls != []
    ensures PrintAll(ls, newline) == Print(ls[0], newline) + PrintAll(ls[1..], newline)
  {}

  lemma Regrouped(p: string, e: string, q: string, t: string)
    ensures p + e + q + t == p + (e + (q + t))
  {}

  lemma NameOf(l: Listing, e: Element)
    requires Lists(l, e) && WellNamed(e)
    ensures IsName(l.name)
  {}

  /** Start tag and attributes, cut where the reader cuts them. */
  function Inside(l: Listing, newline: bool, rest: string): string {
    if l.children == [] && l.value == "" then "/>" + rest
    else ">" + (EndLine(newline && l.children != []) + (PrintAll(l.children, newline) + (l.value + EndTag(l.name, rest))))
  }

  lemma BareShape(l: Listing, newline: bool, rest: string)
    ensures Bare(l, newline) + rest == "<" + (l.name + (PrintAttrs(l.attrs) + Inside(l, newline, rest)))
    ensures Inside(l, newline, rest) != "" && !NameChar(Inside(l, newline, rest)[0])
  {
    hide Bare, PrintAttrs, PrintAll, EndTag;
    if l.children == [] && l.value == "" { ClosedShape(l, newline, rest); } else { OpenShape(l, newline, rest); }
  }

  lemma InsideWeight(l: Listing, e: Element, newline: bool, rest: string)
    requires Lists(l, e) && WellNamed(e)
    ensures Weight(Inside(l, newline, rest)) + 1 + MapWeight(e.attrs) == ElementWeight(e) + Weight(rest)
  {
    hide PrintAll, EndTag, Weight, IsName, MapWeight;
    Signs();
    LineWeight(newline && l.children != []);
    if l.children == [] && l.value == "" {
      WeightAppend("/>", rest);
    } else {
      var more := PrintAll(l.children, newline) + (l.value + EndTag(l.name, rest));
      TailWeight(l.children, e.children, newline, l.value, l.name, rest);
      WeightAppend(">", EndLine(newline && l.children != []) + more);
      WeightAppend(EndLine(newline && l.children != []), more);
      LineWeight(newline);
      WeightAppend(EndLine(newline), more);
    }
  }

  lemma {:induction false} ElementTight(l: Listing, e: Element, newline: bool, b: string, rest: string, rest': string)
    requires Lists(l, e) && WellKeyed(e) && WellNamed(e) && Break(b) && Weight(rest') >= Weight(rest)
    requires ParseElement(b + (Bare(l, newline) + rest)) == Some((e, rest'))
    ensures Printable(l)
    decreases l, 1
  {
    hide Match, Identifier, ParseAttrs, ParseContent, Bare, PrintAttrs, Inside, Weight, IsName, NamedAttrs, MapWeight, ElementWeight, ChildrenWeight, Orders, Lower, Distinct, PrintableAttrs;
    var inside := Inside(l, newline, rest);
    BareShape(l, newline, rest);
    BlankMatch(b, "<" + (l.name + (PrintAttrs(l.attrs) + inside)), "<");
    TokenMatches("<", l.name + (PrintAttrs(l.attrs) + inside));
    AttrsHead(l.attrs, inside);
    NameReads(l.name, PrintAttrs(l.attrs) + inside);
    var tag := ParseAttrs(PrintAttrs(l.attrs) + inside, map[]);
    TagLeft(tag, l, e, newline, rest, rest');
    TagPrintable(l, e, inside);
    AttrsRead(l.attrs, inside, map[]);
    if l.children != [] || l.value != "" { OpenTight(l, e, newline, rest, rest', tag); } else { NoChildPrintable(l); }
  }

  lemma NoChildPrintable(l: Listing)
    requires l.children == [] && l.value == "" && IsName(l.name) && PrintableAttrs(l.attrs)
    ensures Printable(l)
  {}

  /** What is left behind a start tag weighs at least what is printed there. */
  lemma TagLeft(tag: Tag, l: Listing, e: Element, newline: bool, rest: string, rest': string)
    requires Lists(l, e) && WellNamed(e) && Weight(rest') >= Weight(rest) && !tag.Bad?
    requires tag.Closed? ==> e.children == [] && e.value == "" && tag.rest == rest'
    requires tag.Open? ==> ParseContent(tag.rest, l.name, "", []) == Some((e.value, e.children, rest'))
    ensures Weight(tag.rest) >= Weight(Inside(l, newline, rest))
  {
    hide ParseContent, Weight, IsName, MapWeight, Inside, NamedAttrs;
    InsideWeight(l, e, newline, rest);
    if tag.Open? {
      ContentReadWeight(tag.rest, l.name, "", []);
      Signs();
    }
  }

  lemma TagPrintable(l: Listing, e: Element, inside: string)
    requires Lists(l, e) && WellKeyed(e) && WellNamed(e)
    requires var tag := ParseAttrs(PrintAttrs(l.attrs) + inside, map[]);
      !tag.Bad? && tag.attrs == e.attrs && Weight(tag.rest) >= Weight(inside)
    ensures PrintableAttrs(l.attrs)
  {
    hide ParseAttrs, PrintAttrs, Weight, IsName, MapWeight, Lower, Distinct, PrintableAttrs;
    var keys :| Orders(keys, l.attrs, e.attrs);
    OrderedKeyed(keys, l.attrs, e.attrs);
    OrderedNames(keys, l.attrs, e.attrs);
    OrderedWeight(keys, l.attrs, e.attrs);
    NothingNamed();
    AttrsTight(l.attrs, inside, map[], e.attrs);
  }

  lemma {:induction false} OpenTight(l: Listing, e: Element, newline: bool, rest: string, rest': string, tag: Tag)
    requires Lists(l, e) && WellKeyed(e) && WellNamed(e) && Weight(rest') >= Weight(rest) && PrintableAttrs(l.attrs)
    requires (l.children != [] || l.value != "") && ReadAttrs(l.attrs, map[]).Some? && !tag.Bad?
    requires tag == ParseAttrs(Inside(l, newline, rest), ReadAttrs(l.attrs, map[]).value)
    requires tag.Open? ==> ParseContent(tag.rest, l.name, "", []) == Some((e.value, e.children, rest'))
    ensures Printable(l)
    decreases l, 0
  {
    hide ParseAttrs, ParseContent, ReadAttrs, Weight, IsName, PrintAll, EndTag, PrintableAttrs, NamedAttrs;
    var b := EndLine(newline && l.children != []);
    OpenEnd(ReadAttrs(l.attrs, map[]).value, b + (PrintAll(l.children, newline) + (l.value + EndTag(l.name, rest))));
    assert [] + e.children == e.children;
    ContentTight(l.children, e.children, newline, b, l.value, l.name, rest, [], rest');
  }

  // ---------------------------------------------------------------- documents

  /** A document that is read as the element it was printed from was printed from a printable one. */
  lemma OnlyPrintable(l: Listing, e: Element, header: bool, newline: bool, want: bool)
    requires Lists(l, e) && WellKeyed(e) && FromString(Document(l, header, newline), want) == Some(e)
    ensures Printable(l) && (want ==> header)
  {
    hide Lists, WellKeyed, WellNamed, IsName, Weight, ParseElement, Bare, Print, Printable, SkipHeader, SkipComments, SkipDoctype, HEADER;
    var s, d := Print(l, newline), Document(l, header, newline);
    ReadNamed(d, want);
    NameOf(l, e);
    PrintIsBare(l, newline);
    NamedHead(l, newline, EndLine(newline));
    ElementOnly(EndLine(newline), s);
    if header {
      assert d == HEADER + (EndLine(newline) + s);
      HeaderSkipped(EndLine(newline) + s, want);
    } else {
      assert d == EndLine(newline) + s;
    }
    LineWeight(newline);
    assert "" + s == s;
    ElementTight(l, e, newline, "", EndLine(newline), ParseElement(s).value.1);
  }

  lemma ReadNamed(s: string, want: bool)
    ensures FromString(s, want).Some? ==> WellNamed(FromString(s, want).value)
  {
    hide ParseElement, WellNamed, Prolog;
    var body := Prolog(s, want);
    if body.Some? { ElementReadWeight(body.value); }
  }

  lemma {:induction false} PrintableNameable(l: Listing, e: Element)
    requires Lists(l, e) && Printable(l)
    ensures Nameable(e)
    decreases l
  {
    hide IsName, Orders;
    var keys :| Orders(keys, l.attrs, e.attrs);
    PrintableEach(l.children);
    forall i | 0 <= i < |e.children| ensures Nameable(e.children[i]) {
      PrintableNameable(l.children[i], e.children[i]);
    }
    OrderedPrintable(keys, l.attrs, e.attrs);
  }

  lemma OrderedPrintable(keys: seq<string>, attrs: seq<Attr>, m: map<string, Attr>)
    requires Orders(keys, attrs, m) && PrintableAttrs(attrs)
    ensures forall k | k in m :: IsName(m[k].name) && '\"' !in m[k].value
  {
    hide IsName;
    forall k | k in m ensures IsName(m[k].name) && '\"' !in m[k].value {
      var i :| 0 <= i < |keys| && keys[i] == k;
      assert attrs[i] == m[k];
    }
  }

  lemma {:induction false} PrintableEach(ls: seq<Listing>)
    requires PrintableAll(ls)
    ensures forall i | 0 <= i < |ls| :: Printable(ls[i])
  {
    hide Printable;
    if ls != [] {
      PrintableEach(ls[1..]);
      assert forall i | 0 < i < |ls| :: ls[i] == ls[1..][i - 1];
    }
  }

  /**
   * A document is read as the element it was printed from, in any attribute order and layout, if and only if the
   * element is well keyed, every value is tidy, every name is an identifier, no text holds a less-than sign and no
   * attribute value a double quote, and a header that is asked for is there.
   */
  lemma ReadsExactly(l: Listing, e: Element, header: bool, newline: bool, want: bool)
    requires Lists(l, e)
    ensures FromString(Document(l, header, newline), want) == Some(e) <==>
      WellKeyed(e) && TidyElement(e) && Nameable(e) && (want ==> header)
  {
    hide FromString, Document, Lists, WellKeyed, TidyElement, Nameable, Printable, ReadBack;
    ReadWellKeyed(Document(l, header, newline), want);
    if FromString(Document(l, header, newline), want) == Some(e) {
      OnlyPrintable(l, e, header, newline, want);
      PrintableNameable(l, e);
    }
    if Nameable(e) {
      NameablePrintable(l, e);
      DocumentReads(l, header, newline, want);
      ReadsItself(l, e);
    }
  }

  // ---------------------------------------------------------------- the comparison from the source's side

  lemma {:induction false} KeyedKeys(attrs: seq<Attr>, acc: map<string, Attr>, k: string)
    requires k in Keyed(attrs, acc)
    ensures k in acc || exists i :: 0 <= i < |attrs| && Lower(attrs[i].name) == k
    decreases |attrs|
  {
    hide Lower;
    if attrs != [] {
      KeyedKeys(attrs[1..], acc[Lower(attrs[0].name) := attrs[0]], k);
      if i :| 0 <= i < |attrs[1..]| && Lower(attrs[1..][i].name) == k { assert attrs[i + 1] == attrs[1..][i]; }
    }
  }

  /** Attributes found in a map as large are all of it. */
  lemma FoundSame(keys: seq<string>, attrs: seq<Attr>, m: map<string, Attr>, r: map<string, Attr>)
    requires Orders(keys, attrs, m) && Distinct(attrs) && |m| == |r|
    requires forall k | k in m :: Lower(m[k].name) in r && r[Lower(m[k].name)] == m[k]
    ensures r == Keyed(attrs, map[])
  {
    hide Lower, Keyed;
    var c := Keyed(attrs, map[]);
    OrderedSize(keys, attrs, m);
    KeyedSize(attrs, map[]);
    forall k | k in c ensures k in r && r[k] == c[k] {
      KeyedKeys(attrs, map[], k);
      var i :| 0 <= i < |attrs| && Lower(attrs[i].name) == k;
      KeyedAt(attrs, map[], i);
      assert m[keys[i]] == attrs[i];
    }
    KeysCover(c, r);
  }

  /** What an unambiguous element is equal to is its copy. */
  lemma {:induction false} EqualsCopy(l: Listing, e: Element, r: Element)
    requires Lists(l, e) && Unambiguous(e) && Equals(e, r)
    ensures r == Listed(l)
    decreases l
  {
    hide Lower, Keyed, Orders, Distinct;
    var keys :| Orders(keys, l.attrs, e.attrs);
    OrderedSize(keys, l.attrs, e.attrs);
    FoundSame(keys, l.attrs, e.attrs, r.attrs);
    forall i | 0 <= i < |l.children| ensures r.children[i] == ListedAll(l.children)[i] {
      ListedAllAt(l.children, i);
      EqualsCopy(l.children[i], e.children[i], r.children[i]);
    }
    assert r.children == ListedAll(l.children);
  }

  /** The listing of an unambiguous element is one of its copy. */
  lemma {:induction false} ListsCopy(l: Listing, e: Element)
    requires Lists(l, e) && Unambiguous(e)
    ensures Lists(l, Listed(l))
    decreases l
  {
    hide Lower, Keyed, Orders, Distinct;
    var keys :| Orders(keys, l.attrs, e.attrs);
    OrderedSize(keys, l.attrs, e.attrs);
    OrdersCopy(l.attrs);
    forall i | 0 <= i < |l.children| ensures Lists(l.children[i], ListedAll(l.children)[i]) {
      ListedAllAt(l.children, i);
      ListsCopy(l.children[i], e.children[i]);
    }
  }

  lemma OrdersCopy(attrs: seq<Attr>)
    requires Distinct(attrs)
    ensures exists keys :: Orders(keys, attrs, Keyed(attrs, map[]))
  {
    hide Lower, Keyed;
    var m := Keyed(attrs, map[]);
    var keys := seq(|attrs|, i requires 0 <= i < |attrs| => Lower(attrs[i].name));
    forall i | 0 <= i < |attrs| ensures keys[i] in m && attrs[i] == m[keys[i]] { KeyedAt(attrs, map[], i); }
    forall k | k in m ensures k in keys {
      KeyedKeys(attrs, map[], k);
      var i :| 0 <= i < |attrs| && Lower(attrs[i].name) == k;
      assert keys[i] == k;
    }
    assert Orders(keys, attrs, m);
  }

  /**
   * Printing an element, whatever its names and values, and reading the text gives an element that is equal to it
   * exactly when it is well keyed, tidy and nameable. The element is equal to what is read exactly when it is
   * unambiguous, tidy and nameable, for every element that is unambiguous or nameable.
   */
  lemma RoundTrip(l: Listing, e: Element, header: bool, newline: bool, want: bool)
    requires Lists(l, e)
    ensures var r := FromString(Document(l, header, newline), want);
      && (r.Some? && Equals(r.value, e) <==> WellKeyed(e) && TidyElement(e) && Nameable(e) && (want ==> header))
      && (Unambiguous(e) || Nameable(e) ==>
          (r.Some? && Equals(e, r.value) <==> Unambiguous(e) && TidyElement(e) && Nameable(e) && (want ==> header)))
  {
    hide FromString, Document, Nameable, WellKeyed, Equals, TidyElement, Lists, Printable, ReadBack, Unambiguous;
    var r := FromString(Document(l, header, newline), want);
    ReadWellKeyed(Document(l, header, newline), want);
    ReadsExactly(l, e, header, newline, want);
    if r.Some? && Equals(r.value, e) { EqualsSame(r.value, e); }
    if WellKeyed(e) { EqualsIff(e, e); }
    if Nameable(e) {
      NameablePrintable(l, e);
      DocumentReads(l, header, newline, want);
      SourceRead(l, e);
    } else if Unambiguous(e) && r.Some? && Equals(e, r.value) {
      EqualsCopy(l, e, r.value);
      ListsCopy(l, e);
      OnlyPrintable(l, Listed(l), header, newline, want);
      PrintableNameable(l, e);
    }
  }
}
