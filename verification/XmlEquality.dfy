/** Equality and copies of elements, and the round trip over every attribute order. */
module XmlEquality {
  import opened Bytes
  import opened XmlText
  import opened XmlTree
  import opened XmlRoundTrip
  import opened XmlDocuments

  // ---------------------------------------------------------------- iteration orders

  /** keys lists every key of the map once, and attrs the attributes in that order. */
  predicate Orders(keys: seq<string>, attrs: seq<Attr>, m: map<string, Attr>) {
    && |keys| == |attrs| && (forall i, j | 0 <= i < j < |keys| :: keys[i] != keys[j])
    && (forall k | k in m :: k in keys) && forall i | 0 <= i < |keys| :: keys[i] in m && attrs[i] == m[keys[i]]
  }

  /** l lists e, the attributes of every node in some order. */
  ghost predicate Lists(l: Listing, e: Element)
    decreases l
  {
    && l.name == e.name && l.value == e.value && |l.children| == |e.children|
    && (exists keys :: Orders(keys, l.attrs, e.attrs))
    && forall i | 0 <= i < |l.children| :: Lists(l.children[i], e.children[i])
  }

  lemma OrderedKeyed(keys: seq<string>, attrs: seq<Attr>, m: map<string, Attr>)
    requires Orders(keys, attrs, m) && forall k | k in m :: k == Lower(m[k].name)
    ensures Distinct(attrs) && Keyed(attrs, map[]) == m
  {
    hide Lower;
    assert forall i | 0 <= i < |attrs| :: keys[i] == Lower(attrs[i].name);
    var r := Keyed(attrs, map[]);
    forall k ensures (k in r <==> k in m) && (k in m ==> r[k] == m[k]) {
      if k in m {
        var i :| 0 <= i < |keys| && keys[i] == k;
        KeyedAt(attrs, map[], i);
      } else {
        KeyedOther(attrs, map[], k);
      }
    }
  }

  lemma {:induction false} ListedAllAt(ls: seq<Listing>, i: nat)
    requires i < |ls|
    ensures ListedAll(ls)[i] == Listed(ls[i])
    decreases ls
  {
    hide Listed;
    if i > 0 { ListedAllAt(ls[1..], i - 1); }
  }

  /** Copying a well-keyed element in any iteration order gives the same element: CXMLElement::Clone. */
  lemma {:induction false} ListedIs(l: Listing, e: Element)
    requires Lists(l, e) && WellKeyed(e)
    ensures Listed(l) == e && Distinct(l.attrs)
    decreases l
  {
    hide Keyed, Lower, Orders, Distinct;
    var keys :| Orders(keys, l.attrs, e.attrs);
    OrderedKeyed(keys, l.attrs, e.attrs);
    forall i | 0 <= i < |l.children| ensures ListedAll(l.children)[i] == e.children[i] {
      ListedAllAt(l.children, i);
      ListedIs(l.children[i], e.children[i]);
    }
    assert ListedAll(l.children) == e.children;
  }

  // ---------------------------------------------------------------- equality

  lemma {:induction false} KeysCover(a: map<string, Attr>, b: map<string, Attr>)
    requires |a| == |b| && forall k | k in a :: k in b
    ensures a.Keys == b.Keys
    decreases |a|
  {
    if !(b.Keys <= a.Keys) {
      SubsetSize(a.Keys, b.Keys);
    }
  }

  lemma {:induction false} SubsetSize(a: set<string>, b: set<string>)
    requires a <= b
    ensures |a| <= |b| && (|a| == |b| ==> a == b)
    decreases b
  {
    if a != {} {
      var x :| x in a;
      SubsetSize(a - {x}, b - {x});
      assert a == a - {x} + {x} && b == b - {x} + {x};
    } else if b != {} {
      var x :| x in b;
      assert |b| == |b - {x}| + 1;
    }
  }

  /** On well-keyed elements Equals is equality, whatever the iteration order was. */
  lemma {:induction false} EqualsIff(a: Element, b: Element)
    requires WellKeyed(a) && WellKeyed(b)
    ensures Equals(a, b) <==> a == b
    decreases a
  {
    hide Lower;
    if Equals(a, b) {
      assert forall k | k in a.attrs :: k in b.attrs && b.attrs[k] == a.attrs[k];
      KeysCover(a.attrs, b.attrs);
      assert a.attrs == b.attrs;
      forall i | 0 <= i < |a.children| ensures a.children[i] == b.children[i] {
        EqualsIff(a.children[i], b.children[i]);
      }
      assert a.children == b.children;
    }
    if a == b {
      forall i | 0 <= i < |a.children| ensures Equals(a.children[i], b.children[i]) {
        EqualsIff(a.children[i], b.children[i]);
      }
    }
  }

  lemma {:induction false} KeyedWell(attrs: seq<Attr>, acc: map<string, Attr>)
    requires forall k | k in acc :: k == Lower(acc[k].name)
    ensures forall k | k in Keyed(attrs, acc) :: k == Lower(Keyed(attrs, acc)[k].name)
    decreases |attrs|
  {
    hide Lower;
    if attrs != [] { KeyedWell(attrs[1..], acc[Lower(attrs[0].name) := attrs[0]]); }
  }

  /** A copy is well keyed, whatever its source is. */
  lemma {:induction false} ListedWell(l: Listing)
    ensures WellKeyed(Listed(l))
    decreases l
  {
    hide Keyed, Lower;
    KeyedWell(l.attrs, map[]);
    forall i | 0 <= i < |l.children| ensures WellKeyed(ListedAll(l.children)[i]) {
      ListedAllAt(l.children, i);
      ListedWell(l.children[i]);
    }
  }

  /** What a well-keyed element is equal to is the same element. */
  lemma {:induction false} EqualsSame(a: Element, b: Element)
    requires WellKeyed(a) && Equals(a, b)
    ensures a == b
    decreases a
  {
    hide Lower;
    assert forall k | k in a.attrs :: k in b.attrs && b.attrs[k] == a.attrs[k];
    KeysCover(a.attrs, b.attrs);
    assert a.attrs == b.attrs;
    forall i | 0 <= i < |a.children| ensures a.children[i] == b.children[i] {
      EqualsSame(a.children[i], b.children[i]);
    }
    assert a.children == b.children;
  }

  /** No two attributes of a node have the same name up to case. */
  predicate Unambiguous(e: Element)
    decreases e
  {
    && (forall j, k | j in e.attrs && k in e.attrs && j != k :: Lower(e.attrs[j].name) != Lower(e.attrs[k].name))
    && forall i | 0 <= i < |e.children| :: Unambiguous(e.children[i])
  }

  /** Storing attributes under their names loses none exactly when the names differ. */
  lemma {:induction false} KeyedSize(attrs: seq<Attr>, acc: map<string, Attr>)
    ensures |Keyed(attrs, acc)| <= |acc| + |attrs|
    ensures |Keyed(attrs, acc)| == |acc| + |attrs| <==>
      Distinct(attrs) && forall i | 0 <= i < |attrs| :: Lower(attrs[i].name) !in acc
    decreases |attrs|
  {
    hide Lower;
    if attrs != [] {
      var k, more := Lower(attrs[0].name), attrs[1..];
      var acc' := acc[k := attrs[0]];
      assert acc'.Keys == acc.Keys + {k};
      assert |acc'.Keys| == |acc.Keys| + if k in acc then 0 else 1;
      KeyedSize(more, acc');
      assert forall i | 0 < i < |attrs| :: attrs[i] == more[i - 1];
      assert Distinct(attrs) ==> Distinct(more);
    }
  }

  lemma OrderedSize(keys: seq<string>, attrs: seq<Attr>, m: map<string, Attr>)
    requires Orders(keys, attrs, m)
    ensures |m| == |attrs|
    ensures Distinct(attrs) <==> forall j, k | j in m && k in m && j != k :: Lower(m[j].name) != Lower(m[k].name)
  {
    hide Lower;
    KeysSize(keys, m.Keys);
    if Distinct(attrs) {
      forall j, k | j in m && k in m && j != k ensures Lower(m[j].name) != Lower(m[k].name) {
        var x :| 0 <= x < |keys| && keys[x] == j;
        var y :| 0 <= y < |keys| && keys[y] == k;
        assert Lower(attrs[x].name) != Lower(attrs[y].name);
      }
    }
  }

  lemma {:induction false} KeysSize(keys: seq<string>, s: set<string>)
    requires (forall i, j | 0 <= i < j < |keys| :: keys[i] != keys[j]) && forall k :: k in keys <==> k in s
    ensures |s| == |keys|
    decreases |keys|
  {
    if keys == [] {
      assert s == {};
    } else {
      var front, last := keys[..|keys| - 1], keys[|keys| - 1];
      assert last !in front;
      KeysSize(front, s - {last});
      assert |s| == |s - {last}| + 1;
    }
  }

  /** The source of a copy finds all its attributes in it exactly when none got lost. */
  lemma {:induction false} SourceEquals(l: Listing, e: Element)
    requires Lists(l, e)
    ensures Equals(e, Listed(l)) <==> Unambiguous(e)
    decreases l
  {
    hide Keyed, Lower, Orders, Distinct;
    var keys :| Orders(keys, l.attrs, e.attrs);
    var c := Listed(l);
    OrderedSize(keys, l.attrs, e.attrs);
    KeyedSize(l.attrs, map[]);
    if Distinct(l.attrs) { OrderedFound(keys, l.attrs, e.attrs); }
    forall i | 0 <= i < |l.children| ensures Equals(e.children[i], c.children[i]) <==> Unambiguous(e.children[i]) {
      ListedAllAt(l.children, i);
      SourceEquals(l.children[i], e.children[i]);
    }
  }

  lemma OrderedFound(keys: seq<string>, attrs: seq<Attr>, m: map<string, Attr>)
    requires Orders(keys, attrs, m) && Distinct(attrs)
    ensures var r := Keyed(attrs, map[]); forall k | k in m :: Lower(m[k].name) in r && r[Lower(m[k].name)] == m[k]
  {
    hide Lower, Keyed;
    forall k | k in m ensures Lower(m[k].name) in Keyed(attrs, map[]) && Keyed(attrs, map[])[Lower(m[k].name)] == m[k] {
      var i :| 0 <= i < |keys| && keys[i] == k;
      KeyedAt(attrs, map[], i);
    }
  }

  /**
   * A copy equals its source exactly when the source is well keyed; the source equals its copy exactly
   * when no two attributes of a node have the same name up to case.
   */
  lemma CloneEquals(l: Listing, e: Element)
    requires Lists(l, e)
    ensures Equals(Listed(l), e) <==> WellKeyed(e)
    ensures Equals(e, Listed(l)) <==> Unambiguous(e)
  {
    hide Listed, Equals, WellKeyed, Unambiguous, Lists;
    SourceEquals(l, e);
    ListedWell(l);
    if WellKeyed(e) {
      ListedIs(l, e);
      EqualsIff(e, e);
    }
    if Equals(Listed(l), e) { EqualsSame(Listed(l), e); }
  }

  /** AddAttribute with an attribute object stores it under its name as written. */
  function AddAttribute(e: Element, a: Attr): Element { e.(attrs := e.attrs[a.name := a]) }

  /** Then a copy may not be equal to its source, although the source is equal to the copy. */
  lemma MiskeyedCopy()
    ensures var a := Attr("Id", "1");
      var e := AddAttribute(Element("x", map[], "", []), a);
      var l := Listing("x", [a], "", []);
      Lists(l, e) && Equals(e, Listed(l)) && !Equals(Listed(l), e)
  {
    var a := Attr("Id", "1");
    var e := AddAttribute(Element("x", map[], "", []), a);
    assert e.attrs == map["Id" := a];
    assert Orders(["Id"], [a], e.attrs);
    assert Lower("Id") == "id" by {
      assert "Id"[1..] == "d" && "d"[1..] == "";
      assert Lower("d") == "d";
    }
    var m := Keyed([a], map[]);
    assert [a][1..] == [] && Keyed([a][1..], map["id" := a]) == map["id" := a];
    assert map[][Lower(a.name) := a] == map["id" := a];
    assert m == map["id" := a];
    var c := Listed(Listing("x", [a], "", []));
    assert c == Element("x", m, "", []);
    assert "id" in m && "id" !in e.attrs;
    assert "Id" in e.attrs;
    assert |e.attrs| == |m|;
  }

  // ---------------------------------------------------------------- what the reader builds is well keyed

  lemma {:induction false} AttrsWellKeyed(s: string, acc: map<string, Attr>)
    requires forall k | k in acc :: k == Lower(acc[k].name)
    ensures var t := ParseAttrs(s, acc); !t.Bad? ==> forall k | k in t.attrs :: k == Lower(t.attrs[k].name)
    decreases |s|
  {
    hide Match, ParseAttr, Lower;
    if Match(s, ">").None? && Match(s, "/").None? && s != "" {
      var a := ParseAttr(s);
      if a.Some? { AttrsWellKeyed(a.value.1, acc[Lower(a.value.0.name) := a.value.0]); }
    }
  }

  lemma {:induction false} ElementWellKeyed(s: string)
    ensures ParseElement(s).Some? ==> WellKeyed(ParseElement(s).value.0)
    decreases |s|, 0
  {
    hide Match, Identifier, ParseAttrs, ParseContent;
    var open := Match(s, "<");
    if open.Some? {
      var id := Identifier(open.value);
      if id.Some? {
        AttrsWellKeyed(id.value.1, map[]);
        var tag := ParseAttrs(id.value.1, map[]);
        if tag.Open? { ContentWellKeyed(tag.rest, id.value.0, "", []); }
      }
    }
  }

  predicate AllWellKeyed(es: seq<Element>) { forall i | 0 <= i < |es| :: WellKeyed(es[i]) }

  lemma {:induction false} ContentWellKeyed(s: string, name: string, value: string, children: seq<Element>)
    requires AllWellKeyed(children)
    ensures var c := ParseContent(s, name, value, children); c.Some? ==> AllWellKeyed(c.value.1)
    decreases |s|, 1
  {
    hide Match, ParseText, ParseElement, WellKeyed;
    var text := ParseText(s, value);
    if text.Some? {
      var (value', t) := text.value;
      var close, comment := Match(t, "</" + name + ">"), Match(t, "<!--");
      if close.Some? {
      } else if comment.Some? {
        var p := FindText(comment.value, "-->");
        if p < |comment.value| { ContentWellKeyed(comment.value[p + 3..], name, value', children); }
      } else if ParseElement(t).Some? {
        ElementWellKeyed(t);
        var c := ParseElement(t).value;
        ContentWellKeyed(c.1, name, value', children + [c.0]);
      }
    }
  }

  /** Whatever the text, an element that is read is well keyed. */
  lemma ReadWellKeyed(s: string, header: bool)
    ensures FromString(s, header).Some? ==> WellKeyed(FromString(s, header).value)
  {
    hide ParseElement, WellKeyed, Prolog;
    var body := Prolog(s, header);
    if body.Some? { ElementWellKeyed(body.value); }
  }

  // ---------------------------------------------------------------- the round trip

  /** Names are identifiers; text holds no less-than sign, attribute values no double quote. */
  predicate Nameable(e: Element)
    decreases e
  {
    && IsName(e.name) && '<' !in e.value
    && (forall k | k in e.attrs :: IsName(e.attrs[k].name) && '\"' !in e.attrs[k].value)
    && forall i | 0 <= i < |e.children| :: Nameable(e.children[i])
  }

  /** Every value is tidy. */
  predicate TidyElement(e: Element)
    decreases e
  {
    && Tidy(e.value, false) && (forall k | k in e.attrs :: Tidy(e.attrs[k].value, false))
    && forall i | 0 <= i < |e.children| :: TidyElement(e.children[i])
  }

  lemma {:induction false} PrintableAllFrom(ls: seq<Listing>)
    requires forall i | 0 <= i < |ls| :: Printable(ls[i])
    ensures PrintableAll(ls)
    decreases ls
  {
    hide Printable;
    if ls != [] { PrintableAllFrom(ls[1..]); }
  }

  lemma {:induction false} NameablePrintable(l: Listing, e: Element)
    requires Lists(l, e) && Nameable(e)
    ensures Printable(l)
    decreases l
  {
    hide IsName;
    var keys :| Orders(keys, l.attrs, e.attrs);
    forall i | 0 <= i < |l.children| ensures Printable(l.children[i]) {
      NameablePrintable(l.children[i], e.children[i]);
    }
    hide Printable;
    PrintableAllFrom(l.children);
  }

  lemma {:induction false} ReadBackAllAt(ls: seq<Listing>)
    ensures ReadBackAll(ls).Some? <==> forall i | 0 <= i < |ls| :: ReadBack(ls[i]).Some?
    ensures ReadBackAll(ls).Some? ==> |ReadBackAll(ls).value| == |ls|
    ensures ReadBackAll(ls).Some? ==>
      forall i | 0 <= i < |ls| :: ReadBack(ls[i]).Some? && ReadBackAll(ls).value[i] == ReadBack(ls[i]).value
    decreases ls
  {
    hide ReadBack;
    if ls != [] {
      ReadBackAllAt(ls[1..]);
      assert forall i | 0 < i < |ls| :: ls[i] == ls[1..][i - 1];
    }
  }

  /** A tree reads back as itself exactly when it is tidy. */
  lemma {:induction false} TidyReads(l: Listing, e: Element)
    requires Lists(l, e) && WellKeyed(e)
    ensures ReadBack(l) == Some(e) <==> TidyElement(e)
    decreases l
  {
    hide Keyed, Lower, Value, Tidy, ReadAttrs, Orders, Distinct;
    ListedIs(l, e);
    TidyAttrsRead(l.attrs);
    var keys :| Orders(keys, l.attrs, e.attrs);
    OrderTidy(keys, l.attrs, e.attrs);
    TidyKept(l.value, false);
    forall i | 0 <= i < |l.children| ensures ReadBack(l.children[i]) == Some(e.children[i]) <==> TidyElement(e.children[i]) {
      TidyReads(l.children[i], e.children[i]);
    }
    ReadBackAllAt(l.children);
    ChildrenSame(l.children, e.children);
  }

  lemma ChildrenSame(ls: seq<Listing>, es: seq<Element>)
    requires |ls| == |es|
    ensures ReadBackAll(ls) == Some(es) <==> forall i | 0 <= i < |ls| :: ReadBack(ls[i]) == Some(es[i])
  {
    hide ReadBack, ReadBackAll;
    ReadBackAllAt(ls);
    if forall i | 0 <= i < |ls| :: ReadBack(ls[i]) == Some(es[i]) {
      assert ReadBackAll(ls).value == es;
    }
  }

  lemma OrderTidy(keys: seq<string>, attrs: seq<Attr>, m: map<string, Attr>)
    requires Orders(keys, attrs, m)
    ensures TidyAttrs(attrs) <==> forall k | k in m :: Tidy(m[k].value, false)
  {
    hide Tidy;
    if TidyAttrs(attrs) {
      forall k | k in m ensures Tidy(m[k].value, false) {
        var i :| 0 <= i < |keys| && keys[i] == k;
        assert Tidy(attrs[i].value, false);
      }
    }
  }

  /** Attributes found again, with their values, by the element they were read from. */
  predicate Found(m: map<string, Attr>, r: map<string, Attr>) {
    |m| == |r| && forall k | k in m :: Lower(m[k].name) in r && r[Lower(m[k].name)] == m[k]
  }

  lemma AttrsFound(keys: seq<string>, attrs: seq<Attr>, m: map<string, Attr>)
    requires Orders(keys, attrs, m)
    ensures var r := ReadAttrs(attrs, map[]); r.Some? && Found(m, r.value) <==> Distinct(attrs) && TidyAttrs(attrs)
  {
    hide Value, Tidy, Keyed, Lower, SkipBlank;
    ReadAttrsIs(attrs, map[]);
    OrderedSize(keys, attrs, m);
    var seen := Seen(attrs);
    KeyedSize(seen, map[]);
    assert Distinct(seen) <==> Distinct(attrs);
    forall i | 0 <= i < |attrs| ensures Tidy(attrs[i].value, false) <==> Value(attrs[i].value, false) == (attrs[i].value, "") {
      TidyKept(attrs[i].value, false);
    }
    if Distinct(attrs) && ReadAttrs(attrs, map[]).Some? {
      forall i | 0 <= i < |attrs| ensures Lower(attrs[i].name) in Keyed(seen, map[]) && Keyed(seen, map[])[Lower(attrs[i].name)] == seen[i] {
        KeyedAt(seen, map[], i);
      }
      FoundTidy(keys, attrs, m, seen, Keyed(seen, map[]));
    }
  }

  lemma FoundTidy(keys: seq<string>, attrs: seq<Attr>, m: map<string, Attr>, seen: seq<Attr>, r: map<string, Attr>)
    requires Orders(keys, attrs, m) && |m| == |r| && |seen| == |attrs|
    requires forall i | 0 <= i < |attrs| :: Lower(attrs[i].name) in r && r[Lower(attrs[i].name)] == seen[i]
    ensures Found(m, r) <==> forall i | 0 <= i < |attrs| :: seen[i] == attrs[i]
  {
    hide Lower;
    if Found(m, r) {
      forall i | 0 <= i < |attrs| ensures seen[i] == attrs[i] {
        assert m[keys[i]] == attrs[i];
      }
    }
    if forall i | 0 <= i < |attrs| :: seen[i] == attrs[i] {
      forall k | k in m ensures Lower(m[k].name) in r && r[Lower(m[k].name)] == m[k] {
        var i :| 0 <= i < |keys| && keys[i] == k;
        assert attrs[i] == m[k];
      }
    }
  }

  /** The attributes of one node. */
  lemma AttrsSource(l: Listing, e: Element)
    requires Lists(l, e)
    ensures var r := ReadAttrs(l.attrs, map[]); r.Some? && Found(e.attrs, r.value) <==> SoundAttrs(e.attrs)
  {
    hide Keyed, Lower, Orders, Distinct, Value, Tidy, ReadAttrs, TidyAttrs, Found;
    var keys :| Orders(keys, l.attrs, e.attrs);
    AttrsFound(keys, l.attrs, e.attrs);
    OrderedSize(keys, l.attrs, e.attrs);
    OrderTidy(keys, l.attrs, e.attrs);
  }

  /** Distinct names and tidy values, at one node. */
  predicate SoundAttrs(m: map<string, Attr>) {
    && (forall j, k | j in m && k in m && j != k :: Lower(m[j].name) != Lower(m[k].name))
    && forall k | k in m :: Tidy(m[k].value, false)
  }

  lemma SoundNode(e: Element)
    ensures Unambiguous(e) && TidyElement(e) <==>
      && SoundAttrs(e.attrs) && Tidy(e.value, false)
      && forall i | 0 <= i < |e.children| :: Unambiguous(e.children[i]) && TidyElement(e.children[i])
  {
    hide Lower, Tidy;
  }

  lemma EqualNode(a: Element, b: Element)
    ensures Equals(a, b) <==>
      && a.name == b.name && a.value == b.value && Found(a.attrs, b.attrs) && |a.children| == |b.children|
      && forall i | 0 <= i < |a.children| :: Equals(a.children[i], b.children[i])
  {
    hide Lower;
  }

  /** The source finds all it had in what is read back exactly when no attribute got lost and every value is tidy. */
  lemma {:induction false} SourceRead(l: Listing, e: Element)
    requires Lists(l, e)
    ensures ReadBack(l).Some? && Equals(e, ReadBack(l).value) <==> Unambiguous(e) && TidyElement(e)
    decreases l
  {
    hide Value, Tidy, ReadAttrs, SoundAttrs, Found, Equals, Unambiguous, TidyElement, Orders;
    AttrsSource(l, e);
    TidyKept(l.value, false);
    ReadBackAllAt(l.children);
    SoundNode(e);
    if ReadBack(l).Some? { EqualNode(e, ReadBack(l).value); }
    forall i | 0 <= i < |l.children|
      ensures ReadBack(l.children[i]).Some? && Equals(e.children[i], ReadBack(l.children[i]).value)
        <==> Unambiguous(e.children[i]) && TidyElement(e.children[i])
    {
      SourceRead(l.children[i], e.children[i]);
    }
  }

  /** A listing reads back as its element exactly when that is well keyed and tidy. */
  lemma ReadsItself(l: Listing, e: Element)
    requires Lists(l, e) && Nameable(e)
    ensures ReadBack(l) == Some(e) <==> WellKeyed(e) && TidyElement(e)
  {
    hide FromString, Document, Nameable, WellKeyed, TidyElement, Lists, Printable, ReadBack;
    NameablePrintable(l, e);
    DocumentReads(l, false, false, false);
    ReadWellKeyed(Document(l, false, false), false);
    if WellKeyed(e) { TidyReads(l, e); }
  }
}
