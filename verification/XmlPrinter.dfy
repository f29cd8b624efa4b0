/** Iterating over attribute maps and child lists, in whatever order: what printing and copying build up. */
module XmlPrinter {
  import opened XmlText
  import opened XmlTree
  import opened XmlEquality

  lemma {:induction false} PrintAttrsSnoc(attrs: seq<Attr>, a: Attr)
    ensures PrintAttrs(attrs + [a]) == PrintAttrs(attrs) + (" " + a.name + "=\"" + a.value + "\"")
    decreases |attrs|
  {
    if attrs == [] {
      assert [a][1..] == [] && attrs + [a] == [a];
      var x := " " + a.name + "=\"" + a.value + "\"";
      assert x + "" == x && "" + x == x;
    } else {
      assert (attrs + [a])[1..] == attrs[1..] + [a];
      PrintAttrsSnoc(attrs[1..], a);
    }
  }

  lemma {:induction false} PrintAllSnoc(ls: seq<Listing>, l: Listing, newline: bool)
    ensures PrintAll(ls + [l], newline) == PrintAll(ls, newline) + Print(l, newline)
    decreases |ls|
  {
    hide Print;
    if ls == [] {
      assert [l][1..] == [] && ls + [l] == [l];
      var x := Print(l, newline);
      assert x + "" == x && "" + x == x;
    } else {
      assert (ls + [l])[1..] == ls[1..] + [l];
      PrintAllSnoc(ls[1..], l, newline);
    }
  }

  /** The attributes taken so far, in the order taken, and the keys still to come. */
  ghost predicate Iterating(keys: seq<string>, attrs: seq<Attr>, left: set<string>, m: map<string, Attr>) {
    && |keys| == |attrs| && (forall i, j | 0 <= i < j < |keys| :: keys[i] != keys[j])
    && (forall k | k in m :: k in keys || k in left) && (forall k | k in left :: k in m && k !in keys)
    && forall i | 0 <= i < |keys| :: keys[i] in m && attrs[i] == m[keys[i]]
  }

  lemma Took(keys: seq<string>, attrs: seq<Attr>, left: set<string>, m: map<string, Attr>, k: string)
    requires Iterating(keys, attrs, left, m) && k in left
    ensures Iterating(keys + [k], attrs + [m[k]], left - {k}, m)
  {}

  lemma Begun(m: map<string, Attr>, out: string)
    ensures Iterating([], [], m.Keys, m) && out + PrintAttrs([]) == out
  {}

  lemma Finished(keys: seq<string>, attrs: seq<Attr>, m: map<string, Attr>)
    requires Iterating(keys, attrs, {}, m)
    ensures Orders(keys, attrs, m)
  {}

  /** The attribute loop of ToString: whatever order the map yields. */
  method PrintAttributes(m: map<string, Attr>, out: string) returns (s: string, ghost keys: seq<string>, ghost attrs: seq<Attr>)
    ensures Orders(keys, attrs, m) && s == out + PrintAttrs(attrs)
  {
    hide PrintAttrs, Iterating, Orders;
    s, keys, attrs := out, [], [];
    var left := m.Keys;
    Begun(m, out);
    while left != {}
      invariant left <= m.Keys && Iterating(keys, attrs, left, m)
      invariant s == out + PrintAttrs(attrs)
    {
      var k :| k in left;
      var a := m[k];
      s := s + " ";
      s := s + a.name + "=\"";
      s := s + a.value;
      s := s + "\"";
      Took(keys, attrs, left, m, k);
      PrintAttrsSnoc(attrs, a);
      Quoting(out, PrintAttrs(attrs), a.name, a.value);
      keys, attrs, left := keys + [k], attrs + [a], left - {k};
    }
    Finished(keys, attrs, m);
  }

  lemma Quoting(out: string, p: string, name: string, value: string)
    ensures out + p + " " + (name + "=\"") + value + "\"" == out + (p + (" " + name + "=\"" + value + "\""))
    ensures out + p + " " + name + "=\"" + value + "\"" == out + (p + (" " + name + "=\"" + value + "\""))
  {}

  lemma LeafPrinted(e: Element, l: Listing, keys: seq<string>, newline: bool, out: string)
    requires e.children == [] && e.value == "" && Orders(keys, l.attrs, e.attrs) && l == Listing(e.name, l.attrs, "", [])
    ensures Lists(l, e)
    ensures out + "<" + e.name + PrintAttrs(l.attrs) + "/>" + EndLine(newline) == out + Print(l, newline)
  {
    hide PrintAttrs, Orders, EndLine;
    var a, z := PrintAttrs(l.attrs), EndLine(newline);
    assert out + "<" + e.name + a + "/>" + z == out + ("<" + e.name + a + ("/>" + z));
  }

  lemma NodePrinted(e: Element, l: Listing, keys: seq<string>, newline: bool, out: string)
    requires (e.children != [] || e.value != "") && Orders(keys, l.attrs, e.attrs)
    requires l == Listing(e.name, l.attrs, e.value, l.children) && |l.children| == |e.children|
    requires forall i | 0 <= i < |e.children| :: Lists(l.children[i], e.children[i])
    ensures Lists(l, e)
    ensures out + "<" + e.name + PrintAttrs(l.attrs) + ">" + EndLine(newline && e.children != []) + PrintAll(l.children, newline)
      + e.value + ("</" + e.name + ">") + EndLine(newline) == out + Print(l, newline)
  {
    hide PrintAttrs, PrintAll, Orders, EndLine;
    var a, b, c, z := PrintAttrs(l.attrs), EndLine(newline && e.children != []), PrintAll(l.children, newline), EndLine(newline);
    NodeShape(out, e.name, a, b, c, e.value, z);
  }

  lemma NodeShape(out: string, name: string, a: string, b: string, c: string, v: string, z: string)
    ensures out + "<" + name + a + ">" + b + c + v + ("</" + name + ">") + z
      == out + ("<" + name + a + (">" + b + c + v + "</" + name + ">" + z))
  {}

  lemma NoBreak(s: string)
    ensures s + EndLine(false) == s
  {}

  lemma NoneListed(newline: bool, out: string)
    ensures out + PrintAll([], newline) == out
  {}

  // ---------------------------------------------------------------- copies

  lemma NoneKeyed()
    ensures Keyed([], map[]) == map[] && ListedAll([]) == []
  {}

  lemma {:induction false} KeyedSnoc(attrs: seq<Attr>, a: Attr, acc: map<string, Attr>)
    ensures Keyed(attrs + [a], acc) == Keyed(attrs, acc)[Lower(a.name) := a]
    decreases |attrs|
  {
    hide Lower;
    if attrs == [] {
      assert attrs + [a] == [a] && [a][1..] == [];
    } else {
      assert (attrs + [a])[1..] == attrs[1..] + [a];
      KeyedSnoc(attrs[1..], a, acc[Lower(attrs[0].name) := attrs[0]]);
    }
  }

  lemma {:induction false} ListedSnoc(ls: seq<Listing>, l: Listing)
    ensures ListedAll(ls + [l]) == ListedAll(ls) + [Listed(l)]
    decreases |ls|
  {
    hide Listed;
    if ls == [] {
      assert ls + [l] == [l] && [l][1..] == [];
    } else {
      assert (ls + [l])[1..] == ls[1..] + [l];
      ListedSnoc(ls[1..], l);
    }
  }

  lemma Cloned(e: Element, l: Listing, keys: seq<string>)
    requires l.name == e.name && l.value == e.value && Orders(keys, l.attrs, e.attrs) && |l.children| == |e.children|
    requires forall i | 0 <= i < |e.children| :: Lists(l.children[i], e.children[i])
    ensures Lists(l, e) && Listed(l) == Element(e.name, Keyed(l.attrs, map[]), e.value, ListedAll(l.children))
    ensures WellKeyed(e) ==> Listed(l) == e
  {
    hide Orders, Keyed, ListedAll, WellKeyed;
    assert Lists(l, e);
    if WellKeyed(e) { ListedIs(l, e); }
  }
}
