/** Elements as objects: read, printed, copied and compared with their attribute maps and child lists. */
module XmlElements {
  import opened Bytes
  import opened XmlText
  import opened XmlTree
  import opened XmlEquality
  import opened XmlReader
  import opened XmlParser
  import opened XmlPrinter

  class XmlElement {
    var name: string
    var attrs: map<string, Attr>
    var value: string
    var children: seq<XmlElement>
    var parent: XmlElement?
    /** The element as a value, and all elements of its tree. */
    ghost var tree: Element
    ghost var repr: set<XmlElement>

    /** The children's trees are apart from each other and from this element. */
    ghost predicate Apart()
      reads this`children, this`repr, children`repr
    {
      && this in repr
      && (forall i | 0 <= i < |children| :: children[i] in repr && children[i].repr <= repr && this !in children[i].repr)
      && (forall i, j | 0 <= i < j < |children| :: children[i].repr !! children[j].repr)
    }

    /** Every element of the tree is this one or in the tree of a child. */
    ghost predicate Covered()
      reads this`children, this`repr, children`repr
    {
      forall x | x in repr :: x == this || exists i :: 0 <= i < |children| && x in children[i].repr
    }

    ghost predicate Shown()
      reads this`name, this`attrs, this`value, this`children, this`tree, children`tree
    {
      && tree == Element(name, attrs, value, tree.children) && |tree.children| == |children|
      && forall i | 0 <= i < |children| :: tree.children[i] == children[i].tree
    }

    /** The children are valid, without looking at this element's other fields. */
    ghost predicate Offspring()
      reads this`children, this`repr
      reads (repr - {this})`name, (repr - {this})`attrs, (repr - {this})`value
      reads (repr - {this})`children, (repr - {this})`tree, (repr - {this})`repr
      decreases repr, 0
    {
      this in repr && forall i | 0 <= i < |children| ::
        children[i] in repr - {this} && children[i].repr <= repr - {this} && children[i].Valid()
    }

    ghost predicate Valid()
      reads this`name, this`attrs, this`value, this`children, this`tree, this`repr
      reads repr`name, repr`attrs, repr`value, repr`children, repr`tree, repr`repr
      decreases repr, 1
    {
      Offspring() && Apart() && Covered() && Shown()
    }

    lemma ValidIs()
      ensures Valid() <==> Offspring() && Apart() && Covered() && Shown()
    {
      hide Offspring, Apart, Covered, Shown;
    }

    constructor (parent: XmlElement?, name: string)
      ensures Valid() && repr == {this} && tree == Element(name, map[], "", []) && this.parent == parent
      ensures this.name == name && attrs == map[] && value == "" && children == []
    {
      this.name, attrs, value, children, this.parent := name, map[], "", [], parent;
      tree, repr := Element(name, map[], "", []), {this};
    }

    /** From the previous state to this one the tree of the child has become the last one here. */
    twostate predicate Grown(child: XmlElement)
      reads this, repr
    {
      && old(Offspring() && Apart() && Covered() && Shown() && child.Valid() && child in child.repr && repr !! child.repr)
      && children == old(children) + [child] && repr == old(repr) + old(child.repr)
      && tree == old(tree).(children := old(tree).children + [old(child.tree)])
      && name == old(name) && attrs == old(attrs) && value == old(value)
      && forall x | x in old(repr) + old(child.repr) && x != this :: unchanged(x)
    }

    twostate lemma OffspringGrown(child: XmlElement)
      requires Grown(child)
      ensures Offspring()
    {
      hide Covered, Shown, Valid;
      forall i | 0 <= i < |children|
        ensures children[i] in repr - {this} && children[i].repr <= repr - {this} && children[i].Valid()
      {
        if i < |old(children)| {
          assert old(children[i].Valid() && children[i] in repr - {this} && children[i].repr <= repr - {this});
        } else {
          assert children[i] == child && old(child.Valid());
        }
      }
    }

    twostate lemma ApartGrown(child: XmlElement)
      requires Grown(child)
      ensures Apart() && Shown()
    {
      hide Covered, Valid;
    }

    twostate lemma PartsGrown(child: XmlElement)
      requires Grown(child)
      ensures |children| == |old(children)| + 1 && children[|old(children)|].repr == old(child.repr)
      ensures forall i | 0 <= i < |old(children)| :: children[i].repr == old(children[i].repr)
    {
      hide Shown, Covered, Valid;
    }

    twostate lemma CoveredGrown(child: XmlElement)
      requires old(Covered()) && repr == old(repr) + old(child.repr)
      requires |children| == |old(children)| + 1 && children[|old(children)|].repr == old(child.repr)
      requires forall i | 0 <= i < |old(children)| :: children[i].repr == old(children[i].repr)
      ensures Covered()
    {
      forall x | x in repr ensures x == this || exists i :: 0 <= i < |children| && x in children[i].repr {
        if x in old(child.repr) {
          assert x in children[|old(children)|].repr;
        } else if x != this {
          var i :| 0 <= i < |old(children)| && x in old(children[i].repr);
          assert x in children[i].repr;
        }
      }
    }

    /** One more child at the end of the list. */
    method AddTail(child: XmlElement)
      requires Valid() && child.Valid() && repr !! child.repr
      modifies this`children, this`tree, this`repr
      ensures Valid() && children == old(children) + [child] && repr == old(repr) + child.repr
      ensures tree == old(tree).(children := old(tree).children + [child.tree])
    {
      hide Valid, Offspring, Apart, Covered, Shown;
      ValidIs();
      child.ValueIs();
      children := children + [child];
      tree := tree.(children := tree.children + [child.tree]);
      repr := repr + child.repr;
      OffspringGrown(child);
      ApartGrown(child);
      PartsGrown(child);
      CoveredGrown(child);
      ValidIs();
    }

    /** AddElement by name: a new child of that name, whose parent this is, at the end of the list. */
    method AddNewElement(name: string) returns (child: XmlElement)
      requires Valid()
      modifies this`children, this`tree, this`repr
      ensures Valid() && fresh(child) && child.parent == this && child.tree == Element(name, map[], "", [])
      ensures children == old(children) + [child] && repr == old(repr) + {child}
      ensures tree == old(tree).(children := old(tree).children + [child.tree])
    {
      hide Valid;
      child := new XmlElement(this, name);
      AddTail(child);
    }

    /** AddElement with an element object: refused when it has a parent already, wherever it stands. */
    method AddElement(child: XmlElement) returns (added: bool)
      requires Valid() && (child.parent == null ==> child.Valid() && repr !! child.repr)
      modifies this`children, this`tree, this`repr, child`parent
      ensures Valid() && added == (old(child.parent) == null)
      ensures added ==> children == old(children) + [child] && child.parent == this && repr == old(repr) + child.repr
      ensures added ==> tree == old(tree).(children := old(tree).children + [child.tree])
      ensures !added ==> children == old(children) && tree == old(tree) && repr == old(repr) && child.parent == old(child.parent)
    {
      hide Valid;
      if child.parent != null { return false; }
      AddTail(child);
      child.parent := this;
      added := true;
    }

    method SetValue(v: string)
      requires Valid()
      modifies this`value, this`tree
      ensures Valid() && value == v && tree == old(tree).(value := v)
    {
      hide Valid, Offspring, Apart, Covered;
      ValidIs();
      value := v;
      tree := tree.(value := v);
      ValidIs();
    }

    method SetStart(name: string, attrs: map<string, Attr>)
      requires Valid()
      modifies this`name, this`attrs, this`tree
      ensures Valid() && this.name == name && this.attrs == attrs && tree == old(tree).(name := name, attrs := attrs)
    {
      hide Valid, Offspring, Apart, Covered;
      ValidIs();
      this.name, this.attrs := name, attrs;
      tree := tree.(name := name, attrs := attrs);
      ValidIs();
    }

    /** CXMLElement::ParseString on a new element; when it fails the element is of no further use. */
    method ParseString(cursor: Cursor) returns (ok: bool)
      requires Valid() && repr == {this} && tree == Element(name, map[], "", []) && cursor.Valid()
      modifies this`name, this`attrs, this`value, this`children, this`tree, this`repr, cursor`at
      ensures cursor.Valid() && ok == ParseElement(old(cursor.Rest())).Some?
      ensures ok ==> Valid() && fresh(repr - {this}) && ParseElement(old(cursor.Rest())).value == (tree, cursor.Rest())
      decreases |cursor.Rest()|, 0
    {
      hide Match, Identifier, ParseAttrs, ParseContent, Valid;
      var open := cursor.ParseMatch("<");
      if !open { return false; }
      var id := cursor.ParseIdentifier();
      if id.None? { return false; }
      var tag := ParseAttributes(cursor);
      if tag.None? { return false; }
      SetStart(id.value, tag.value.0);
      if !tag.value.1 { return true; }
      ok := ParseInner(cursor);
    }

    /** The content loop: text, comments and children until the end tag. */
    method ParseInner(cursor: Cursor) returns (ok: bool)
      requires Valid() && repr == {this} && tree == Element(name, attrs, "", []) && cursor.Valid()
      modifies this`value, this`children, this`tree, this`repr, cursor`at
      ensures cursor.Valid() && ok == ParseContent(old(cursor.Rest()), name, "", []).Some?
      ensures ok ==> Valid() && fresh(repr - {this}) && tree.name == name && tree.attrs == attrs
      ensures ok ==> ParseContent(old(cursor.Rest()), name, "", []).value == (tree.value, tree.children, cursor.Rest())
      decreases |cursor.Rest()|, 2
    {
      hide Match, ParseText, ParseElement, FindText, Valid, Offspring, Apart, Covered, Shown;
      ghost var s0 := cursor.Rest();
      ghost var goal := ParseContent(s0, name, "", []);
      ValueIs();
      while true
        invariant cursor.Valid() && |cursor.Rest()| <= |s0|
        invariant Valid() && fresh(repr - {this}) && tree.name == name && tree.attrs == attrs && tree.value == value
        invariant goal == ParseContent(cursor.Rest(), name, tree.value, tree.children)
        decreases |cursor.Rest()|
      {
        var text := ReadText(cursor, value);
        if text.None? { return false; }
        SetValue(text.value);
        var close := cursor.ParseMatch("</" + name + ">");
        if close { return true; }
        var comment := cursor.ParseMatch("<!--");
        if comment {
          var found := SkipPast(cursor, "-->");
          if !found { return false; }
        } else {
          var parsed := ParseChild(cursor);
          if !parsed { return false; }
        }
      }
    }

    /** One child element in the content, read into a new object at the end of the list. */
    method ParseChild(cursor: Cursor) returns (ok: bool)
      requires Valid() && cursor.Valid()
      modifies this`children, this`tree, this`repr, cursor`at
      ensures cursor.Valid() && Valid() && ok == ParseElement(old(cursor.Rest())).Some? && fresh(repr - old(repr))
      ensures ok ==> var c := ParseElement(old(cursor.Rest())).value;
        tree == old(tree).(children := old(tree).children + [c.0]) && cursor.Rest() == c.1
      decreases |cursor.Rest()|, 1
    {
      hide ParseElement, Valid, Offspring, Apart, Covered, Shown;
      var child := new XmlElement(this, "");
      ok := child.ParseString(cursor);
      if ok { AddTail(child); }
    }

    /** The element goes to the end of the text; l tells the attribute orders that were used. */
    method PrintTo(newline: bool, out: string) returns (s: string, ghost l: Listing)
      requires Valid()
      ensures Lists(l, tree) && s == out + Print(l, newline)
      decreases repr, 1
    {
      hide PrintAttrs, Print, PrintAll, Lists, Orders, Valid, Offspring, Apart, Covered, Shown;
      ValueIs();
      s := out + "<";
      s := s + name;
      ghost var keys, listed;
      s, keys, listed := PrintAttributes(attrs, s);
      if children == [] && value == "" {
        s := s + "/>";
        NoBreak(s);
        if newline { s := s + "\r\n"; }
        l := Listing(name, listed, "", []);
        LeafPrinted(tree, l, keys, newline, out);
        return;
      }
      s := s + ">";
      NoBreak(s);
      if newline && children != [] { s := s + "\r\n"; }
      ghost var ls;
      s, ls := PrintChildren(newline, s);
      s := s + value;
      s := s + ("</" + name + ">");
      NoBreak(s);
      if newline { s := s + "\r\n"; }
      l := Listing(name, listed, value, ls);
      NodePrinted(tree, l, keys, newline, out);
    }

    /** The child loop of ToString. */
    method PrintChildren(newline: bool, out: string) returns (s: string, ghost ls: seq<Listing>)
      requires Valid()
      ensures |ls| == |tree.children| && (forall i | 0 <= i < |ls| :: Lists(ls[i], tree.children[i]))
      ensures s == out + PrintAll(ls, newline)
      decreases repr, 0
    {
      hide Print, Lists, PrintAll, Valid, Offspring, Apart, Covered, Shown;
      ValueIs();
      s, ls := out, [];
      NoneListed(newline, out);
      var i := 0;
      while i < |children|
        invariant 0 <= i == |ls| <= |children| && forall j | 0 <= j < i :: Lists(ls[j], tree.children[j])
        invariant s == out + PrintAll(ls, newline)
      {
        ghost var l: Listing;
        ghost var p := PrintAll(ls, newline);
        ChildIs(i);
        s, l := children[i].PrintTo(newline, s);
        PrintAllSnoc(ls, l, newline);
        Grouped(out, p, Print(l, newline));
        ls := ls + [l];
        i := i + 1;
      }
    }

    /** CXMLElement::ToString: with header and first line break, a document of some listing of the element. */
    method ToString(header: bool, newline: bool) returns (s: string)
      requires Valid()
      ensures exists l :: Lists(l, tree) && s == Document(l, header, newline)
    {
      hide Print, Lists, Valid;
      s := "";
      if header { s := HEADER; }
      NoBreak(s);
      if newline { s := s + "\r\n"; }
      ghost var l;
      s, l := PrintTo(newline, s);
    }

    method SetAt(key: string, a: Attr)
      requires Valid()
      modifies this`attrs, this`tree
      ensures Valid() && attrs == old(attrs)[key := a] && tree == old(tree).(attrs := attrs)
    {
      hide Valid, Offspring, Apart, Covered;
      ValidIs();
      attrs := attrs[key := a];
      tree := tree.(attrs := attrs);
      ValidIs();
    }

    /** AddAttribute by name: the attribute of that name in any case gets the value, or a new one is stored. */
    method AddAttribute(name: string, v: Option<string>)
      requires Valid()
      modifies this`attrs, this`tree
      ensures Valid() && tree == old(tree).(attrs := attrs)
      ensures var k := Lower(name);
        var a := if k in old(attrs) then old(attrs)[k] else Attr(name, "");
        attrs == old(attrs)[k := if v.Some? then a.(value := v.value) else a]
      ensures WellKeyed(old(tree)) ==> WellKeyed(tree)
    {
      hide Lower;
      ValueIs();
      var k := Lower(name);
      var a := if k in attrs then attrs[k] else Attr(name, "");
      SetAt(k, if v.Some? then a.(value := v.value) else a);
    }

    /**
     * AddAttribute with an attribute object: refused when it belongs to an element already, else stored under
     * its name as written, whatever the case.
     */
    method AddAttributeObject(a: Attr, owned: bool) returns (added: bool)
      requires Valid()
      modifies this`attrs, this`tree
      ensures Valid() && added == !owned && tree == old(tree).(attrs := attrs)
      ensures attrs == if owned then old(attrs) else old(attrs)[a.name := a]
      ensures !owned && WellKeyed(old(tree)) ==> (WellKeyed(tree) <==> a.name == Lower(a.name))
    {
      hide Lower;
      ValueIs();
      if owned { return false; }
      SetAt(a.name, a);
      assert a.name in tree.attrs;
      added := true;
    }

    /** The attribute loop of Clone: stored again under lower-case names, in the order the map yields. */
    method CloneAttributes(m: map<string, Attr>) returns (ghost keys: seq<string>, ghost taken: seq<Attr>)
      requires Valid() && attrs == map[]
      modifies this`attrs, this`tree
      ensures Valid() && Orders(keys, taken, m) && attrs == Keyed(taken, map[]) && tree == old(tree).(attrs := attrs)
    {
      hide Valid, Orders, Iterating, Keyed, Lower;
      keys, taken := [], [];
      var left := m.Keys;
      Begun(m, "");
      NoneKeyed();
      ValueIs();
      while left != {}
        invariant left <= m.Keys && Iterating(keys, taken, left, m) && Valid()
        invariant attrs == Keyed(taken, map[]) && tree == old(tree).(attrs := attrs)
      {
        var k :| k in left;
        var a := m[k];
        Took(keys, taken, left, m, k);
        KeyedSnoc(taken, a, map[]);
        SetAt(Lower(a.name), a);
        keys, taken, left := keys + [k], taken + [a], left - {k};
      }
      Finished(keys, taken, m);
    }

    lemma ChildIs(i: nat)
      requires Valid() && i < |children|
      ensures children[i].Valid() && children[i] in repr && children[i].repr < repr
      ensures children[i] != this && children[i] in children[i].repr
      ensures |tree.children| == |children| && tree.children[i] == children[i].tree
    {}

    /** CXMLElement::Clone: a tree of new objects. */
    method Clone(parent: XmlElement?) returns (c: XmlElement, ghost l: Listing)
      requires Valid()
      ensures fresh(c.repr) && c.Valid() && c.parent == parent
      ensures Lists(l, tree) && c.tree == Listed(l)
      ensures WellKeyed(tree) ==> c.tree == tree
      decreases repr
    {
      hide Lists, Orders, Keyed, Listed, WellKeyed, ListedAll, Valid, Apart, Covered, Shown;
      ValueIs();
      ghost var keys, taken;
      c := new XmlElement(parent, name);
      keys, taken := c.CloneAttributes(attrs);
      NoneKeyed();
      ghost var ls: seq<Listing> := [];
      var i := 0;
      while i < |children|
        invariant 0 <= i == |ls| <= |children| && forall j | 0 <= j < i :: Lists(ls[j], tree.children[j])
        invariant fresh(c) && c.Valid() && fresh(c.repr) && c.parent == parent
        invariant c.tree == Element(name, Keyed(taken, map[]), "", ListedAll(ls))
      {
        ghost var x;
        var child;
        ChildIs(i);
        child, x := children[i].Clone(c);
        c.AddTail(child);
        ListedSnoc(ls, x);
        ls, i := ls + [x], i + 1;
      }
      c.SetValue(value);
      l := Listing(name, taken, value, ls);
      Cloned(tree, l, keys);
    }

    /** Every element of a tree is the root of a tree in it. */
    lemma Inside(x: XmlElement)
      requires Valid() && x in repr
      ensures x.Valid() && x.repr <= repr
      ensures x != this ==> this !in x.repr && exists i :: 0 <= i < |children| && x in children[i].repr
      decreases repr
    {
      if x != this {
        var i :| 0 <= i < |children| && x in children[i].repr;
        children[i].Inside(x);
      }
    }

    /** Two trees apart from each other, or one inside the other. */
    ghost predicate Unshared(other: XmlElement)
      reads this`repr, other`repr
    {
      repr !! other.repr || (other != this && (other in repr || this in other.repr))
    }

    /** An inner tree and the tree around it have no children in common that stand at the same place. */
    lemma ChildAround(inner: XmlElement, i: nat)
      requires Valid() && inner in repr && inner != this && i < |children| && inner.Valid() && i < |inner.children|
      ensures children[i] != inner.children[i]
      ensures children[i].repr !! inner.children[i].repr || inner.children[i] in children[i].repr
    {
      hide Shown, Valid, Offspring, Covered;
      ValidIs();
      Inside(inner);
      ChildIs(i);
      inner.ChildIs(i);
      inner.Inside(inner.children[i]);
      var j :| 0 <= j < |children| && inner in children[j].repr;
      ChildIs(j);
      children[j].Inside(inner);
    }

    lemma ChildUnshared(other: XmlElement, i: nat)
      requires Valid() && other.Valid() && Unshared(other) && i < |children| && i < |other.children|
      ensures children[i] != other.children[i] && children[i].Unshared(other.children[i])
    {
      if repr !! other.repr {
        assert children[i] in repr && other.children[i] in other.repr;
      } else if other in repr {
        ChildAround(other, i);
      } else {
        other.ChildAround(this, i);
      }
    }

    /**
     * CXMLElement::Equals with any element. An element is equal to itself without a comparison, so the result
     * can differ from the comparison only where two trees share an ill-keyed child.
     */
    method Equals(other: XmlElement?) returns (same: bool)
      requires Valid() && (other != null ==> other.Valid())
      ensures other == null ==> !same
      ensures other == this ==> same
      ensures other != null && XmlTree.Equals(tree, other.tree) ==> same
      ensures other != null && same && (WellKeyed(tree) || Unshared(other)) ==> XmlTree.Equals(tree, other.tree)
      decreases repr
    {
      hide Lower, Unshared, Valid, Apart, Covered, Shown;
      ValueIs();
      if other == null { return false; }
      other.ValueIs();
      if other == this {
        SelfEquals();
        return true;
      }
      if name != other.name { return false; }
      if value != other.value { return false; }
      if |attrs| != |other.attrs| { return false; }
      if |children| != |other.children| { return false; }
      var left := attrs.Keys;
      while left != {}
        invariant left <= attrs.Keys
        invariant forall k | k in attrs && k !in left ::
          Lower(attrs[k].name) in other.attrs && other.attrs[Lower(attrs[k].name)] == attrs[k]
      {
        var k :| k in left;
        var x := attrs[k];
        if Lower(x.name) !in other.attrs { return false; }
        if other.attrs[Lower(x.name)] != x { return false; }
        left := left - {k};
      }
      var i := 0;
      while i < |children|
        invariant 0 <= i <= |children|
        invariant WellKeyed(tree) || Unshared(other) ==> forall j | 0 <= j < i :: XmlTree.Equals(tree.children[j], other.tree.children[j])
      {
        ChildIs(i);
        other.ChildIs(i);
        if Unshared(other) { ChildUnshared(other, i); }
        var equal := children[i].Equals(other.children[i]);
        if !equal { return false; }
        i := i + 1;
      }
      same := true;
    }

    lemma SelfEquals()
      requires Valid()
      ensures WellKeyed(tree) ==> XmlTree.Equals(tree, tree)
      ensures !Unshared(this)
    {
      if WellKeyed(tree) { EqualsIff(tree, tree); }
    }

    lemma ValueIs()
      requires Valid()
      ensures tree.value == value && tree.name == name && tree.attrs == attrs && |tree.children| == |children| && this in repr
    {}
  }

  lemma Grouped(a: string, b: string, c: string)
    ensures a + b + c == a + (b + c)
  {}

  lemma Parsed(s: string, header: bool)
    ensures FromString(s, header).Some? == (Prolog(s, header).Some? && ParseElement(Prolog(s, header).value).Some?)
    ensures FromString(s, header).Some? ==> FromString(s, header) == Some(ParseElement(Prolog(s, header).value).value.0)
  {
    hide Prolog, ParseElement;
  }

  /** CXMLElement::FromString: whatever the text is, reading it ends; null when it is no document. */
  method FromText(text: string, header: bool) returns (e: XmlElement?)
    ensures (e == null) == FromString(text, header).None?
    ensures e != null ==> fresh(e.repr) && e.Valid() && FromString(text, header) == Some(e.tree)
  {
    hide Prolog, ParseElement, FromString;
    Parsed(text, header);
    var cursor := new Cursor(text);
    var ok := PassProlog(cursor, header);
    if !ok { return null; }
    e := ReadNew(cursor);
  }

  /** An element read at the cursor into new objects. */
  method ReadNew(cursor: Cursor) returns (e: XmlElement?)
    requires cursor.Valid()
    modifies cursor`at
    ensures (e == null) == ParseElement(old(cursor.Rest())).None?
    ensures e != null ==> fresh(e.repr) && e.Valid() && e.tree == ParseElement(old(cursor.Rest())).value.0
  {
    hide ParseElement;
    e := new XmlElement(null, "");
    var ok := e.ParseString(cursor);
    if !ok { e := null; }
  }
}
