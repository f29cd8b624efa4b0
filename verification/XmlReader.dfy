/** The reader with its cursor: every step advances it through the text, in place. */
module XmlReader {
  import opened Bytes
  import opened XmlText

  lemma Advance(s: string, at: nat, end: nat)
    requires at < end <= |s|
    ensures s[at..end] != "" && s[at..end][0] == s[at] && s[at..end][1..] == s[at + 1..end]
  {}

  lemma AdvanceRest(s: string, at: nat)
    requires at < |s|
    ensures s[at..] != "" && s[at..][0] == s[at] && s[at..][1..] == s[at + 1..]
  {}

  class Cursor {
    const text: string
    var at: nat

    ghost predicate Valid()
      reads this
    {
      at <= |text|
    }

    ghost function Rest(): string
      requires Valid()
      reads this
    {
      text[at..]
    }

    constructor (text: string)
      ensures Valid() && this.text == text && Rest() == text
    {
      this.text := text;
      at := 0;
    }

    /** Position behind the blanks at the cursor. */
    method AfterBlanks() returns (p: nat)
      requires Valid()
      ensures at <= p <= |text| && text[p..] == SkipBlank(Rest())
    {
      p := at;
      while p < |text| && Blank(text[p])
        invariant at <= p <= |text| && SkipBlank(text[p..]) == SkipBlank(Rest())
      {
        AdvanceRest(text, p);
        p := p + 1;
      }
      if p < |text| { AdvanceRest(text, p); }
    }

    method ParseMatch(token: string) returns (ok: bool)
      requires Valid()
      modifies this`at
      ensures Valid() && ok == Match(old(Rest()), token).Some?
      ensures Rest() == if ok then Match(old(Rest()), token).value else old(Rest())
    {
      var p := AfterBlanks();
      if p == |text| { return false; }
      var i := 0;
      ghost var m := MatchHere(text[p..], token);
      while p < |text| && i < |token|
        invariant at <= p <= |text| && 0 <= i <= |token| && at == old(at)
        invariant MatchHere(text[p..], token[i..]) == m
      {
        AdvanceRest(text, p);
        AdvanceRest(token, i);
        if text[p] != token[i] { return false; }
        p, i := p + 1, i + 1;
      }
      at := p;
      ok := true;
    }

    method ParseIdentifier() returns (name: Option<string>)
      requires Valid()
      modifies this`at
      ensures Valid() && name.Some? == Identifier(old(Rest())).Some?
      ensures name.Some? ==> Identifier(old(Rest())).value == (name.value, Rest())
    {
      var start := AfterBlanks();
      var p := start;
      while p < |text| && NameChar(text[p])
        invariant start <= p <= |text| && NameEnd(text[start..]) == p - start + NameEnd(text[p..]) && at == old(at)
      {
        AdvanceRest(text, p);
        p := p + 1;
      }
      if p < |text| { AdvanceRest(text, p); }
      if p == start { return None; }
      Cut(text, start, p);
      name := Some(text[start..p]);
      at := p;
    }

    /** A numeric reference, with the cursor behind its number sign. */
    method ReadNumeric(end: nat) returns (add: string, more: bool)
      requires at <= end <= |text| && 0 < at && text[at - 1] == '#' && Named(text[at - 1..end]).None?
      modifies this`at
      ensures old(at) <= at <= end && (add, at - old(at) + 1, more) == Reference(text[old(at) - 1..end])
    {
      hide Number, Named;
      Advance(text, at - 1, end);
      if at == end { return "", false; }
      Advance(text, at, end);
      if !Digit(text[at]) { return "", false; }
      add := [(Number(text[at..end], 0) % 256) as char];
      at := Semicolon(end);
      more := at < end;
      if more { at := at + 1; }
    }

    /** Position of the next semicolon before end, or end. */
    method Semicolon(end: nat) returns (p: nat)
      requires at <= end <= |text|
      ensures at <= p <= end && p == at + Find(text[at..end], ';') && (p < end ==> text[p] == ';')
    {
      p := at;
      while p < end && text[p] != ';'
        invariant at <= p <= end && Find(text[at..end], ';') == p - at + Find(text[p..end], ';')
      {
        Advance(text, p, end);
        p := p + 1;
      }
      if p < end { Advance(text, p, end); }
    }

    /** One reference, with the cursor behind its ampersand: what it adds, and whether reading goes on. */
    method ReadReference(end: nat) returns (add: string, more: bool)
      requires Valid() && at < end <= |text|
      modifies this`at
      ensures old(at) <= at <= end && (add, at - old(at), more) == Reference(text[old(at)..end])
    {
      hide Named, Number;
      Advance(text, at, end);
      var named := Named(text[at..end]);
      if named.Some? {
        add, more := [named.value.0], true;
        at := at + named.value.1;
      } else if text[at] == '#' {
        at := at + 1;
        hide Reference;
        add, more := ReadNumeric(end);
      } else {
        add, more := "&", true;
      }
    }

    method SkipSpaces(end: nat)
      requires at < end <= |text| && Space(text[at])
      modifies this`at
      ensures old(at) < at <= end && text[at..end] == SkipSpace(text[old(at)..end])
      ensures at < end ==> !Space(text[at])
    {
      ghost var s := text[at..end];
      Advance(text, at, end);
      while at < end && Space(text[at])
        invariant old(at) <= at <= end && SkipSpace(text[at..end]) == SkipSpace(s)
      {
        Advance(text, at, end);
        at := at + 1;
      }
      if at < end { Advance(text, at, end); }
    }

    /** An ampersand and what belongs to it; more is false when reading ends here. */
    method Ampersand(stored: string, end: nat) returns (value: string, more: bool)
      requires at < end <= |text| && text[at] == '&'
      modifies this`at
      ensures old(at) < at <= end
      ensures Outcome(stored, text[old(at)..end]) == if more then Outcome(value, text[at..end]) else (value, text[at..end])
    {
      hide Value, Reference;
      ghost var t := text[at..end];
      Advance(text, at, end);
      at := at + 1;
      if at == end {
        LastAmpersand(t, stored != "");
        assert stored + "" == stored;
        return stored, false;
      }
      AmpersandStep(stored, t, stored != "");
      var add: string;
      add, more := ReadReference(end);
      Drop(text, old(at), at - old(at), end);
      value := stored + add;
    }

    /** StringToValue on the next length characters; the cursor stops where reading stopped. */
    method StringToValue(length: nat) returns (value: string)
      requires Valid() && at + length <= |text|
      modifies this`at
      ensures Valid()
      ensures var (v, u) := Value(old(text[at..at + length]), false); value == v && at == old(at) + length - |u|
    {
      hide Outcome, SkipSpace, Space, Value;
      value := "";
      var end := at + length;
      ghost var all := Value(text[at..end], false);
      NothingStored(text[at..end]);
      while at < end
        invariant at <= end <= |text| && all == Outcome(value, text[at..end])
        decreases end - at
      {
        Advance(text, at, end);
        if Space(text[at]) {
          SpaceStep(value, text[at..end]);
          if value != "" { value := value + " "; }
          SkipSpaces(end);
          if at == end { break; }
        }
        Advance(text, at, end);
        if text[at] == '&' {
          var more;
          value, more := Ampersand(value, end);
          if !more { return; }
        } else {
          CharStep(value, text[at..end]);
          value := value + [text[at]];
          at := at + 1;
        }
      }
      NothingLeft(value, text[at..end]);
    }
  }

  /** What reading comes to, with stored already stored and s to go. */
  function Outcome(stored: string, s: string): (string, string) {
    var (v, u) := Value(s, stored != "");
    (stored + v, u)
  }

  lemma NothingStored(s: string)
    ensures Outcome("", s) == Value(s, false)
  {
    assert "" + Value(s, false).0 == Value(s, false).0;
  }

  lemma NothingLeft(stored: string, s: string)
    requires s == ""
    ensures Outcome(stored, s) == (stored, "")
  {
    assert stored + "" == stored;
  }

  lemma LastAmpersand(t: string, started: bool)
    requires |t| == 1 && t[0] == '&'
    ensures Value(t, started) == ("", "")
  {}

  lemma Cut(s: string, a: nat, b: nat)
    requires a <= b <= |s|
    ensures s[a..][..b - a] == s[a..b] && s[a..][b - a..] == s[b..]
  {}

  lemma Drop(s: string, a: nat, n: nat, end: nat)
    requires a + n <= end <= |s|
    ensures s[a..end][n..] == s[a + n..end]
  {}

  lemma Joins(a: string, b: string, c: string)
    ensures a + b + c == a + (b + c)
  {}

  lemma AmpersandStep(stored: string, t: string, started: bool)
    requires |t| > 1 && t[0] == '&'
    ensures var (a, n, more) := Reference(t[1..]);
      && (more ==> stored + Value(t, started).0 == stored + a + Value(t[1 + n..], true).0 && Value(t, started).1 == Value(t[1 + n..], true).1)
      && (!more ==> Value(t, started) == (a, t[1 + n..]))
      && (more ==> a != "")
  {
    var (a, n, more) := Reference(t[1..]);
    if more { Joins(stored, a, Value(t[1 + n..], true).0); }
  }

  /** White space is stored as one space, when something stands before it. */
  lemma SpaceStep(stored: string, s: string)
    requires s != "" && Space(s[0])
    ensures Outcome(stored, s) == Outcome(if stored != "" then stored + " " else stored, SkipSpace(s))
  {
    var t := SkipSpace(s);
    if stored != "" { Joins(stored, " ", Value(t, true).0); }
  }

  lemma CharStep(stored: string, t: string)
    requires t != "" && !Space(t[0]) && t[0] != '&'
    ensures Outcome(stored, t) == Outcome(stored + [t[0]], t[1..])
  {
    Joins(stored, [t[0]], Value(t[1..], true).0);
  }
}
