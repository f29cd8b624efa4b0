/** The reader undoes the escaping printer, which the source keeps beside the one it uses. */
module XmlEscapes {
  import opened Bytes
  import opened Packets
  import opened XmlText

  /** The escaping ValueToString, one character. */
  function EscapeChar(c: char): string {
    if c == '&' then "&amp;"
    else if c == '<' then "&lt;"
    else if c == '>' then "&gt;"
    else if c == '\"' then "&quot;"
    else if c == '\'' then "&apos;"
    else if c > 127 as char then "&#" + Digits(c as int) + ";"
    else [c]
  }

  function Escape(v: string): string {
    if v == "" then "" else EscapeChar(v[0]) + Escape(v[1..])
  }

  /** No leading or repeated white space, and none but spaces. */
  predicate TidySpaces(v: string, started: bool) {
    v == "" ||
    (if Space(v[0]) then started && v[0] == ' ' && (|v| > 1 ==> !Space(v[1])) && TidySpaces(v[1..], true)
     else TidySpaces(v[1..], true))
  }

  lemma OtherStart(s: string, word: string)
    requires s != "" && word != "" && LowerChar(s[0]) != word[0]
    ensures !Starts(s, word)
  {
    if |word| <= |s| { assert Lower(s[..|word|])[0] == LowerChar(s[0]); }
  }

  lemma {:induction false} LowerSame(s: string)
    requires forall i | 0 <= i < |s| :: LowerChar(s[i]) == s[i]
    ensures Lower(s) == s
  {
    if s != "" {
      LowerSame(s[1..]);
      assert s == [s[0]] + s[1..];
    }
  }

  lemma WordStarts(word: string, rest: string)
    requires forall i | 0 <= i < |word| :: LowerChar(word[i]) == word[i]
    ensures Starts(word + rest, word)
  {
    LowerSame(word);
    assert (word + rest)[..|word|] == word;
  }

  lemma NamesRead(rest: string)
    ensures Named("amp;" + rest) == Some(('&', 4)) && Named("lt;" + rest) == Some(('<', 3)) && Named("gt;" + rest) == Some(('>', 3))
    ensures Named("quot;" + rest) == Some(('\"', 5)) && Named("apos;" + rest) == Some(('\'', 5))
  {
    hide Starts;
    WordStarts("amp;", rest);
    WordStarts("lt;", rest);
    WordStarts("gt;", rest);
    WordStarts("quot;", rest);
    WordStarts("apos;", rest);
    var l, g, q, a := "lt;" + rest, "gt;" + rest, "quot;" + rest, "apos;" + rest;
    OtherStart(l, "amp;");
    OtherStart(g, "amp;");
    OtherStart(g, "lt;");
    OtherStart(q, "amp;");
    OtherStart(q, "lt;");
    OtherStart(q, "gt;");
    OtherStart(a, "lt;");
    OtherStart(a, "gt;");
    OtherStart(a, "quot;");
    SecondOther(a);
  }

  lemma SecondOther(a: string)
    requires |a| >= 2 && a[0] == 'a' && a[1] == 'p'
    ensures !Starts(a, "amp;")
  {
    if |a| >= 4 {
      var w := a[..4];
      assert Lower(w)[1] == Lower(w[1..])[0] == LowerChar(w[1]);
    }
  }

  lemma {:induction false} NumberReads(d: string, rest: string, acc: nat)
    requires AllDecimal(d) && (rest == "" || !Digit(rest[0]))
    ensures Number(d + rest, acc) == ScanDigits(d, 10, acc)
    decreases |d|
  {
    if d == "" {
      assert d + rest == rest;
    } else {
      assert (d + rest)[1..] == d[1..] + rest;
      NumberReads(d[1..], rest, acc * 10 + DigitValue(d[0]));
    }
  }

  lemma NumericReads(c: char, rest: string)
    requires 127 as char < c < 256 as char
    ensures Reference("#" + Digits(c as int) + ";" + rest) == ([c], |Digits(c as int)| + 2, true)
  {
    hide Digits, Named, Number, Find, AllDecimal, ScanDigits;
    var d := Digits(c as int);
    var s := "#" + d + ";" + rest;
    DigitsDecimal(c as int);
    ScanDigitsPrinted(c as int);
    FirstDigit(d);
    assert s[1..] == d + (";" + rest);
    NumberReads(d, ";" + rest, 0);
    FindSemicolon(d, rest);
    NumberIsNoName(s);
  }

  lemma FirstDigit(d: string)
    requires d != "" && AllDecimal(d)
    ensures Digit(d[0])
  {}

  lemma FindSemicolon(d: string, rest: string)
    requires AllDecimal(d)
    ensures Find(d + (";" + rest), ';') == |d|
  {
    var t := d + (";" + rest);
    assert t[|d|] == ';' && forall i | 0 <= i < |d| :: t[i] == d[i];
  }

  lemma NumberIsNoName(s: string)
    requires s != "" && s[0] == '#'
    ensures Named(s) == None
  {
    hide Starts;
    OtherStart(s, "amp;");
    OtherStart(s, "lt;");
    OtherStart(s, "gt;");
    OtherStart(s, "quot;");
    OtherStart(s, "apos;");
    OtherStart(s, "nbsp;");
  }

  /** Behind the ampersand, the reference stands for c and ends where rest begins. */
  predicate Stands(s: string, c: char, rest: string) {
    && |s| > 1 && s[0] == '&' && Reference(s[1..]).0 == [c] && Reference(s[1..]).2
    && s[1 + Reference(s[1..]).1..] == rest
  }

  lemma EntityStands(s: string, word: string, c: char, rest: string)
    requires word != "" && s == "&" + word + rest && Reference(word + rest) == ([c], |word|, true)
    ensures Stands(s, c, rest)
  {
    hide Reference;
    assert s[1..] == word + rest;
    assert s[1 + |word|..] == rest;
  }

  lemma NameRefers(s: string, c: char, n: nat)
    requires s != "" && Named(s) == Some((c, n))
    ensures Reference(s) == ([c], n, true)
  {
    hide Named;
  }

  /** One escaped character is one reference to it. */
  lemma CharReads(c: char, rest: string)
    requires c < 256 as char && EscapeChar(c) != [c]
    ensures Stands(EscapeChar(c) + rest, c, rest)
  {
    hide Named, Reference, Stands, Digits;
    NamesRead(rest);
    if c == '&' { NamedStands(c, "amp;", rest); }
    else if c == '<' { NamedStands(c, "lt;", rest); }
    else if c == '>' { NamedStands(c, "gt;", rest); }
    else if c == '\"' { NamedStands(c, "quot;", rest); }
    else if c == '\'' { NamedStands(c, "apos;", rest); }
    else {
      var word := "#" + Digits(c as int) + ";";
      NumericReads(c, rest);
      assert "&#" + Digits(c as int) + ";" == "&" + word;
      EntityStands("&" + word + rest, word, c, rest);
    }
  }

  lemma NamedStands(c: char, word: string, rest: string)
    requires word != "" && Named(word + rest) == Some((c, |word|)) && EscapeChar(c) == "&" + word
    ensures Stands(EscapeChar(c) + rest, c, rest)
  {
    hide Named, Reference, Stands, EscapeChar;
    NameRefers(word + rest, c, |word|);
    EntityStands("&" + word + rest, word, c, rest);
  }

  /** Every text whose white space is tidy, whatever else it holds, survives escaping and reading. */
  lemma {:induction false} EscapedReads(v: string, started: bool)
    requires TidySpaces(v, started) && forall i | 0 <= i < |v| :: v[i] < 256 as char
    ensures Value(Escape(v), started) == (v, "")
    decreases |v|
  {
    hide Reference, EscapeChar;
    if v != "" {
      var c, more := v[0], Escape(v[1..]);
      EscapedReads(v[1..], true);
      var s := EscapeChar(c) + more;
      assert v == [c] + v[1..];
      if EscapeChar(c) == [c] {
        PlainChar(c);
        assert s[1..] == more;
        if Space(c) { NextPlain(v[1..], more); }
      } else {
        CharReads(c, more);
        EscapedNoSpace(c);
      }
    }
  }

  lemma PlainChar(c: char)
    requires EscapeChar(c) == [c]
    ensures c != '&'
  {}

  lemma EscapedNoSpace(c: char)
    requires EscapeChar(c) != [c]
    ensures !Space('&')
  {}

  /** What follows a space does not start with one. */
  lemma NextPlain(v: string, s: string)
    requires s == Escape(v) && (v != "" ==> !Space(v[0]))
    ensures SkipSpace(s) == s
  {
    if v != "" {
      assert EscapeChar(v[0])[0] == if EscapeChar(v[0]) == [v[0]] then v[0] else '&';
    }
  }
}
