/** Which characters and references the XML reader knows, character by character. */
module XmlLexicon {
  import opened Bytes
  import opened Packets
  import opened PacketLines
  import opened XmlText
  import opened XmlTree
  import opened XmlRoundTrip
  import opened XmlDocuments
  import opened XmlEscapes

  // ---------------------------------------------------------------- characters

  const LETTERS := "abcdefghijklmnopqrstuvwxyz"
  const CAPITALS := "ABCDEFGHIJKLMNOPQRSTUVWXYZ"
  const DIGITS := "0123456789"

  lemma AlphabetAt(i: nat)
    requires i < 26
    ensures LETTERS[i] == ('a' as int + i) as char && CAPITALS[i] == ('A' as int + i) as char
  {}

  lemma DigitsAt(i: nat)
    requires i < 10
    ensures DIGITS[i] == ('0' as int + i) as char
  {}

  lemma Alphabet(c: char)
    ensures c in LETTERS <==> 'a' <= c <= 'z'
    ensures c in CAPITALS <==> 'A' <= c <= 'Z'
    ensures c in DIGITS <==> '0' <= c <= '9'
  {
    SmallLetter(c);
    Capital(c);
    Decimal(c);
  }

  lemma SmallLetter(c: char)
    ensures c in LETTERS <==> 'a' <= c <= 'z'
  {
    if c in LETTERS { var i :| 0 <= i < 26 && LETTERS[i] == c; AlphabetAt(i); }
    if 'a' <= c <= 'z' { AlphabetAt(c as int - 'a' as int); }
  }

  lemma Capital(c: char)
    ensures c in CAPITALS <==> 'A' <= c <= 'Z'
  {
    if c in CAPITALS { var i :| 0 <= i < 26 && CAPITALS[i] == c; AlphabetAt(i); }
    if 'A' <= c <= 'Z' { AlphabetAt(c as int - 'A' as int); }
  }

  lemma Decimal(c: char)
    ensures c in DIGITS <==> '0' <= c <= '9'
  {
    if c in DIGITS { var i :| 0 <= i < 10 && DIGITS[i] == c; DigitsAt(i); }
    if '0' <= c <= '9' { DigitsAt(c as int - '0' as int); }
  }

  /** Names are made of letters, digits, colons, underscores and hyphens. */
  lemma NameChars(c: char)
    ensures IsName([c]) <==> c in LETTERS || c in CAPITALS || c in DIGITS || c == ':' || c == '_' || c == '-'
  {
    Alphabet(c);
    assert [c][0] == c;
  }

  /** Capitals become the small letters at their places, and nothing else changes. */
  lemma LowerLetters(c: char)
    ensures c !in CAPITALS ==> Lower([c]) == [c]
    ensures forall i | 0 <= i < 26 :: c == CAPITALS[i] ==> Lower([c]) == [LETTERS[i]]
  {
    Alphabet(c);
    assert [c][1..] == "";
    forall i | 0 <= i < 26 && c == CAPITALS[i] ensures Lower([c]) == [LETTERS[i]] { AlphabetAt(i); }
  }

  lemma {:induction false} LowerEach(s: string)
    ensures forall i | 0 <= i < |s| :: [Lower(s)[i]] == Lower([s[i]])
  {
    if s != "" {
      LowerEach(s[1..]);
      assert [s[0]][1..] == "";
      assert forall i | 0 < i < |s| :: s[i] == s[1..][i - 1] && Lower(s)[i] == Lower(s[1..])[i - 1];
    }
  }

  /** Before a token, spaces, tabs and line breaks are skipped, and nothing else is. */
  lemma BlankChars(c: char, token: string, rest: string)
    requires token != "" && token[0] !in " \t\r\n" && c != token[0]
    ensures Match([c] + (token + rest), token) == if c in " \t\r\n" then Some(rest) else None
  {
    var s := [c] + (token + rest);
    TokenMatches(token, rest);
    assert s[1..] == token + rest && s[0] == c;
    assert c in " \t\r\n" <==> Blank(c);
    if Blank(c) { assert SkipBlank(s) == SkipBlank(token + rest); } else { FirstDiffers(s, token); }
  }

  lemma ValueOne(u: string)
    requires |u| == 1 && !Space(u[0]) && u[0] != '&'
    ensures Value(u, true) == (u, "")
  {
    var none := u[1..];
    assert Value(none, true) == ("", "") && [u[0]] + "" == u;
  }

  /** Inside a value the six white-space characters become one space; all others but the ampersand are kept. */
  lemma SpaceChars(c: char)
    requires c != '&'
    ensures Value(['a', c, 'b'], false) == (if c in "\t\n\r " || c as int == 11 || c as int == 12 then "a b" else ['a', c, 'b'], "")
  {
    var s, t, u := ['a', c, 'b'], [c, 'b'], ['b'];
    assert s[1..] == t && t[1..] == u && u[1..] == "" && u == "b" && "a b" == ['a', ' ', 'b'];
    ValueOne(u);
    assert SkipSpace(u) == u;
    assert c in "\t\n\r " || c as int == 11 || c as int == 12 <==> Space(c);
    if Space(c) { assert SkipSpace(t) == u; }
    var v := if Space(c) then " " + u else [c] + u;
    assert Value(t, true) == (v, "");
    assert ['a'] + v == if Space(c) then "a b" else s;
  }

  // ---------------------------------------------------------------- references

  /** A word that ends with its only semicolon. */
  predicate Reserved(w: string) { w != "" && w[|w| - 1] == ';' && ';' !in w[..|w| - 1] }

  lemma AllReserved()
    ensures Reserved("amp;") && Reserved("lt;") && Reserved("gt;") && Reserved("quot;") && Reserved("apos;") && Reserved("nbsp;")
  {}

  /** The entities, in any case, and no others. */
  lemma EntityNames(w: string, rest: string)
    requires Reserved(w)
    ensures Named(w + rest) ==
      if Lower(w) == "amp;" then Some(('&', 4))
      else if Lower(w) == "lt;" then Some(('<', 3))
      else if Lower(w) == "gt;" then Some(('>', 3))
      else if Lower(w) == "quot;" then Some(('\"', 5))
      else if Lower(w) == "apos;" then Some(('\'', 5))
      else if Lower(w) == "nbsp;" then Some((' ', 5))
      else None
  {
    hide Starts, Lower, Reserved;
    AllReserved();
    WordIs(w, rest, "amp;");
    WordIs(w, rest, "lt;");
    WordIs(w, rest, "gt;");
    WordIs(w, rest, "quot;");
    WordIs(w, rest, "apos;");
    WordIs(w, rest, "nbsp;");
  }

  /** A word up to its semicolon is recognised when it is the one. */
  lemma WordIs(w: string, rest: string, word: string)
    requires Reserved(w) && Reserved(word)
    ensures Starts(w + rest, word) <==> Lower(w) == word
  {
    hide Lower;
    var n, s := |word|, w + rest;
    if Lower(w) == word { assert s[..n] == w; }
    if Starts(s, word) {
      FirstSemicolon(s, w);
      LowerReserved(s[..n], word);
      FirstSemicolon(s, s[..n]);
      assert s[..n] == w;
    }
  }

  /** The semicolon of a word that a text starts with is the first. */
  lemma FirstSemicolon(s: string, w: string)
    requires w <= s && Reserved(w)
    ensures Find(s, ';') == |w| - 1
  {
    assert s[|w| - 1] == ';';
    forall i | 0 <= i < |w| - 1 ensures s[i] != ';' { assert s[i] == w[..|w| - 1][i]; }
  }

  lemma LowerReserved(x: string, word: string)
    requires Lower(x) == word && Reserved(word)
    ensures Reserved(x)
  {
    hide Lower;
    forall i | 0 <= i < |x| ensures x[i] == ';' <==> word[i] == ';' { LowerSemicolon(x, i); }
    forall i | 0 <= i < |x| - 1 ensures x[i] != ';' { assert word[i] == word[..|word| - 1][i]; }
  }

  lemma LowerSemicolon(x: string, i: nat)
    requires i < |x|
    ensures x[i] == ';' <==> Lower(x)[i] == ';'
  {
    hide Lower;
    LowerEach(x);
    LowerLetters(x[i]);
    Alphabet(x[i]);
    if x[i] in CAPITALS { var j :| 0 <= j < 26 && CAPITALS[j] == x[i]; AlphabetAt(j); }
  }

  /** A number is taken modulo 256, and everything up to its semicolon is passed over. */
  lemma NumberReference(ds: seq<nat>, junk: string, rest: string, started: bool)
    requires DigitsOf(ds, 10) && ';' !in junk && (junk != "" ==> !Digit(junk[0]))
    ensures Value("&#" + Written(ds, false) + junk + ";" + rest, started) ==
      var (v, u) := Value(rest, true); ([(Positional(ds, 10) % 256) as char] + v, u)
  {
    hide Written, Positional, Named, Number, ScanDigits;
    var d := Written(ds, false);
    var s := "#" + d + junk + ";" + rest;
    assert "&#" + d + junk + ";" + rest == ['&'] + s;
    WrittenDecimal(ds);
    ScanWritten(ds, false, 10);
    assert s[1..] == d + (junk + (";" + rest));
    NumberReads(d, junk + (";" + rest), 0);
    Semicolon(d, junk, rest);
    NumberIsNoName(s);
    assert Find(s[1..], ';') == |d| + |junk|;
    assert (['&'] + s)[1..] == s;
    Remains(d, junk, rest);
  }

  lemma Remains(d: string, junk: string, rest: string)
    ensures (['&'] + ("#" + d + junk + ";" + rest))[|d| + |junk| + 3..] == rest
  {}

  lemma WrittenDecimal(ds: seq<nat>)
    requires DigitsOf(ds, 10)
    ensures AllDecimal(Written(ds, false)) && Written(ds, false) != "" && Digit(Written(ds, false)[0])
  {}

  lemma Semicolon(d: string, junk: string, rest: string)
    requires AllDecimal(d) && ';' !in junk
    ensures Find(d + (junk + (";" + rest)), ';') == |d| + |junk|
  {
    var s := d + (junk + (";" + rest));
    assert s[|d| + |junk|] == ';';
    forall i | 0 <= i < |d| + |junk| ensures s[i] != ';' {
      if i < |d| { assert s[i] == d[i]; } else { assert s[i] == junk[i - |d|]; }
    }
  }

  /** Without a semicolon the rest of the value is lost. */
  lemma OpenReference(ds: seq<nat>, junk: string, started: bool)
    requires DigitsOf(ds, 10) && ';' !in junk && (junk != "" ==> !Digit(junk[0]))
    ensures Value("&#" + Written(ds, false) + junk, started) == ([(Positional(ds, 10) % 256) as char], "")
  {
    hide Written, Positional, Named, Number, ScanDigits;
    var d := Written(ds, false);
    var s := "#" + d + junk;
    assert "&#" + d + junk == ['&'] + s && (['&'] + s)[1..] == s;
    WrittenDecimal(ds);
    ScanWritten(ds, false, 10);
    assert s[1..] == d + junk;
    NumberReads(d, junk, 0);
    NumberIsNoName(s);
    forall i | 0 <= i < |d + junk| ensures (d + junk)[i] != ';' {
      if i < |d| { assert (d + junk)[i] == d[i]; }
    }
    assert Find(s[1..], ';') == |s[1..]|;
    assert (['&'] + s)[1 + |s|..] == "";
  }

  /** Without a digit reading stops behind the number sign. */
  lemma NoNumber(junk: string, started: bool)
    requires junk != "" ==> !Digit(junk[0])
    ensures Value("&#" + junk, started) == ("", junk)
  {
    hide Named;
    var s := "#" + junk;
    assert "&#" + junk == ['&'] + s && (['&'] + s)[1..] == s && s[1..] == junk;
    NumberIsNoName(s);
    assert (['&'] + s)[2..] == junk;
  }

  // ---------------------------------------------------------------- before the element

  /** A header of any version, and a document type, are passed over up to their ends. */
  lemma HeaderPassed(v: string, rest: string, want: bool)
    requires forall i | 0 <= i < |v| :: !("?>" <= v[i..] + "?>")
    ensures SkipHeader("<?xml version=\"" + (v + ("?>" + rest)), want) == Some(rest)
  {
    hide FindText;
    var s := v + ("?>" + rest);
    TokenMatches("<?xml version=\"", s);
    assert s[|v|..] == "?>" + rest;
    forall i | 0 <= i < |v| ensures !("?>" <= s[i..]) { NotEnded(v, i, rest, s); }
    FindTextSkips(s, "?>", |v|);
    assert s[|v| + 2..] == s[|v|..][2..] == rest;
  }

  lemma NotEnded(v: string, i: nat, rest: string, s: string)
    requires i < |v| && s == v + ("?>" + rest) && !("?>" <= v[i..] + "?>")
    ensures !("?>" <= s[i..])
  {
    var x, y := s[i..], v[i..] + "?>";
    assert |x| >= 2 && |y| >= 2 && x[0] == y[0] && x[1] == y[1];
    TwoOf(x);
    TwoOf(y);
  }

  lemma TwoOf(x: string)
    requires |x| >= 2
    ensures "?>" <= x <==> x[0] == '?' && x[1] == '>'
  {
    if x[0] == '?' && x[1] == '>' { assert x[..2] == "?>"; }
  }

  lemma DoctypePassed(d: string, rest: string)
    requires '>' !in d
    ensures SkipDoctype("<!DOCTYPE" + (d + (">" + rest))) == Some(rest)
  {
    hide Find;
    TokenMatches("<!DOCTYPE", d + (">" + rest));
    assert ">" + rest == ['>'] + rest;
    FindAt(d, '>', rest);
    assert (d + (">" + rest))[|d| + 1..] == rest;
  }
}
