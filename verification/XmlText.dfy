/** The lexical half of the XML reader: tokens, identifiers, and text as values. Strings hold no NUL. */
module XmlText {
  import opened Bytes

  // ---------------------------------------------------------------- characters

  /** What ParseMatch and ParseIdentifier skip. */
  predicate Blank(c: char) { c == ' ' || c == '\t' || c == '\r' || c == '\n' }

  /** _istspace, used inside values: vertical tab and form feed too. */
  predicate Space(c: char) { 9 as char <= c <= 13 as char || c == ' ' }

  predicate Digit(c: char) { '0' <= c <= '9' }

  predicate NameChar(c: char) {
    Digit(c) || 'a' <= c <= 'z' || 'A' <= c <= 'Z' || c == ':' || c == '_' || c == '-'
  }

  function LowerChar(c: char): char { if 'A' <= c <= 'Z' then (c as int + 32) as char else c }

  function Lower(s: string): (r: string)
    ensures |r| == |s|
  {
    if s == "" then "" else [LowerChar(s[0])] + Lower(s[1..])
  }

  // ---------------------------------------------------------------- tokens

  function SkipBlank(s: string): (r: string)
    ensures |r| <= |s|
  {
    if s != "" && Blank(s[0]) then SkipBlank(s[1..]) else s
  }

  /** The token, character by character; the end of the text ends the comparison too. */
  function MatchHere(s: string, token: string): (r: Option<string>)
    ensures r.Some? ==> |r.value| <= |s| && (s != "" && token != "" ==> |r.value| < |s|)
  {
    if s == "" || token == "" then Some(s)
    else if s[0] != token[0] then None
    else MatchHere(s[1..], token[1..])
  }

  /** ParseMatch: what follows the token, after any blanks before it. */
  function Match(s: string, token: string): (r: Option<string>)
    ensures r.Some? ==> |r.value| <= |s| && (token != "" ==> |r.value| < |s|)
  {
    if SkipBlank(s) == "" then None else MatchHere(SkipBlank(s), token)
  }

  function NameEnd(s: string): (n: nat)
    ensures n <= |s|
  {
    if s != "" && NameChar(s[0]) then 1 + NameEnd(s[1..]) else 0
  }

  /** ParseIdentifier: the name and what follows it. */
  function Identifier(s: string): (r: Option<(string, string)>)
    ensures r.Some? ==> |r.value.1| < |s|
  {
    var t := SkipBlank(s);
    if NameEnd(t) == 0 then None else Some((t[..NameEnd(t)], t[NameEnd(t)..]))
  }

  predicate IsName(s: string) { s != "" && forall i | 0 <= i < |s| :: NameChar(s[i]) }

  /** Position of a character, or the length. */
  function Find(s: string, c: char): (n: nat)
    ensures n <= |s| && (n < |s| ==> s[n] == c) && forall i | 0 <= i < n :: s[i] != c
  {
    if s == "" || s[0] == c then 0 else 1 + Find(s[1..], c)
  }

  // ---------------------------------------------------------------- values

  function SkipSpace(s: string): (r: string)
    ensures |r| <= |s| && (s != "" && Space(s[0]) ==> |r| < |s|) && (r != "" ==> !Space(r[0]))
  {
    if s != "" && Space(s[0]) then SkipSpace(s[1..]) else s
  }

  predicate Starts(s: string, word: string) { |word| <= |s| && Lower(s[..|word|]) == word }

  /** The entity a text starts with, after the ampersand: its character and length. */
  function Named(s: string): (r: Option<(char, nat)>)
    ensures r.Some? ==> 1 <= r.value.1 <= |s|
  {
    if Starts(s, "amp;") then Some(('&', 4))
    else if Starts(s, "lt;") then Some(('<', 3))
    else if Starts(s, "gt;") then Some(('>', 3))
    else if Starts(s, "quot;") then Some(('\"', 5))
    else if Starts(s, "apos;") then Some(('\'', 5))
    else if Starts(s, "nbsp;") then Some((' ', 5))
    else None
  }

  /** The number that leading digits spell. */
  function Number(s: string, acc: nat): nat {
    if s != "" && Digit(s[0]) then Number(s[1..], 10 * acc + (s[0] as int - '0' as int)) else acc
  }

  /** A reference, from behind its ampersand: what it stands for, its length, and whether reading goes on. */
  function Reference(s: string): (r: (string, nat, bool))
    requires s != ""
    ensures |r.0| <= 1 && r.1 <= |s|
    ensures r == ("&", 0, true) <==> s[0] != '#' && Named(s).None?
    ensures r.1 == 0 ==> r == ("&", 0, true)
  {
    if Named(s).Some? then ([Named(s).value.0], Named(s).value.1, true)
    else if s[0] == '#' then
      var t := s[1..];
      if t == "" || !Digit(t[0]) then ("", 1, false)
      else
        var c := (Number(t, 0) % 256) as char;
        var e := Find(t, ';');
        if e == |t| then ([c], |s|, false) else ([c], e + 2, true)
    else ("&", 0, true)
  }

  /**
   * StringToValue: the value of a text, and the part it did not read, which is empty unless a number
   * sign after an ampersand is not followed by a digit. started says that something was stored before.
   */
  function Value(s: string, started: bool): (r: (string, string))
    ensures |r.0| + |r.1| <= |s|
    decreases |s|
  {
    if s == "" then ("", "")
    else if Space(s[0]) then
      var t := SkipSpace(s);
      if started then (var (v, u) := Value(t, true); (" " + v, u)) else Value(t, false)
    else if s[0] != '&' then (var (v, u) := Value(s[1..], true); ([s[0]] + v, u))
    else if |s| == 1 then ("", "")
    else
      var (a, n, more) := Reference(s[1..]);
      if more then (var (v, u) := Value(s[1 + n..], true); (a + v, u)) else (a, s[1 + n..])
  }

  /** No leading or repeated white space, none but spaces, and no ampersand that is last or starts a reference. */
  predicate Tidy(s: string, started: bool) {
    s == "" ||
    (if Space(s[0]) then started && s[0] == ' ' && (|s| > 1 ==> !Space(s[1])) && Tidy(s[1..], true)
     else (s[0] == '&' ==> |s| > 1 && s[1] != '#' && Named(s[1..]).None?) && Tidy(s[1..], true))
  }

  /** Reading a value gives the same value exactly when it is tidy. */
  lemma {:induction false} TidyKept(s: string, started: bool)
    ensures Value(s, started) == (s, "") <==> Tidy(s, started)
    decreases |s|
  {
    hide Named, Reference;
    if s == "" {
    } else if Space(s[0]) {
      var t := SkipSpace(s);
      Cons(s[0], s);
      var r := s[1..];
      assert r != "" ==> r[0] == s[1];
      assert t == SkipSpace(r);
      assert |s| > 1 && Space(s[1]) ==> |t| < |s| - 1;
      TidyKept(s[1..], true);
      var v := Value(t, true).0;
      ConsIs(' ', v, s);
    } else {
      TidyKept(s[1..], true);
      ConsIs(s[0], Value(s[1..], true).0, s);
    }
  }

  lemma Cons(c: char, s: string)
    requires s != "" && s[0] == c
    ensures s == [c] + s[1..]
  {}

  lemma ConsIs(c: char, v: string, s: string)
    requires s != ""
    ensures [c] + v == s <==> c == s[0] && v == s[1..]
  {
    if [c] + v == s { assert ([c] + v)[1..] == v; }
    if c == s[0] && v == s[1..] { Cons(c, s); }
  }
}
