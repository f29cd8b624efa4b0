/** What every line of plain fields is read as: which commands there are, how long their fields may be, and their defaults. */
module PacketLines {
  import opened Bytes
  import opened Packets
  import opened PacketRoundTrip

  // ---------------------------------------------------------------- commands

  const COMMANDS: set<string> := {
    "BND", "HND", "DIA", "RNG", "CTC", "TAK", "RED", "SVR", "REC", "LIS",
    "WAT", "WAR", "HAL", "ACH", "ECH", "HSK", "OK", "ERR", "BYE"}

  /** A line is refused exactly when its first word is no command. */
  lemma UnknownExactly(s: string, id: string)
    requires id <= s && |id| <= 10 && Clean(id, ' ') && Stops(id, 10, ' ', s[|id|..])
    ensures Decode(s).None? <==> id !in COMMANDS
  {
    hide Clean, Stops, Next, DecodeFour, DecodeRing, DecodeRed, DecodeDeliver, DecodeNumbered, DecodeNumber, DecodeAchn, DecodeEchn;
    assert s[0..] == id + s[|id|..];
    FieldReads(s, 0, id, 10, ' ', s[|id|..]);
    hide Field;
  }

  /** A field ends at its separator and at the control characters, which are those below 32 and 127, and at nothing else. */
  lemma FieldEnds(c: char, part: char)
    requires c != '[' && part != '[' && part != 'a' && part as int != 0
    ensures Field(['a', c, 'b'], 0, 2, part, false) == if c == part || c as int < 32 || c as int == 127 then "a" else ['a', c]
  {
    var s := ['a', c, 'b'];
    assert Field(s, 2, 0, part, false) == "";
    assert Field(s, 1, 1, part, false) == if c == part || c as int < 32 || c as int == 127 then "" else [c];
  }

  // ---------------------------------------------------------------- words and what is left of them

  /** A word: no spaces, control characters or opening brackets. */
  predicate Token(t: string) { t != "" && Clean(t, ' ') }

  predicate Tokens(ts: seq<string>) { forall i | 0 <= i < |ts| :: Token(ts[i]) }

  function Line(ts: seq<string>): string { if ts == [] then "" else " " + ts[0] + Line(ts[1..]) }

  /** What is left to read; the first word has no space before it when the field before was cut from it. */
  datatype Left = Left(ts: seq<string>, cut: bool)

  function Form(r: Left): string {
    if r.ts != [] && r.cut then r.ts[0] + Line(r.ts[1..]) else Line(r.ts)
  }

  /** A field of at most n characters: a word, or the first n characters of a longer one. */
  function Chop(r: Left, n: nat): (string, Left) {
    if r.ts == [] then ("", r)
    else if |r.ts[0]| <= n then (r.ts[0], Left(r.ts[1..], false))
    else (r.ts[0][..n], Left([r.ts[0][n..]] + r.ts[1..], true))
  }

  predicate Ends(tail: string) { tail != "" && IsControl(tail[0]) }

  lemma LineHead(ts: seq<string>, tail: string)
    requires Ends(tail)
    ensures At(Line(ts) + tail, 0) == ' ' || IsControl(At(Line(ts) + tail, 0))
  {}

  lemma NextChops(s: string, at: nat, r: Left, tail: string, n: nat)
    requires at <= |s| && s[at..] == Form(r) + tail && Tokens(r.ts) && Ends(tail) && n > 0
    ensures var (f, a) := Next(s, at, n, ' ');
      var (g, q) := Chop(r, n); f == g && a <= |s| && s[a..] == Form(q) + tail && Tokens(q.ts)
  {
    hide Next, Clean, IsControl;
    if r.ts == [] {
      NoneLeft(s, at, tail, n);
    } else {
      var t, more := r.ts[0], Line(r.ts[1..]) + tail;
      assert Token(t);
      FormFirst(r, tail);
      if |t| <= n {
        LineHead(r.ts[1..], tail);
        WordReads(s, at, t, n, more, r.cut);
      } else {
        WordCut(t, n);
        CutForm(t, n, r.ts[1..], tail);
        WordReads(s, at, t[..n], n, t[n..] + more, r.cut);
      }
    }
  }

  lemma NoneLeft(s: string, at: nat, tail: string, n: nat)
    requires at <= |s| && s[at..] == "" + tail && Ends(tail) && n > 0
    ensures Next(s, at, n, ' ') == ("", at)
  {
    DirectReads(s, at, "", n, ' ', tail);
  }

  lemma FormFirst(r: Left, tail: string)
    requires r.ts != []
    ensures Form(r) + tail == if r.cut then r.ts[0] + (Line(r.ts[1..]) + tail) else " " + r.ts[0] + (Line(r.ts[1..]) + tail)
  {}

  lemma WordCut(t: string, n: nat)
    requires Token(t) && 0 < n < |t|
    ensures Token(t[..n]) && Token(t[n..])
  {}

  lemma CutForm(t: string, n: nat, ts: seq<string>, tail: string)
    requires 0 < n < |t|
    ensures t + (Line(ts) + tail) == t[..n] + (t[n..] + (Line(ts) + tail))
    ensures " " + t + (Line(ts) + tail) == " " + t[..n] + (t[n..] + (Line(ts) + tail))
    ensures Form(Left([t[n..]] + ts, true)) + tail == t[n..] + (Line(ts) + tail)
  {
    hide Line;
    assert t == t[..n] + t[n..];
    assert ([t[n..]] + ts)[1..] == ts;
  }

  lemma WordReads(s: string, at: nat, f: string, n: nat, more: string, cut: bool)
    requires at <= |s| && s[at..] == (if cut then f + more else " " + f + more) && Token(f) && |f| <= n
    requires |f| == n || At(more, 0) == ' ' || IsControl(At(more, 0))
    ensures var (g, a) := Next(s, at, n, ' '); g == f && a <= |s| && s[a..] == more
  {
    hide Next, Field;
    assert f[0] != ' ';
    if cut { DirectReads(s, at, f, n, ' ', more); } else { TokenReads(s, at, f, n, ' ', more); }
  }

  // ---------------------------------------------------------------- what each command reads

  /** Four fields, the first of at most n characters and the others of at most 21. */
  function Four(r: Left, n: nat): (string, string, string, string, Left) {
    var (a, r1) := Chop(r, n);
    var (b, r2) := Chop(r1, 21);
    var (c, r3) := Chop(r2, 21);
    var (d, r4) := Chop(r3, 21);
    (a, b, c, d, r4)
  }

  /** A command of plain fields, and what it does not read. */
  function Meaning(id: string, ts: seq<string>): Option<(Packet, Left)> {
    var r := Left(ts, false);
    if id == "BND" then (var (c, l, e, f, q) := Four(r, 16); Some((Bind(c, l, e, f), q)))
    else if id == "HND" then (var (c, l, e, f, q) := Four(r, 16); Some((Hnd(c, l, e, f), q)))
    else if id == "DIA" then (var (e, l, c, f, q) := Four(r, 21); Some((Dial(e, l, c, f), q)))
    else if id == "RNG" then
      var (l, r1) := Chop(r, 21);
      var (e, r2) := Chop(r1, 21);
      var (n, q) := Chop(r2, 10);
      Some((Ring(l, e, ScanOr(n, -1)), q))
    else if id == "CTC" then (var (n, q) := Chop(r, 10); Some((Ctc("P", ScanOr(n, -1)), q)))
    else if id == "REC" then (var (n, r1) := Chop(r, 10); var (t, q) := Chop(r1, 16); Some((Record(ScanOr(n, -1), t), q)))
    else if id == "LIS" then (var (n, r1) := Chop(r, 10); var (t, q) := Chop(r1, 16); Some((Listen(ScanOr(n, -1), t), q)))
    else if id == "WAT" then (var (t, q) := Chop(r, 16); Some((Wait(t), q)))
    else if id == "WAR" then (var (w, q) := Chop(r, 21); Some((Walk(w), q)))
    else if id == "HAL" then (var (n, q) := Chop(r, 10); Some((Halt(ScanOr(n, 0)), q)))
    else if id == "ERR" then (var (n, q) := Chop(r, 10); Some((Err(ScanOr(n, 0)), q)))
    else if id == "TAK" then Some((Talk, r))
    else if id == "HSK" then Some((Handsk, r))
    else if id == "OK" then Some((Ok, r))
    else if id == "BYE" then Some((Bye, r))
    else None
  }

  lemma FourChops(s: string, at: nat, r: Left, tail: string, n: nat)
    requires at <= |s| && s[at..] == Form(r) + tail && Tokens(r.ts) && Ends(tail) && n > 0
    ensures var (a, b, c, d, e) := DecodeFour(s, at, n); var (g, h, i, j, q) := Four(r, n);
      (a, b, c, d) == (g, h, i, j) && e <= |s| && s[e..] == Form(q) + tail
  {
    hide Next, Chop, Form, Tokens, Ends;
    NextChops(s, at, r, tail, n);
    var (_, a1) := Next(s, at, n, ' ');
    var (_, r1) := Chop(r, n);
    NextChops(s, a1, r1, tail, 21);
    var (_, a2) := Next(s, a1, 21, ' ');
    var (_, r2) := Chop(r1, 21);
    NextChops(s, a2, r2, tail, 21);
    var (_, a3) := Next(s, a2, 21, ' ');
    var (_, r3) := Chop(r2, 21);
    NextChops(s, a3, r3, tail, 21);
  }

  lemma RingChops(s: string, at: nat, ts: seq<string>, tail: string)
    requires at <= |s| && s[at..] == Form(Left(ts, false)) + tail && Tokens(ts) && Ends(tail)
    ensures var (p, a) := DecodeRing(s, at); var (g, q) := Meaning("RNG", ts).value; p == g && a <= |s| && s[a..] == Form(q) + tail
  {
    hide Next, Chop, Form, Tokens, Ends, ScanOr;
    var r := Left(ts, false);
    NextChops(s, at, r, tail, 21);
    var (_, a1) := Next(s, at, 21, ' ');
    var (_, r1) := Chop(r, 21);
    NextChops(s, a1, r1, tail, 21);
    var (_, a2) := Next(s, a1, 21, ' ');
    var (_, r2) := Chop(r1, 21);
    NextChops(s, a2, r2, tail, 10);
  }

  /** A number of at most ten characters and a type of at most sixteen. */
  lemma NumberedChops(s: string, at: nat, ts: seq<string>, tail: string)
    requires at <= |s| && s[at..] == Form(Left(ts, false)) + tail && Tokens(ts) && Ends(tail)
    ensures var (n, t, a) := DecodeNumbered(s, at);
      var (g, r1) := Chop(Left(ts, false), 10);
      var (h, q) := Chop(r1, 16); n == ScanOr(g, -1) && t == h && a <= |s| && s[a..] == Form(q) + tail
  {
    hide Next, Chop, Form, Tokens, Ends, ScanOr;
    var r := Left(ts, false);
    NextChops(s, at, r, tail, 10);
    var (_, a1) := Next(s, at, 10, ' ');
    var (_, r1) := Chop(r, 10);
    NextChops(s, a1, r1, tail, 16);
  }

  predicate Plain(id: string) { Meaning(id, []).Some? }

  /** Every line of words is read so, and the rest of the line is left. */
  lemma LineDecodes(id: string, ts: seq<string>, rest: string)
    requires Plain(id) && Tokens(ts)
    ensures var s := id + (Line(ts) + (CRLF + rest));
      var d, m := Decode(s), Meaning(id, ts);
      d.Some? && m.Some? && d.value.0 == m.value.0 && d.value.1 <= |s| && s[d.value.1..] == Form(m.value.1) + (CRLF + rest)
  {
    hide Field, Line, Tokens, Ends, Clean, DecodeAs, Meaning, Form, At, IsControl;
    var tail := CRLF + rest;
    var s := id + (Line(ts) + tail);
    IdsClean();
    PlainId(id);
    TailEnds(rest);
    LineHead(ts, tail);
    IdReads(s, id, Line(ts) + tail);
    AsMeans(s, id, |id|, ts, tail);
  }

  lemma PlainId(id: string)
    requires Plain(id)
    ensures |id| <= 3 && id in COMMANDS
  {
    hide Chop, Four, ScanOr;
  }

  lemma AsMeans(s: string, id: string, at: nat, ts: seq<string>, tail: string)
    requires Plain(id) && at <= |s| && s[at..] == Line(ts) + tail && Tokens(ts) && Ends(tail)
    ensures var d, m := DecodeAs(s, id, at), Meaning(id, ts);
      d.Some? && m.Some? && d.value.0 == m.value.0 && d.value.1 <= |s| && s[d.value.1..] == Form(m.value.1) + tail
  {
    hide DecodeAs, Meaning, Line, Tokens, Ends, Form, Plain;
    GroupOf(id);
    if id in {"BND", "HND", "DIA", "WAT", "WAR"} { TextCommands(s, id, at, ts, tail); }
    else if id in {"RNG", "REC", "LIS"} { MixedCommands(s, id, at, ts, tail); }
    else if id in {"CTC", "HAL", "ERR"} { NumberCommands(s, id, at, ts, tail); }
    else { BareCommands(s, id, at, ts, tail); }
  }

  lemma GroupOf(id: string)
    requires Plain(id)
    ensures id in {"BND", "HND", "DIA", "WAT", "WAR"} || id in {"RNG", "REC", "LIS"}
      || id in {"CTC", "HAL", "ERR", "TAK", "HSK", "OK", "BYE"}
  {
    hide Chop, Four, ScanOr;
  }

  lemma TextCommands(s: string, id: string, at: nat, ts: seq<string>, tail: string)
    requires id in {"BND", "HND", "DIA", "WAT", "WAR"}
    requires at <= |s| && s[at..] == Line(ts) + tail && Tokens(ts) && Ends(tail)
    ensures var d, m := DecodeAs(s, id, at), Meaning(id, ts);
      d.Some? && m.Some? && d.value.0 == m.value.0 && d.value.1 <= |s| && s[d.value.1..] == Form(m.value.1) + tail
  {
    hide Next, Chop, Line, Tokens, Ends, DecodeFour, Four;
    var r := Left(ts, false);
    if id == "WAT" { NextChops(s, at, r, tail, 16); }
    else if id == "WAR" { NextChops(s, at, r, tail, 21); }
    else { FourChops(s, at, r, tail, if id == "DIA" then 21 else 16); }
  }

  lemma MixedCommands(s: string, id: string, at: nat, ts: seq<string>, tail: string)
    requires id in {"RNG", "REC", "LIS"}
    requires at <= |s| && s[at..] == Line(ts) + tail && Tokens(ts) && Ends(tail)
    ensures var d, m := DecodeAs(s, id, at), Meaning(id, ts);
      d.Some? && m.Some? && d.value.0 == m.value.0 && d.value.1 <= |s| && s[d.value.1..] == Form(m.value.1) + tail
  {
    hide Chop, Line, Tokens, Ends, ScanOr, DecodeRing, DecodeNumbered;
    if id == "RNG" { RingChops(s, at, ts, tail); } else { NumberedChops(s, at, ts, tail); }
  }

  lemma NumberCommands(s: string, id: string, at: nat, ts: seq<string>, tail: string)
    requires id in {"CTC", "HAL", "ERR"}
    requires at <= |s| && s[at..] == Line(ts) + tail && Tokens(ts) && Ends(tail)
    ensures var d, m := DecodeAs(s, id, at), Meaning(id, ts);
      d.Some? && m.Some? && d.value.0 == m.value.0 && d.value.1 <= |s| && s[d.value.1..] == Form(m.value.1) + tail
  {
    hide Next, Chop, Line, Tokens, Ends, ScanOr, Form;
    NumberChops(s, at, ts, tail);
  }

  lemma NumberChops(s: string, at: nat, ts: seq<string>, tail: string)
    requires at <= |s| && s[at..] == Line(ts) + tail && Tokens(ts) && Ends(tail)
    ensures var (f, a) := Next(s, at, 10, ' ');
      var (g, q) := Chop(Left(ts, false), 10); f == g && a <= |s| && s[a..] == Form(q) + tail
  {
    hide Next, Chop, Line, Tokens, Ends;
    NextChops(s, at, Left(ts, false), tail, 10);
  }

  lemma BareCommands(s: string, id: string, at: nat, ts: seq<string>, tail: string)
    requires id in {"TAK", "HSK", "OK", "BYE"}
    requires at <= |s| && s[at..] == Line(ts) + tail && Tokens(ts) && Ends(tail)
    ensures var d, m := DecodeAs(s, id, at), Meaning(id, ts);
      d.Some? && m.Some? && d.value.0 == m.value.0 && d.value.1 <= |s| && s[d.value.1..] == Form(m.value.1) + tail
  {
    hide Line, Tokens, Ends;
  }

  lemma TailEnds(rest: string)
    ensures Ends(CRLF + rest)
  {}

  // ---------------------------------------------------------------- content, and fields behind a comma

  function Clipped(f: string, n: nat): string { if |f| <= n then f else f[..n] }

  /** Content is everything up to the end of the line, at most 1024 characters, its inner spaces included. */
  lemma DeliverLine(t: string, c: string, rest: string)
    requires Token(t) && |t| <= 16 && c != "" && Clean(c, '\0') && c[0] != ' '
    ensures var d := Decode("SVR" + (" " + t + (" " + c + (CRLF + rest)))); d.Some? && d.value.0 == Deliver(t, Clipped(c, 1024))
  {
    hide Next, Field, Clean, IsControl;
    var tail := CRLF + rest;
    var s := "SVR" + (" " + t + (" " + c + tail));
    IdsClean();
    TailEnds(rest);
    IdReads(s, "SVR", " " + t + (" " + c + tail));
    WordReads(s, 3, t, 16, " " + c + tail, false);
    var a := Next(s, 3, 16, ' ').1;
    ContentCut(s, a, c, tail);
  }

  lemma ContentCut(s: string, at: nat, c: string, tail: string)
    requires at <= |s| && s[at..] == " " + c + tail && c != "" && Clean(c, '\0') && c[0] != ' ' && Ends(tail)
    ensures Next(s, at, 1024, '\0').0 == Clipped(c, 1024)
  {
    hide Next, Field;
    var f := Clipped(c, 1024);
    assert c == f + c[|f|..];
    Behind(f, c[|f|..], tail);
    TokenReads(s, at, f, 1024, '\0', c[|f|..] + tail);
  }

  lemma Behind(f: string, g: string, tail: string)
    ensures " " + (f + g) + tail == " " + f + (g + tail)
  {}

  /** The minutes of a red packet are taken modulo 65536. */
  lemma RedLine(t: string, f: string, rest: string)
    requires |t| <= 10 && Clean(t, ',') && At(t, 0) != ' ' && |f| <= 10 && Clean(f, ',') && f != "" && f[0] != ' '
    ensures var d := Decode("RED" + (" " + t + ("," + (f + (CRLF + rest))))); d.Some? && d.value.0 == Red(t, ScanOr(f, 0) % 65536)
  {
    hide Next, Field, Clean, ScanOr;
    var tail := CRLF + rest;
    var s := "RED" + (" " + t + ("," + (f + tail)));
    IdsClean();
    IdReads(s, "RED", " " + t + ("," + (f + tail)));
    TokenReads(s, 3, t, 10, ',', "," + (f + tail));
    var a := 4 + |t|;
    assert s[a] == s[a..][0];
    assert s[a + 1..] == s[a..][1..];
    DirectReads(s, a + 1, f, 10, ',', tail);
  }

  // ---------------------------------------------------------------- brackets

  /** What stands in brackets, separators included. */
  predicate Inner(f: string) { forall i | 0 <= i < |f| :: !IsControl(f[i]) && f[i] != '[' && f[i] != ']' }

  lemma {:induction false} InnerReads(s: string, at: nat, f: string, n: nat, part: char, tail: string)
    requires at <= |s| && s[at..] == f + ("]" + tail) && Inner(f) && |f| < n && part != '[' && part != ']'
    requires Stops("", n - |f|, part, tail)
    ensures Field(s, at, n, part, true) == f
    decreases |f|
  {
    assert s[at] == s[at..][0];
    if f == "" {
      assert s[at + 1..] == s[at..][1..] == tail;
      Stopped(s, at + 1, n, part, tail);
    } else {
      assert s[at + 1..] == s[at..][1..] == f[1..] + ("]" + tail);
      InnerReads(s, at + 1, f[1..], n - 1, part, tail);
    }
  }

  lemma Stopped(s: string, at: nat, n: nat, part: char, tail: string)
    requires at <= |s| && s[at..] == tail && (IsControl(At(tail, 0)) || At(tail, 0) == part) && part != '['
    ensures Field(s, at, n, part, false) == ""
  {
    if at < |s| { assert s[at] == s[at..][0]; }
  }

  lemma Opened(s: string, at: nat, n: nat, part: char)
    requires at < |s| && s[at] == '[' && n > 0
    ensures Field(s, at, n, part, false) == Field(s, at + 1, n, part, true)
  {}

  /**
   * A field in brackets is read with its separators and without the brackets, but the cursor counts the characters
   * stored: it stops two characters early, and the next field starts inside this one.
   */
  lemma BracketReads(s: string, at: nat, f: string, n: nat, part: char, tail: string)
    requires at <= |s| && s[at..] == " " + ("[" + (f + ("]" + tail))) && Inner(f) && f != "" && |f| < n
    requires part != '[' && part != ']' && (IsControl(At(tail, 0)) || At(tail, 0) == part)
    ensures var (g, a) := Next(s, at, n, part); g == f && a + 2 <= |s| && s[a..] == f[|f| - 1..] + ("]" + tail)
  {
    hide Field;
    assert s[at] == s[at..][0];
    assert s[at + 1..] == s[at..][1..] == "[" + (f + ("]" + tail));
    assert s[at + 1] == s[at + 1..][0];
    assert s[at + 2..] == s[at + 1..][1..] == f + ("]" + tail);
    InnerReads(s, at + 2, f, n, part, tail);
    Opened(s, at + 1, n, part);
    assert SkipSpaces(s, at) == SkipSpaces(s, at + 1) == at + 1;
    var a := at + 1 + |f|;
    assert s[a..] == s[at + 2..][|f| - 1..];
  }

  // ---------------------------------------------------------------- numbers

  /** Digits of a number, most significant first. */
  predicate DigitsOf(ds: seq<nat>, base: nat) { ds != [] && forall i | 0 <= i < |ds| :: ds[i] < base }

  function Positional(ds: seq<nat>, base: nat): nat {
    if ds == [] then 0 else Positional(ds[..|ds| - 1], base) * base + ds[|ds| - 1]
  }

  function Written(ds: seq<nat>, upper: bool): (s: string)
    requires forall i | 0 <= i < |ds| :: ds[i] < 16
    ensures |s| == |ds|
  {
    seq(|ds|, i requires 0 <= i < |ds| => if upper then "0123456789ABCDEF"[ds[i]] else "0123456789abcdef"[ds[i]])
  }

  lemma DigitIs(d: nat)
    requires d < 16
    ensures DigitValue("0123456789ABCDEF"[d]) == d == DigitValue("0123456789abcdef"[d])
  {}

  lemma {:induction false} ScanAppend(a: string, c: char, base: nat, acc: nat)
    requires (forall i | 0 <= i < |a| :: 0 <= DigitValue(a[i]) < base) && 0 <= DigitValue(c) < base
    ensures ScanDigits(a + [c], base, acc) == ScanDigits(a, base, acc) * base + DigitValue(c)
    decreases |a|
  {
    if a == "" {
      assert ("" + [c])[1..] == "" && ("" + [c])[0] == c;
    } else {
      assert (a + [c])[1..] == a[1..] + [c];
      ScanAppend(a[1..], c, base, acc * base + DigitValue(a[0]));
    }
  }

  lemma {:induction false} ScanWritten(ds: seq<nat>, upper: bool, base: nat)
    requires base <= 16 && forall i | 0 <= i < |ds| :: ds[i] < base
    ensures ScanDigits(Written(ds, upper), base, 0) == Positional(ds, base)
    ensures forall i | 0 <= i < |ds| :: DigitValue(Written(ds, upper)[i]) == ds[i]
    decreases |ds|
  {
    hide DigitValue;
    forall i | 0 <= i < |ds| ensures DigitValue(Written(ds, upper)[i]) == ds[i] { DigitIs(ds[i]); }
    if ds != [] {
      var front, last := ds[..|ds| - 1], ds[|ds| - 1];
      ScanWritten(front, upper, base);
      assert Written(ds, upper) == Written(front, upper) + [Written(ds, upper)[|ds| - 1]];
      ScanAppend(Written(front, upper), Written(ds, upper)[|ds| - 1], base, 0);
    }
  }

  lemma {:induction false} ScanStops(a: string, rest: string, base: nat, acc: nat)
    requires (forall i | 0 <= i < |a| :: 0 <= DigitValue(a[i]) < base)
    requires rest == "" || DigitValue(rest[0]) < 0 || DigitValue(rest[0]) >= base
    ensures ScanDigits(a + rest, base, acc) == ScanDigits(a, base, acc)
    decreases |a|
  {
    if a == "" {
      assert a + rest == rest;
    } else {
      assert (a + rest)[1..] == a[1..] + rest;
      ScanStops(a[1..], rest, base, acc * base + DigitValue(a[0]));
    }
  }

  /** A hexadecimal number ends where a character is no digit of it. */
  lemma HexScans(ds: seq<nat>, upper: bool, rest: string)
    requires DigitsOf(ds, 16) && (rest != "" ==> var c := rest[0]; !('0' <= c <= '9') && !('a' <= c <= 'f') && !('A' <= c <= 'F'))
    ensures ScanInt("0x" + (Written(ds, upper) + rest)) == Some(Positional(ds, 16)) == ScanInt("0X" + (Written(ds, upper) + rest))
  {
    hide ScanDigits, Positional, Written;
    var w := Written(ds, upper) + rest;
    ScanWritten(ds, upper, 16);
    ScanStops(Written(ds, upper), rest, 16, 0);
    assert w[0] == Written(ds, upper)[0];
    assert ("0x" + w)[2..] == w && ("0x" + w)[2] == w[0] && ("0X" + w)[2..] == w && ("0X" + w)[2] == w[0];
  }

  /** So does an octal one, at an 8 too. */
  lemma OctalScans(ds: seq<nat>, rest: string)
    requires DigitsOf(ds, 8) && (rest != "" ==> !('0' <= rest[0] <= '7'))
    ensures ScanInt("0" + (Written(ds, false) + rest)) == Some(Positional(ds, 8))
  {
    hide Positional, Written;
    var w := Written(ds, false) + rest;
    ScanWritten(ds, false, 8);
    if rest != "" { NoOctal(rest[0]); }
    ScanStops(Written(ds, false), rest, 8, 0);
    assert ("0" + w)[1..] == w && ("0" + w)[1] == w[0] == Written(ds, false)[0];
    assert DigitValue(w[0]) < 8;
  }

  lemma NoOctal(c: char)
    requires !('0' <= c <= '7')
    ensures DigitValue(c) < 0 || DigitValue(c) >= 8
  {}

  /** And a decimal one. */
  lemma DecimalScans(ds: seq<nat>, rest: string)
    requires DigitsOf(ds, 10) && ds[0] != 0 && (rest != "" ==> !('0' <= rest[0] <= '9'))
    ensures ScanInt(Written(ds, false) + rest) == Some(Positional(ds, 10))
  {
    hide Positional, ScanDigits, Written;
    ScanWritten(ds, false, 10);
    if rest != "" { NoDecimal(rest[0]); }
    ScanStops(Written(ds, false), rest, 10, 0);
    assert (Written(ds, false) + rest)[0] == Written(ds, false)[0];
    assert DigitValue(Written(ds, false)[0]) == ds[0];
  }

  lemma NoDecimal(c: char)
    requires !('0' <= c <= '9')
    ensures DigitValue(c) < 0 || DigitValue(c) >= 10
  {}

  /** Numbers are printed in the shortest way: a minus sign only below 0, and no leading zero. */
  lemma PrintsShortest(n: int)
    ensures var s := PrintInt(n); var d := if n < 0 then s[1..] else s;
      (n < 0 ==> s[0] == '-') && d != "" && AllDecimal(d) && (d[0] == '0' <==> n == 0) && (n == 0 ==> d == "0")
  {
    var m := if n < 0 then -n else n;
    DigitsDecimal(m);
    if m == 0 { assert Digits(0) == "0"; }
    hide Digits;
    if n < 0 { assert PrintInt(n)[1..] == Digits(m); }
  }

  /** A sign is applied once, and what does not start with a digit is no number. */
  lemma SignsScan(s: string)
    requires s != ""
    ensures '0' <= s[0] <= '9' ==> ScanInt(s).Some? && ScanInt("-" + s) == Some(-ScanInt(s).value) && ScanInt("+" + s) == ScanInt(s)
    ensures !('0' <= s[0] <= '9') ==> ScanInt("-" + s) == None == ScanInt("+" + s)
    ensures !('0' <= s[0] <= '9') && s[0] != '-' && s[0] != '+' ==> ScanInt(s) == None
    ensures ScanInt("") == None
  {
    assert ("-" + s)[1..] == s && ("+" + s)[1..] == s;
  }
}
