/** Cutting packets off the input queue, one poll at a time. */
module Handshakes {
  import opened Bytes
  import opened Packets
  import opened PacketRoundTrip
  import opened PacketLines
  import opened PacketLoss
  import opened CallBuffer

  /** Remove a packet or a line whose text ends at n: a line feed too, and a carriage return before it. */
  function Cut(s: string, n: nat): string {
    Dropped(s, n + 1 + if At(s, n) == '\r' then 1 else 0)
  }

  const UNKNOWN := 8000

  /** CHandshake::ReadBuffer: the packet, what is left of the queue, and what is printed in reply. */
  function Poll(s: string): (Option<Packet>, string, string) {
    if LineEnd(s) == |s| then (None, s, "")
    else
      var d := Decode(s);
      if d.None? then (None, Cut(s, |CutReturn(s[..LineEnd(s)])|), Encode(Err(UNKNOWN)))
      else (Some(d.value.0), Cut(s, d.value.1), "")
  }

  // ---------------------------------------------------------------- a packet and what follows it

  predicate OneLine(line: string) {
    |line| >= 2 && line[|line| - 2] == '\r' && line[|line| - 1] == '\n' && '\n' !in line[..|line| - 1]
  }

  lemma CleanPlain(f: string, part: char)
    requires Clean(f, part)
    ensures '\n' !in f
  {
    forall i | 0 <= i < |f| ensures f[i] != '\n' {
      assert !IsControl(f[i]);
    }
  }

  lemma NumberPlain(n: int)
    ensures '\n' !in PrintInt(n)
  {
    PrintClean(n, ' ');
    CleanPlain(PrintInt(n), ' ');
  }

  lemma WordPlain(f: string, n: nat)
    requires Word(f, n)
    ensures '\n' !in f && '\n' !in Opt(f) && '\n' !in IdOrP(f)
  {
    CleanPlain(f, ' ');
  }

  lemma LineOf(body: string)
    requires '\n' !in body
    ensures OneLine(body + CRLF)
  {
    var line := body + CRLF;
    assert line[..|line| - 1] == body + "\r";
  }

  /** Every sendable packet is one line. */
  lemma EncodesOneLine(p: Packet)
    requires Sendable(p)
    ensures OneLine(Encode(p))
  {
    hide PrintInt, Opt, IdOrP, Word, Clean, OneLine, Small;
    match p
    case Bind(c, l, r, f) =>
      WordPlain(c, 16); WordPlain(l, 21); WordPlain(r, 21); WordPlain(f, 21);
      LineOf("BND" + Opt(c) + Opt(l) + Opt(r) + Opt(f));
    case Hnd(c, l, r, f) =>
      WordPlain(c, 16); WordPlain(l, 21); WordPlain(r, 21); WordPlain(f, 21);
      LineOf("HND" + Opt(c) + Opt(l) + Opt(r) + Opt(f));
    case Ctc(l, _) => LineOf("CTC" + " " + IdOrP(l));
    case Dial(r, l, c, f) =>
      WordPlain(r, 21); WordPlain(l, 21); WordPlain(c, 21); WordPlain(f, 21);
      LineOf("DIA" + " " + IdOrP(r) + " " + IdOrP(l) + " " + IdOrP(c) + Opt(f));
    case Ring(l, r, n) =>
      WordPlain(l, 21); WordPlain(r, 21); LineWord(n); WordPlain(if n == -1 then "" else PrintInt(n), 10);
      LineOf("RNG" + " " + IdOrP(l) + " " + IdOrP(r) + Opt(if n == -1 then "" else PrintInt(n)));
    case Red(t, n) =>
      CleanPlain(t, ','); NumberPlain(n);
      LineOf("RED" + " " + t + "," + PrintInt(n));
    case Deliver(t, c) =>
      WordPlain(t, 16); CleanPlain(c, '\0'); OptPlain(c);
      LineOf("SVR" + " " + t + Opt(c));
    case Record(n, t) =>
      NumberPlain(n); WordPlain(t, 16);
      LineOf("REC" + " " + PrintInt(n) + Opt(t));
    case Listen(n, t) =>
      NumberPlain(n); WordPlain(t, 16);
      LineOf("LIS" + " " + PrintInt(n) + Opt(t));
    case Wait(t) =>
      WordPlain(t, 16);
      LineOf("WAT" + Opt(t));
    case Walk(w) =>
      WordPlain(w, 21);
      LineOf("WAR" + " " + w);
    case Halt(n) =>
      NumberPlain(n);
      LineOf("HAL" + " " + PrintInt(n));
    case Achn(t, f, c) =>
      NumberPlain(t); NumberPlain(f); NumberPlain(c);
      LineOf("ACH" + " " + PrintInt(t) + "," + PrintInt(f) + "," + PrintInt(c));
    case Echn(c, st) =>
      NumberPlain(c); NumberPlain(st);
      LineOf("ECH" + " " + PrintInt(c) + "," + PrintInt(st));
    case Err(n) =>
      NumberPlain(n);
      LineOf("ERR" + " " + PrintInt(n));
    case Talk => LineOf("TAK");
    case Handsk => LineOf("HSK");
    case Ok => LineOf("OK");
    case Bye => LineOf("BYE");
  }

  lemma OptPlain(f: string)
    requires '\n' !in f
    ensures '\n' !in Opt(f)
  {}

  lemma LineEndAt(s: string, e: nat)
    requires e < |s| && s[e] == '\n' && '\n' !in s[..e]
    ensures LineEnd(s) == e
  {
    assert forall i | 0 <= i < e :: s[i] == s[..e][i];
  }

  lemma LineLeads(line: string, rest: string)
    requires OneLine(line)
    ensures LineEnd(line + rest) == |line| - 1
  {
    hide LineEnd;
    assert (line + rest)[..|line| - 1] == line[..|line| - 1];
    LineEndAt(line + rest, |line| - 1);
  }

  /** Polling takes exactly the packet off the queue, whichever end its reader stopped at. */
  lemma PollReads(p: Packet, rest: string)
    requires Sendable(p)
    ensures Poll(Encode(p) + rest) == (Some(Normal(p)), rest, "")
  {
    hide Encode, Decode, LineEnd, Sendable;
    var line := Encode(p);
    var s := line + rest;
    EncodesOneLine(p);
    LineLeads(line, rest);
    DecodesBack(p, rest);
    var n := ReadSize(p);
    assert At(s, n) == if n == |line| - 2 then '\r' else '\n';
    assert Cut(s, n) == s[|line|..] == rest;
  }

  /** While the line is incomplete nothing is taken. */
  lemma PollWaits(s: string)
    requires '\n' !in s
    ensures Poll(s) == (None, s, "")
  {}

  // ---------------------------------------------------------------- any input at all

  /** One field, on a line that ends at stop. */
  lemma NextWithin(s: string, at: nat, n: nat, part: char, stop: nat)
    requires at <= stop < |s| && s[stop] == '\n'
    ensures at <= Next(s, at, n, part).1 <= stop
  {
    SkipWithin(s, at, stop);
    FieldLength(s, SkipSpaces(s, at), n, part, false, stop);
  }

  lemma {:induction false} FieldLength(s: string, at: nat, n: nat, part: char, quoted: bool, stop: nat)
    requires at <= stop < |s| && IsControl(s[stop])
    ensures |Field(s, at, n, part, quoted)| <= stop - at
    decreases stop - at
  {
    if n > 0 && at < stop {
      FieldLength(s, at + 1, n, part, true, stop);
      FieldLength(s, at + 1, n, part, false, stop);
      FieldLength(s, at + 1, n - 1, part, quoted, stop);
    }
  }

  lemma FourWithin(s: string, at: nat, n: nat, stop: nat)
    requires at <= stop < |s| && s[stop] == '\n'
    ensures DecodeFour(s, at, n).4 <= stop
  {
    hide Next;
    NextWithin(s, at, n, ' ', stop);
    var (_, a1) := Next(s, at, n, ' ');
    NextWithin(s, a1, 21, ' ', stop);
    var (_, a2) := Next(s, a1, 21, ' ');
    NextWithin(s, a2, 21, ' ', stop);
    var (_, a3) := Next(s, a2, 21, ' ');
    NextWithin(s, a3, 21, ' ', stop);
  }

  lemma RingWithin(s: string, at: nat, stop: nat)
    requires at <= stop < |s| && s[stop] == '\n'
    ensures DecodeRing(s, at).1 <= stop && DecodeRing(s, at).0.Ring?
  {
    hide Next, ScanOr;
    NextWithin(s, at, 21, ' ', stop);
    var (_, a1) := Next(s, at, 21, ' ');
    NextWithin(s, a1, 21, ' ', stop);
    var (_, a2) := Next(s, a1, 21, ' ');
    NextWithin(s, a2, 10, ' ', stop);
  }

  lemma RedWithin(s: string, at: nat, stop: nat)
    requires at <= stop < |s| && s[stop] == '\n'
    ensures DecodeRed(s, at).1 <= stop && DecodeRed(s, at).0.Red?
  {
    hide Next, ScanOr;
    NextWithin(s, at, 10, ',', stop);
    var (_, a1) := Next(s, at, 10, ',');
    NextWithin(s, if At(s, a1) == ',' then a1 + 1 else a1, 10, ',', stop);
  }

  lemma TwoWithin(s: string, at: nat, n: nat, m: nat, part: char, stop: nat)
    requires at <= stop < |s| && s[stop] == '\n'
    ensures var a := Next(s, at, n, ' ').1; a <= stop && Next(s, a, m, part).1 <= stop
  {
    hide Next;
    NextWithin(s, at, n, ' ', stop);
    NextWithin(s, Next(s, at, n, ' ').1, m, part, stop);
  }

  predicate Comma(p: Packet) { p.Achn? || p.Echn? }

  /** Readers stay on their line, Achn and Echn excepted. */
  lemma ReadsWithin(s: string, id: string, at: nat, stop: nat)
    requires at <= stop < |s| && s[stop] == '\n'
    ensures var d := DecodeAs(s, id, at); d.Some? && !Comma(d.value.0) ==> d.value.1 <= stop
  {
    hide Next, DecodeFour, DecodeRing, DecodeRed, DecodeAchn, DecodeEchn, ScanOr;
    FourWithin(s, at, 16, stop);
    FourWithin(s, at, 21, stop);
    RingWithin(s, at, stop);
    RedWithin(s, at, stop);
    TwoWithin(s, at, 16, 1024, '\0', stop);
    TwoWithin(s, at, 10, 16, ' ', stop);
    NextWithin(s, at, 21, ' ', stop);
    AchnIs(s, at);
  }

  lemma AchnIs(s: string, at: nat)
    ensures DecodeAchn(s, at).0.Achn? && DecodeEchn(s, at).0.Echn?
  {}

  lemma CutRemoves(s: string, n: nat, e: nat)
    requires n <= e < |s| && s[e] == '\n'
    ensures exists k :: 1 <= k <= e + 1 && Cut(s, n) == s[k..]
  {
    var k := n + 1 + if At(s, n) == '\r' then 1 else 0;
    assert Cut(s, n) == s[k..];
  }

  /**
   * Whatever is in the queue, a poll that finds a complete line removes at least one character and
   * nothing beyond that line, unless it read an Achn or Echn packet.
   */
  lemma PollProgress(s: string)
    requires LineEnd(s) < |s| && (Poll(s).0.None? || !Comma(Poll(s).0.value))
    ensures exists k :: 1 <= k <= LineEnd(s) + 1 && Poll(s).1 == s[k..]
  {
    hide LineEnd, CutReturn, Field, DecodeAs, Cut, Encode;
    var e := LineEnd(s);
    var id := Field(s, 0, 10, ' ', false);
    FieldLength(s, 0, 10, ' ', false, e);
    ReadsWithin(s, id, |id|, e);
    if Decode(s).None? {
      CutRemoves(s, |CutReturn(s[..e])|, e);
    } else {
      CutRemoves(s, Decode(s).value.1, e);
    }
  }

  /** The exception: alone in the queue, an Achn command without numbers is read again at every poll. */
  lemma StuckAchn()
    ensures Poll("ACH\r\n") == (Some(Achn(0, 0, 0)), "ACH\r\n", "")
  {
    hide Decode, LineEnd;
    var s := "ACH\r\n";
    assert s[4] == '\n' && s[3] == '\r';
    LineEndAt(s, 4);
    StuckDecode(s);
  }

  lemma StuckDecode(s: string)
    requires s == "ACH\r\n"
    ensures Decode(s) == Some((Achn(0, 0, 0), 6))
  {
    hide Field, DecodeAchn, Clean;
    assert s == "ACH" + "\r\n";
    StuckRead(s, 3);
    IdsClean();
    IdReads(s, "ACH", "\r\n");
  }

  lemma StuckRead(s: string, at: nat)
    requires at + 2 == |s| && s[at] == '\r' && s[at + 1] == '\n'
    ensures DecodeAchn(s, at) == (Achn(0, 0, 0), at + 3)
  {
    hide DecodeComma;
    NothingThere(s, at);
    NothingThere(s, at + 1);
    NothingThere(s, at + 2);
  }

  lemma NothingThere(s: string, at: nat)
    requires IsControl(At(s, at))
    ensures DecodeComma(s, at, 0) == (0, at + 1)
  {
    assert Field(s, at, 10, ',', false) == "";
  }

  /** A line that starts with no command is refused, and dropped whole exactly when its last carriage return, if any, ends it. */
  lemma RefusalResyncs(s: string, id: string)
    requires LineEnd(s) < |s| && id <= s && |id| <= 10 && Clean(id, ' ') && Stops(id, 10, ' ', s[|id|..]) && id !in COMMANDS
    ensures Poll(s).0 == None && Poll(s).2 == "ERR 8000\r\n"
    ensures var line := s[..LineEnd(s)];
      Poll(s).1 == s[|line| + 1..] <==> '\r' !in line || line[|line| - 1] == '\r'
  {
    hide LineEnd, CutReturn, Decode, Clean, Stops;
    UnknownExactly(s, id);
    var e := LineEnd(s);
    var line := s[..e];
    var n := |CutReturn(line)|;
    assert n < e ==> s[n] == line[n] == '\r';
    assert Poll(s).1 == s[if n < e then n + 2 else e + 1..];
    if n + 1 < e { assert line[e - 1] != '\r' && line[n] == '\r'; }
    if n + 1 >= e && '\r' in line { assert n + 1 == e; }
    UnknownPrinted();
  }

  lemma UnknownPrinted()
    ensures Encode(Err(UNKNOWN)) == "ERR 8000\r\n"
  {
    assert Digits(8) == "8";
    assert Digits(80) == "80";
    assert Digits(800) == "800";
    assert Digits(8000) == "8000";
  }
}
