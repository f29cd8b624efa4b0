/** Decoding undoes encoding, packet by packet, whatever follows in the queue. */
module PacketRoundTrip {
  import opened Bytes
  import opened Packets

  lemma IdReads(s: string, id: string, tail: string)
    requires s == id + tail && |id| <= 9 && Clean(id, ' ') && (IsControl(At(tail, 0)) || At(tail, 0) == ' ')
    ensures Field(s, 0, 10, ' ', false) == id && s[|id|..] == tail
  {
    assert s[0..] == s;
    FieldReads(s, 0, id, 10, ' ', tail);
  }

  /** An omitted field must be the last thing before the end of the line. */
  predicate OkTail(f: string, tail: string) { IsControl(At(tail, 0)) || (At(tail, 0) == ' ' && f != "") }

  lemma OptReads(s: string, at: nat, f: string, n: nat, tail: string)
    requires at <= |s| && s[at..] == Opt(f) + tail && Word(f, n)
    requires OkTail(f, tail)
    ensures Next(s, at, n, ' ') == (f, at + |Opt(f)|)
    ensures at + |Opt(f)| <= |s| && s[at + |Opt(f)|..] == tail
  {
    if f == "" {
      assert s[at..] == "" + tail;
      DirectReads(s, at, "", n, ' ', tail);
    } else {
      TokenReads(s, at, f, n, ' ', tail);
    }
  }

  lemma {:induction false} DigitsShort(n: nat, k: nat)
    requires n < Pow(10, k) && k >= 1
    ensures |Digits(n)| <= k
  {
    if k > 1 && n >= 10 { DigitsShort(n / 10, k - 1); }
  }

  lemma SmallPrinted(n: int)
    requires Small(n)
    ensures |PrintInt(n)| <= 9
  {
    assert Pow(10, 3) == 1000;
    assert Pow(10, 6) == 1_000_000;
    assert Pow(10, 8) == 100_000_000 && Pow(10, 9) == 1_000_000_000;
    if n < 0 { DigitsShort(-n, 8); } else { DigitsShort(n, 9); }
  }

  /** A printed number reads back as itself. */
  lemma IntReads(s: string, at: nat, n: int, part: char, tail: string)
    requires at <= |s| && s[at..] == " " + PrintInt(n) + tail && Small(n) && (part == ' ' || part == ',')
    requires IsControl(At(tail, 0)) || At(tail, 0) == part
    ensures Next(s, at, 10, part) == (PrintInt(n), at + 1 + |PrintInt(n)|) && forall d :: ScanOr(PrintInt(n), d) == n
    ensures at + 1 + |PrintInt(n)| <= |s| && s[at + 1 + |PrintInt(n)|..] == tail
  {
    hide PrintInt, Next;
    SmallPrinted(n);
    PrintClean(n, part);
    ScanPrinted(n);
    TokenReads(s, at, PrintInt(n), 10, part, tail);
  }

  lemma IntDirect(s: string, at: nat, n: int, part: char, tail: string)
    requires at <= |s| && s[at..] == PrintInt(n) + tail && Small(n) && (part == ' ' || part == ',')
    requires IsControl(At(tail, 0)) || At(tail, 0) == part
    ensures Next(s, at, 10, part) == (PrintInt(n), at + |PrintInt(n)|) && forall d :: ScanOr(PrintInt(n), d) == n
    ensures at + |PrintInt(n)| <= |s| && s[at + |PrintInt(n)|..] == tail
  {
    hide PrintInt, Next;
    SmallPrinted(n);
    PrintClean(n, part);
    ScanPrinted(n);
    DirectReads(s, at, PrintInt(n), 10, part, tail);
  }

  /** What follows a packet's last field. */
  function End(rest: string): (r: string)
    ensures IsControl(At(r, 0)) && At(r, 0) == '\r' && At(r, 1) == '\n'
  {
    CRLF + rest
  }

  lemma FourRead(s: string, at: nat, n: nat, c: string, l: string, r: string, f: string, tail: string)
    requires at <= |s| && s[at..] == Opt(c) + (Opt(l) + (Opt(r) + (Opt(f) + tail))) && IsControl(At(tail, 0))
    requires Word(c, n) && Word(l, 21) && Word(r, 21) && Word(f, 21)
    requires (c == "" ==> l == "") && (l == "" ==> r == "") && (r == "" ==> f == "")
    ensures DecodeFour(s, at, n) == (c, l, r, f, at + |Opt(c)| + |Opt(l)| + |Opt(r)| + |Opt(f)|)
  {
    hide Next, Word, Opt, OkTail, At, IsControl;
    var t3 := Opt(f) + tail;
    var t2 := Opt(r) + t3;
    var t1 := Opt(l) + t2;
    FourTails(c, l, r, f, tail);
    OptReads(s, at, c, n, t1);
    var a1 := at + |Opt(c)|;
    OptReads(s, a1, l, 21, t2);
    var a2 := a1 + |Opt(l)|;
    OptReads(s, a2, r, 21, t3);
    OptReads(s, a2 + |Opt(r)|, f, 21, tail);
  }

  lemma FourTails(c: string, l: string, r: string, f: string, tail: string)
    requires IsControl(At(tail, 0))
    requires (c == "" ==> l == "") && (l == "" ==> r == "") && (r == "" ==> f == "")
    ensures OkTail(f, tail) && OkTail(r, Opt(f) + tail) && OkTail(l, Opt(r) + (Opt(f) + tail))
    ensures OkTail(c, Opt(l) + (Opt(r) + (Opt(f) + tail)))
  {
    hide Opt, At, IsControl;
    OptHead(f, tail);
    OptHead(r, Opt(f) + tail);
    OptHead(l, Opt(r) + (Opt(f) + tail));
  }

  lemma OptHead(f: string, tail: string)
    ensures f == "" ==> Opt(f) + tail == tail
    ensures f != "" ==> At(Opt(f) + tail, 0) == ' '
  {}

  lemma Regroup(id: string, a: string, b: string, c: string, d: string, e: string, rest: string)
    ensures (id + a + b + c + d + e) + rest == id + (a + (b + (c + (d + (e + rest)))))
  {}

  /** HND is read and printed as BND is. */
  lemma BindReads(p: Packet, rest: string)
    requires (p.Bind? || p.Hnd?) && Sendable(p)
    ensures Decode(Encode(p) + rest) == Some((p, |Encode(p)| - 2))
  {
    hide DecodeFour, Field, Clean, Opt, Word;
    var id := if p.Bind? then "BND" else "HND";
    var tail := Opt(p.callType) + (Opt(p.localId) + (Opt(p.remoteId) + (Opt(p.feeNumber) + End(rest))));
    var s := Encode(p) + rest;
    Regroup(id, Opt(p.callType), Opt(p.localId), Opt(p.remoteId), Opt(p.feeNumber), CRLF, rest);
    IdsClean();
    FourHead(p.callType, p.localId, p.remoteId, p.feeNumber, End(rest));
    IdReads(s, id, tail);
    FourRead(s, 3, 16, p.callType, p.localId, p.remoteId, p.feeNumber, End(rest));
  }

  /** Behind an id there is a space or the end of the line. */
  lemma FourHead(c: string, l: string, r: string, f: string, end: string)
    requires IsControl(At(end, 0))
    ensures var tail := Opt(c) + (Opt(l) + (Opt(r) + (Opt(f) + end))); IsControl(At(tail, 0)) || At(tail, 0) == ' '
  {
    hide Opt, IsControl;
    OptHead(c, Opt(l) + (Opt(r) + (Opt(f) + end)));
    OptHead(l, Opt(r) + (Opt(f) + end));
    OptHead(r, Opt(f) + end);
    OptHead(f, end);
  }

  function Ten(f: string): string { if |f| <= 10 then f else f[..10] }

  /** CTC prints its local id in place of its line, and whatever number that starts with is read as the line. */
  lemma CtcReads(p: Packet, rest: string)
    requires p.Ctc? && Word(p.localId, 21)
    ensures var id := Ten(IdOrP(p.localId)); Decode(Encode(p) + rest) == Some((Ctc("P", ScanOr(id, -1)), 4 + |id|))
  {
    hide Next, Field, ScanOr;
    IdWord(p.localId);
    hide IdOrP, Clean;
    var id := IdOrP(p.localId);
    var s, end := Encode(p) + rest, End(rest);
    OneShape("CTC", id, CRLF, rest);
    IdsClean();
    IdReads(s, "CTC", " " + id + end);
    TenReads(s, 3, id, end);
  }

  lemma CtcPlain(p: Packet, rest: string)
    requires p.Ctc? && Sendable(p)
    ensures Decode(Encode(p) + rest) == Some((Normal(p), |Encode(p)| - 2))
  {
    hide Decode, ScanOr, Word, Clean;
    PWord(p.localId);
    CtcReads(p, rest);
    NoNumber("P");
  }

  lemma PWord(f: string)
    requires IdOrP(f) == "P"
    ensures Word(f, 21)
  {}

  lemma TenReads(s: string, at: nat, f: string, end: string)
    requires at <= |s| && s[at..] == " " + f + end && Clean(f, ' ') && f != "" && IsControl(At(end, 0))
    ensures Next(s, at, 10, ' ') == (Ten(f), at + 1 + |Ten(f)|)
  {
    hide Next;
    if |f| > 10 {
      assert " " + f + end == " " + f[..10] + (f[10..] + end);
      TokenReads(s, at, f[..10], 10, ' ', f[10..] + end);
    } else {
      TokenReads(s, at, f, 10, ' ', end);
    }
  }

  lemma NoNumber(f: string)
    requires f == "P"
    ensures ScanOr(f, -1) == -1
  {}

  lemma IdWord(f: string)
    requires Word(f, 21)
    ensures Word(IdOrP(f), 21) && " " + IdOrP(f) == Opt(IdOrP(f))
  {}

  lemma DialReads(p: Packet, rest: string)
    requires p.Dial? && Sendable(p)
    ensures Decode(Encode(p) + rest) == Some((Normal(p), |Encode(p)| - 2))
  {
    hide DecodeFour, Field, Clean, Opt, Word;
    IdWord(p.remoteId);
    IdWord(p.localId);
    IdWord(p.callerId);
    hide IdOrP;
    var r, l, c, f := IdOrP(p.remoteId), IdOrP(p.localId), IdOrP(p.callerId), p.feeNumber;
    var tail := Opt(r) + (Opt(l) + (Opt(c) + (Opt(f) + End(rest))));
    var s := Encode(p) + rest;
    DialShape("DIA", r, l, c);
    Regroup("DIA", Opt(r), Opt(l), Opt(c), Opt(f), CRLF, rest);
    IdsClean();
    OptHead(r, Opt(l) + (Opt(c) + (Opt(f) + End(rest))));
    IdReads(s, "DIA", tail);
    FourRead(s, 3, 21, r, l, c, f, End(rest));
  }

  lemma DialShape(id: string, r: string, l: string, c: string)
    ensures id + " " + r + " " + l + " " + c == id + (" " + r) + (" " + l) + (" " + c)
  {}

  lemma RingShape(id: string, r: string, l: string)
    ensures id + " " + r + " " + l == id + (" " + r) + (" " + l)
  {}

  lemma RegroupThree(id: string, a: string, b: string, c: string, e: string, rest: string)
    ensures (id + a + b + c + e) + rest == id + (a + (b + (c + (e + rest))))
  {}

  lemma RegroupOne(id: string, a: string, e: string, rest: string)
    ensures (id + a + e) + rest == id + (a + (e + rest))
  {}

  lemma LineWord(n: int)
    requires Small(n)
    ensures var t := if n == -1 then "" else PrintInt(n); Word(t, 10) && ScanOr(t, -1) == n
  {
    SmallPrinted(n);
    PrintClean(n, ' ');
    ScanPrinted(n);
    hide PrintInt;
  }

  lemma RingFields(s: string, at: nat, l: string, r: string, line: int, n: string, end: string)
    requires at <= |s| && s[at..] == Opt(l) + (Opt(r) + (Opt(n) + end)) && IsControl(At(end, 0))
    requires Word(l, 21) && Word(r, 21) && Word(n, 10) && l != "" && r != "" && ScanOr(n, -1) == line
    ensures DecodeRing(s, at) == (Ring(l, r, line), at + |Opt(l)| + |Opt(r)| + |Opt(n)|)
  {
    hide Next, Word, Opt, OkTail, At, IsControl, ScanOr;
    FourTails(l, r, n, "", end);
    assert Opt("") + end == end by { OptHead("", end); }
    OptReads(s, at, l, 21, Opt(r) + (Opt(n) + end));
    OptReads(s, at + |Opt(l)|, r, 21, Opt(n) + end);
    OptReads(s, at + |Opt(l)| + |Opt(r)|, n, 10, end);
  }

  lemma RingReads(p: Packet, rest: string)
    requires p.Ring? && Sendable(p)
    ensures Decode(Encode(p) + rest) == Some((Normal(p), |Encode(p)| - 2))
  {
    hide DecodeRing, Field, Clean, Opt, Word, PrintInt, ScanOr;
    IdWord(p.localId);
    IdWord(p.remoteId);
    LineWord(p.line);
    hide IdOrP;
    var l, r, n := IdOrP(p.localId), IdOrP(p.remoteId), if p.line == -1 then "" else PrintInt(p.line);
    var s, end := Encode(p) + rest, End(rest);
    RingShape("RNG", l, r);
    RegroupThree("RNG", Opt(l), Opt(r), Opt(n), CRLF, rest);
    IdsClean();
    OptHead(l, Opt(r) + (Opt(n) + end));
    IdReads(s, "RNG", Opt(l) + (Opt(r) + (Opt(n) + end)));
    RingFields(s, 3, l, r, p.line, n, end);
  }

  lemma RedFields(s: string, at: nat, t: string, minutes: int, end: string)
    requires at <= |s| && s[at..] == " " + t + ("," + (PrintInt(minutes) + end)) && IsControl(At(end, 0))
    requires |t| <= 10 && Clean(t, ',') && At(t, 0) != ' ' && 0 <= minutes < 65536
    ensures DecodeRed(s, at) == (Red(t, minutes), at + 2 + |t| + |PrintInt(minutes)|)
  {
    hide Next, Clean, PrintInt, ScanOr;
    var tail := "," + (PrintInt(minutes) + end);
    TokenReads(s, at, t, 10, ',', tail);
    var a := at + 1 + |t|;
    CommaThen(s, a, PrintInt(minutes) + end);
    IntDirect(s, a + 1, minutes, ',', end);
  }

  lemma CommaThen(s: string, a: nat, tail: string)
    requires a <= |s| && s[a..] == "," + tail
    ensures At(s, a) == ',' && a + 1 <= |s| && s[a + 1..] == tail
  {
    assert s[a] == s[a..][0];
    assert s[a + 1..] == s[a..][1..];
  }

  lemma RedShape(id: string, t: string, n: string, e: string, rest: string)
    ensures (id + " " + t + "," + n + e) + rest == id + (" " + t + ("," + (n + (e + rest))))
  {}

  lemma RedReads(p: Packet, rest: string)
    requires p.Red? && Sendable(p)
    ensures Decode(Encode(p) + rest) == Some((p, |Encode(p)| - 2))
  {
    hide DecodeRed, Field, Clean, PrintInt;
    var t, n := p.msgType, PrintInt(p.minutes);
    var s, end := Encode(p) + rest, End(rest);
    RedShape("RED", t, n, CRLF, rest);
    IdsClean();
    IdReads(s, "RED", " " + t + ("," + (n + end)));
    RedFields(s, 3, t, p.minutes, end);
  }

  lemma DeliverFields(s: string, at: nat, t: string, c: string, end: string)
    requires at <= |s| && s[at..] == " " + t + (Opt(c) + end) && IsControl(At(end, 0))
    requires Word(t, 16) && |c| <= 1024 && Clean(c, '\0') && At(c, 0) != ' ' && (t == "" ==> c == "")
    ensures DecodeDeliver(s, at) == (Deliver(t, c), at + 1 + |t| + |Opt(c)|)
  {
    hide Next, Clean;
    WordHead(t, Opt(c) + end);
    TokenReads(s, at, t, 16, ' ', Opt(c) + end);
    var a := at + 1 + |t|;
    if c == "" {
      assert s[a..] == "" + end;
      DirectReads(s, a, "", 1024, '\0', end);
    } else {
      TokenReads(s, a, c, 1024, '\0', end);
    }
  }

  lemma TwoShape(id: string, t: string, c: string, e: string, rest: string)
    ensures (id + " " + t + c + e) + rest == id + (" " + t + (c + (e + rest)))
  {}

  lemma DeliverReads(p: Packet, rest: string)
    requires p.Deliver? && Sendable(p)
    ensures Decode(Encode(p) + rest) == Some((p, |Encode(p)| - 2))
  {
    hide DecodeDeliver, Field, Clean, Opt;
    var t, c := p.msgType, p.content;
    var s, end := Encode(p) + rest, End(rest);
    TwoShape("SVR", t, Opt(c), CRLF, rest);
    IdsClean();
    IdReads(s, "SVR", " " + t + (Opt(c) + end));
    DeliverFields(s, 3, t, c, end);
  }

  lemma WordHead(t: string, tail: string)
    requires Word(t, 16) && (t == "" ==> At(tail, 0) != ' ')
    ensures At(t + tail, 0) != ' '
  {}

  lemma NumberedTail(t: string, end: string)
    requires IsControl(At(end, 0))
    ensures OkTail(t, end) && (IsControl(At(Opt(t) + end, 0)) || At(Opt(t) + end, 0) == ' ')
  {
    hide IsControl;
    OptHead(t, end);
  }

  lemma NumberedReads(s: string, at: nat, n: int, t: string, end: string)
    requires at <= |s| && s[at..] == " " + PrintInt(n) + (Opt(t) + end) && Small(n) && Word(t, 16) && IsControl(At(end, 0))
    ensures DecodeNumbered(s, at) == (n, t, at + 1 + |PrintInt(n)| + |Opt(t)|)
  {
    hide Next, PrintInt, Word, ScanOr, Opt, Small, OkTail, At, IsControl;
    NumberedTail(t, end);
    IntReads(s, at, n, ' ', Opt(t) + end);
    OptReads(s, at + 1 + |PrintInt(n)|, t, 16, end);
  }

  lemma RecordReads(p: Packet, rest: string)
    requires (p.Record? || p.Listen?) && Sendable(p)
    ensures Decode(Encode(p) + rest) == Some((p, |Encode(p)| - 2))
  {
    hide DecodeNumbered, Field, Clean, Opt, Word, PrintInt;
    var id := if p.Record? then "REC" else "LIS";
    var n, t := if p.Record? then p.channel else p.channel, if p.Record? then p.msgType else p.msgType;
    var s, end := Encode(p) + rest, End(rest);
    NumberedShape(id, PrintInt(n), Opt(t), CRLF, rest);
    IdsClean();
    IdReads(s, id, " " + PrintInt(n) + (Opt(t) + end));
    NumberedReads(s, 3, n, t, end);
  }

  lemma NumberedShape(id: string, n: string, t: string, e: string, rest: string)
    ensures (id + " " + n + t + e) + rest == id + (" " + n + (t + (e + rest)))
  {}

  lemma WaitReads(p: Packet, rest: string)
    requires p.Wait? && Sendable(p)
    ensures Decode(Encode(p) + rest) == Some((p, |Encode(p)| - 2))
  {
    hide Next, Field, Clean, Opt, Word;
    var s, end := Encode(p) + rest, End(rest);
    RegroupOne("WAT", Opt(p.msgType), CRLF, rest);
    IdsClean();
    OptHead(p.msgType, end);
    IdReads(s, "WAT", Opt(p.msgType) + end);
    OptReads(s, 3, p.msgType, 16, end);
  }

  lemma OneShape(id: string, n: string, e: string, rest: string)
    ensures (id + " " + n + e) + rest == id + (" " + n + (e + rest))
  {}

  lemma WalkFields(s: string, at: nat, w: string, end: string)
    requires at <= |s| && s[at..] == " " + w + end && Word(w, 21) && IsControl(At(end, 0))
    ensures Next(s, at, 21, ' ') == (w, at + 1 + |w|)
  {
    hide Next;
    TokenReads(s, at, w, 21, ' ', end);
  }

  lemma WalkReads(p: Packet, rest: string)
    requires p.Walk? && Sendable(p)
    ensures Decode(Encode(p) + rest) == Some((p, |Encode(p)| - 2))
  {
    hide Next, Field, Clean, Word;
    var s, end := Encode(p) + rest, End(rest);
    OneShape("WAR", p.walkId, CRLF, rest);
    IdsClean();
    IdReads(s, "WAR", " " + p.walkId + end);
    WalkFields(s, 3, p.walkId, end);
  }

  lemma NumberFields(s: string, at: nat, n: int, end: string, default: int)
    requires at <= |s| && s[at..] == " " + PrintInt(n) + end && Small(n) && IsControl(At(end, 0))
    ensures DecodeNumber(s, at, default) == (n, at + 1 + |PrintInt(n)|)
  {
    hide Next, PrintInt, ScanOr;
    IntReads(s, at, n, ' ', end);
  }

  lemma NumberReads(p: Packet, rest: string)
    requires (p.Halt? || p.Err?) && Sendable(p)
    ensures Decode(Encode(p) + rest) == Some((p, |Encode(p)| - 2))
  {
    hide DecodeNumber, Field, Clean, PrintInt, Small;
    var id, n := if p.Halt? then "HAL" else "ERR", if p.Halt? then p.link else p.code;
    var s, end := Encode(p) + rest, End(rest);
    OneShape(id, PrintInt(n), CRLF, rest);
    IdsClean();
    IdReads(s, id, " " + PrintInt(n) + end);
    NumberFields(s, 3, n, end, 0);
  }

  /** One comma-separated number after the first; the cursor steps over what ends it. */
  lemma CommaReads(s: string, at: nat, n: int, tail: string, d: int)
    requires at <= |s| && s[at..] == PrintInt(n) + tail && Small(n) && tail != "" && (IsControl(tail[0]) || tail[0] == ',')
    ensures DecodeComma(s, at, d) == (n, at + |PrintInt(n)| + 1)
    ensures at + |PrintInt(n)| + 1 <= |s| && s[at + |PrintInt(n)| + 1..] == tail[1..]
  {
    hide Next, PrintInt, ScanOr;
    IntDirect(s, at, n, ',', tail);
    var a := at + |PrintInt(n)|;
    assert s[a + 1..] == s[a..][1..];
  }

  lemma FirstCommaReads(s: string, at: nat, n: int, tail: string, d: int)
    requires at <= |s| && s[at..] == " " + PrintInt(n) + tail && Small(n) && tail != "" && (IsControl(tail[0]) || tail[0] == ',')
    ensures DecodeComma(s, at, d) == (n, at + 1 + |PrintInt(n)| + 1)
    ensures at + 1 + |PrintInt(n)| + 1 <= |s| && s[at + 1 + |PrintInt(n)| + 1..] == tail[1..]
  {
    hide Next, PrintInt, ScanOr;
    IntReads(s, at, n, ',', tail);
    var a := at + 1 + |PrintInt(n)|;
    assert s[a + 1..] == s[a..][1..];
  }

  lemma EchnFields(s: string, at: nat, channel: int, state: int, end: string)
    requires at <= |s| && s[at..] == " " + PrintInt(channel) + ("," + (PrintInt(state) + end))
    requires end != "" && IsControl(end[0]) && Small(channel) && Small(state)
    ensures DecodeEchn(s, at) == (Echn(channel, state), at + 3 + |PrintInt(channel)| + |PrintInt(state)|)
  {
    hide DecodeComma, PrintInt;
    var t1 := "," + (PrintInt(state) + end);
    FirstCommaReads(s, at, channel, t1, 0);
    assert t1[1..] == PrintInt(state) + end;
    CommaReads(s, at + 2 + |PrintInt(channel)|, state, end, -1);
  }

  lemma EchnReads(p: Packet, rest: string)
    requires p.Echn? && Sendable(p)
    ensures Decode(Encode(p) + rest) == Some((p, |Encode(p)| - 1))
  {
    hide DecodeEchn, Field, Clean, PrintInt, Small;
    var a, b := PrintInt(p.channel), PrintInt(p.state);
    var s, end := Encode(p) + rest, End(rest);
    RedShape("ECH", a, b, CRLF, rest);
    IdsClean();
    IdReads(s, "ECH", " " + a + ("," + (b + end)));
    EchnFields(s, 3, p.channel, p.state, end);
  }

  lemma AchnFields(s: string, at: nat, t: int, f: int, c: int, end: string)
    requires at <= |s| && s[at..] == " " + PrintInt(t) + ("," + (PrintInt(f) + ("," + (PrintInt(c) + end))))
    requires end != "" && IsControl(end[0]) && Small(t) && Small(f) && Small(c)
    ensures DecodeAchn(s, at) == (Achn(t, f, c), at + 4 + |PrintInt(t)| + |PrintInt(f)| + |PrintInt(c)|)
  {
    hide DecodeComma, PrintInt;
    var t2 := "," + (PrintInt(c) + end);
    var t1 := "," + (PrintInt(f) + t2);
    FirstCommaReads(s, at, t, t1, 0);
    assert t1[1..] == PrintInt(f) + t2;
    CommaReads(s, at + 2 + |PrintInt(t)|, f, t2, 0);
    assert t2[1..] == PrintInt(c) + end;
    CommaReads(s, at + 3 + |PrintInt(t)| + |PrintInt(f)|, c, end, 0);
  }

  lemma AchnReads(p: Packet, rest: string)
    requires p.Achn? && Sendable(p)
    ensures Decode(Encode(p) + rest) == Some((p, |Encode(p)| - 1))
  {
    hide DecodeAchn, Field, Clean, PrintInt, Small;
    var a, b, c := PrintInt(p.chType), PrintInt(p.first), PrintInt(p.count);
    var s, end := Encode(p) + rest, End(rest);
    AchnShape(a, b, c, CRLF, rest);
    IdsClean();
    IdReads(s, "ACH", " " + a + ("," + (b + ("," + (c + end)))));
    AchnFields(s, 3, p.chType, p.first, p.count, end);
  }

  lemma AchnShape(a: string, b: string, c: string, e: string, rest: string)
    ensures ("ACH" + " " + a + "," + b + "," + c + e) + rest == "ACH" + (" " + a + ("," + (b + ("," + (c + (e + rest))))))
  {}

  predicate Bare(p: Packet) { p.Talk? || p.Handsk? || p.Ok? || p.Bye? }

  function BareId(p: Packet): string
    requires Bare(p)
  {
    match p case Talk => "TAK" case Handsk => "HSK" case Ok => "OK" case Bye => "BYE"
  }

  lemma BareDispatch(p: Packet, s: string, at: nat)
    requires Bare(p)
    ensures DecodeAs(s, BareId(p), at) == Some((p, at)) && Encode(p) == BareId(p) + CRLF
  {
    hide DecodeFour, DecodeRing, DecodeRed, DecodeDeliver, DecodeNumbered, DecodeNumber, DecodeAchn, DecodeEchn, Next;
    match p
    case Talk =>
    case Handsk =>
    case Ok =>
    case Bye =>
  }

  lemma BareClean(p: Packet)
    requires Bare(p)
    ensures Clean(BareId(p), ' ') && |BareId(p)| <= 9
  {
    IdsClean();
    hide Clean;
  }

  lemma BareReads(p: Packet, rest: string)
    requires Bare(p)
    ensures Decode(Encode(p) + rest) == Some((p, |Encode(p)| - 2))
  {
    hide Field, Clean, DecodeAs, Encode, BareId;
    var id := BareId(p);
    var s := Encode(p) + rest;
    BareDispatch(p, s, |id|);
    assert id + CRLF + rest == id + (CRLF + rest);
    BareClean(p);
    IdReads(s, id, End(rest));
  }

  /** Where the reader stops: on the carriage return, or past it for Achn and Echn. */
  function ReadSize(p: Packet): int { |Encode(p)| - (if p.Achn? || p.Echn? then 1 else 2) }

  /** Every sendable packet decodes to itself, with the size its reader reports. */
  lemma DecodesBack(p: Packet, rest: string)
    requires Sendable(p)
    ensures Decode(Encode(p) + rest) == Some((Normal(p), ReadSize(p)))
  {
    hide Decode, Encode;
    match p
    case Bind(_, _, _, _) => BindReads(p, rest);
    case Hnd(_, _, _, _) => BindReads(p, rest);
    case Ctc(_, _) => CtcPlain(p, rest);
    case Dial(_, _, _, _) => DialReads(p, rest);
    case Ring(_, _, _) => RingReads(p, rest);
    case Red(_, _) => RedReads(p, rest);
    case Deliver(_, _) => DeliverReads(p, rest);
    case Record(_, _) => RecordReads(p, rest);
    case Listen(_, _) => RecordReads(p, rest);
    case Wait(_) => WaitReads(p, rest);
    case Walk(_) => WalkReads(p, rest);
    case Halt(_) => NumberReads(p, rest);
    case Err(_) => NumberReads(p, rest);
    case Achn(_, _, _) => AchnReads(p, rest);
    case Echn(_, _) => EchnReads(p, rest);
    case _ => BareReads(p, rest);
  }

  lemma IdsClean()
    ensures Clean("BND", ' ') && Clean("DIA", ' ') && Clean("RNG", ' ') && Clean("TAK", ' ') && Clean("RED", ' ')
    ensures Clean("SVR", ' ') && Clean("REC", ' ') && Clean("LIS", ' ') && Clean("WAT", ' ') && Clean("WAR", ' ')
    ensures Clean("HAL", ' ') && Clean("ACH", ' ') && Clean("ECH", ' ') && Clean("HSK", ' ') && Clean("OK", ' ')
    ensures Clean("ERR", ' ') && Clean("BYE", ' ') && Clean("P", ' ') && Clean("HND", ' ') && Clean("CTC", ' ')
  {}
}
