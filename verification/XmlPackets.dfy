/** Length-prefixed packets that carry an XML element over several lines. */
module XmlPackets {
  import opened Bytes
  import opened Packets
  import opened PacketLines
  import opened PacketRoundTrip
  import opened CallBuffer
  import opened Handshakes
  import opened XmlText
  import opened XmlTree
  import opened XmlRoundTrip
  import opened XmlDocuments
  import opened XmlEquality
  import opened XmlExact

  datatype Kind = SyncOrderRelation | SyncDataView | SyncHostFile | FaultResp

  function Id(k: Kind): string {
    match k
    case SyncOrderRelation => "SOR"
    case SyncDataView => "SDV"
    case SyncHostFile => "SHF"
    case FaultResp => "FAL"
  }

  datatype XmlPacket = XmlPacket(kind: Kind, xml: Option<Element>)

  /** EncodeBody: a line with id and length, then the element with line breaks, then a line break. */
  function EncodeXml(k: Kind, l: Listing): string {
    var xml := Document(l, false, true);
    Id(k) + " " + PrintInt(|xml|) + CRLF + xml + CRLF
  }

  /** _ttoi */
  function Atoi(s: string): int {
    if s != "" && s[0] == '-' then -(ScanDigits(s[1..], 10, 0) as int)
    else if s != "" && s[0] == '+' then ScanDigits(s[1..], 10, 0)
    else ScanDigits(s, 10, 0)
  }

  /** LoadBody: an order relation must have its own name, in any case. */
  function Accepted(k: Kind, e: Option<Element>): Option<Element> {
    if e.Some? && k.SyncOrderRelation? && Lower(e.value.name) != "syncorderrelation" then None else e
  }

  /** LoadPacket behind the id at position at: the element and the size, 0 while the text is incomplete. */
  function LoadXml(s: string, k: Kind, at: nat): (Option<Element>, nat) {
    var (n, a) := Next(s, at, 16, ' ');
    var length := Atoi(n);
    if length < 0 || |s| < a + 2 + length then (None, 0)
    else (Accepted(k, FromString(s[a + 2..a + 2 + length], false)), a + 2 + length)
  }

  function KindOf(id: string): Option<Kind> {
    if id == "SOR" then Some(SyncOrderRelation)
    else if id == "SDV" then Some(SyncDataView)
    else if id == "SHF" then Some(SyncHostFile)
    else if id == "FAL" then Some(FaultResp)
    else None
  }

  /** CPacketBase::ReadBuffer */
  function DecodeXml(s: string): Option<(XmlPacket, nat)> {
    var id := Field(s, 0, 10, ' ', false);
    if KindOf(id).None? then None
    else var (e, n) := LoadXml(s, KindOf(id).value, |id|); Some((XmlPacket(KindOf(id).value, e), n))
  }

  /** CChannel::ReadBuffer: the packet, what is left of the queue, and what is printed in reply. */
  function PollXml(s: string): (Option<XmlPacket>, string, string) {
    if LineEnd(s) == |s| then (None, s, "")
    else
      var d := DecodeXml(s);
      if d.None? then (None, Cut(s, |CutReturn(s[..LineEnd(s)])|), Encode(Err(UNKNOWN)))
      else (Some(d.value.0), Cut(s, d.value.1), "")
  }

  // ---------------------------------------------------------------- whole packets

  /** The first line, with the number of characters that follow it. */
  function HeadLine(k: Kind, n: nat): string { Id(k) + " " + PrintInt(n) + CRLF }

  lemma KindKnown(k: Kind)
    ensures KindOf(Id(k)) == Some(k) && Clean(Id(k), ' ') && |Id(k)| == 3 && '\n' !in Id(k)
  {}

  lemma LengthRead(n: nat)
    requires n < 0x8000_0000
    ensures Atoi(PrintInt(n)) == n && |PrintInt(n)| <= 16 && Clean(PrintInt(n), ' ') && PrintInt(n)[0] != ' '
  {
    DigitsDecimal(n);
    ScanDigitsPrinted(n);
    PrintClean(n, ' ');
    assert Pow(10, 2) == 100 && Pow(10, 4) == 10000;
    assert Pow(10, 6) == 1_000_000 && Pow(10, 8) == 100_000_000 && Pow(10, 10) == 10_000_000_000;
    hide Digits;
    DigitsShort(n, 10);
  }

  lemma HeadShape(k: Kind, n: nat, rest: string)
    ensures HeadLine(k, n) + rest == Id(k) + (" " + PrintInt(n) + (CRLF + rest))
    ensures |HeadLine(k, n)| == |Id(k)| + 3 + |PrintInt(n)|
  {
    hide PrintInt, Id;
  }

  lemma HeadIsLine(k: Kind, n: nat)
    ensures OneLine(HeadLine(k, n))
  {
    hide PrintInt, OneLine, Id;
    KindKnown(k);
    NumberPlain(n);
    LineOf(Id(k) + " " + PrintInt(n));
  }

  /** What LoadPacket makes of a head line and whatever follows it. */
  lemma HeadReads(k: Kind, n: nat, body: string)
    requires n < 0x8000_0000
    ensures var s := HeadLine(k, n) + body;
      DecodeXml(s) == Some(
        if |body| < n then (XmlPacket(k, None), 0)
        else (XmlPacket(k, Accepted(k, FromString(body[..n], false))), |HeadLine(k, n)| + n))
  {
    hide PrintInt, Id, Next, Field, KindOf, FromString, Clean, Atoi, HeadLine;
    var s, p := HeadLine(k, n) + body, PrintInt(n);
    KindKnown(k);
    LengthRead(n);
    HeadShape(k, n, body);
    var tail := " " + p + (CRLF + body);
    IdReads(s, Id(k), tail);
    TokenReads(s, 3, p, 16, ' ', CRLF + body);
    var a := 4 + |p|;
    if n <= |body| { BodyAt(s, a, body, n); }
  }

  lemma BodyAt(s: string, a: nat, body: string, n: nat)
    requires a <= |s| && s[a..] == CRLF + body && n <= |body|
    ensures a + 2 + n <= |s| && s[a + 2..a + 2 + n] == body[..n]
  {
    assert |s[a..]| == 2 + |body|;
    assert s[a + 2..] == s[a..][2..] == body;
    assert s[a + 2..a + 2 + n] == s[a + 2..][..n];
  }

  /** A whole packet: whatever its text is read as, exactly the packet leaves the queue. */
  lemma WholeTaken(k: Kind, l: Listing, rest: string)
    requires |Document(l, false, true)| < 0x8000_0000
    ensures PollXml(EncodeXml(k, l) + rest) ==
      (Some(XmlPacket(k, Accepted(k, FromString(Document(l, false, true), false)))), rest, "")
  {
    hide Document, FromString, Accepted, DecodeXml, HeadLine, LineEnd, Id, PrintInt;
    var xml := Document(l, false, true);
    var head, s := HeadLine(k, |xml|), EncodeXml(k, l) + rest;
    WholeShape(k, l, rest);
    HeadIsLine(k, |xml|);
    LineLeads(head, xml + (CRLF + rest));
    HeadReads(k, |xml|, xml + (CRLF + rest));
    assert (xml + (CRLF + rest))[..|xml|] == xml;
    CutBehind(s, head + xml, rest);
  }

  /** A whole packet of a printable element: the element as it reads back. */
  lemma WholePolls(k: Kind, l: Listing, rest: string)
    requires Printable(l) && |Document(l, false, true)| < 0x8000_0000
    ensures PollXml(EncodeXml(k, l) + rest) == (Some(XmlPacket(k, Accepted(k, ReadBack(l)))), rest, "")
  {
    hide Document, Printable, ReadBack, FromString, Accepted, PollXml, EncodeXml;
    WholeTaken(k, l, rest);
    DocumentReads(l, false, true, false);
  }

  lemma WholeShape(k: Kind, l: Listing, rest: string)
    ensures var xml := Document(l, false, true);
      EncodeXml(k, l) + rest == HeadLine(k, |xml|) + (xml + (CRLF + rest)) == HeadLine(k, |xml|) + xml + (CRLF + rest)
  {
    hide Document, PrintInt, Id;
  }

  lemma CutBehind(s: string, packet: string, rest: string)
    requires s == packet + (CRLF + rest)
    ensures Cut(s, |packet|) == rest
  {
    assert s[|packet|] == '\r';
    assert s[|packet| + 2..] == rest;
  }

  /**
   * In every attribute order, the tree arrives exactly when it is well keyed, tidy and nameable and its name suits
   * the packet.
   */
  lemma TreeArrives(k: Kind, l: Listing, e: Element, rest: string)
    requires Lists(l, e) && |Document(l, false, true)| < 0x8000_0000
    ensures var (p, left, reply) := PollXml(EncodeXml(k, l) + rest);
      && p.Some? && p.value.kind == k && left == rest && reply == ""
      && (p.value.xml == Some(e) <==>
          WellKeyed(e) && TidyElement(e) && Nameable(e) && (k.SyncOrderRelation? ==> Lower(e.name) == "syncorderrelation"))
  {
    hide Document, Nameable, WellKeyed, TidyElement, Lists, FromString, PollXml, Lower, EncodeXml;
    WholeTaken(k, l, rest);
    ReadsExactly(l, e, false, true, false);
  }

  // ---------------------------------------------------------------- commands and lengths

  const WORDS: map<string, Kind> := map["SOR" := SyncOrderRelation, "SDV" := SyncDataView, "SHF" := SyncHostFile, "FAL" := FaultResp]

  /** A packet is told by its first word, and what starts with another word is none. */
  lemma WordsExactly(s: string, id: string)
    requires id <= s && |id| <= 10 && Clean(id, ' ') && Stops(id, 10, ' ', s[|id|..])
    ensures DecodeXml(s).Some? <==> id in WORDS
    ensures id in WORDS ==> DecodeXml(s).value.0.kind == WORDS[id]
  {
    hide Clean, Stops, LoadXml;
    assert s[0..] == id + s[|id|..];
    FieldReads(s, 0, id, 10, ' ', s[|id|..]);
    hide Field;
  }

  /** What starts with another word is answered with an error, and dropped whole exactly when its last carriage return, if any, ends it. */
  lemma OthersRefused(s: string, id: string)
    requires LineEnd(s) < |s| && id <= s && |id| <= 10 && Clean(id, ' ') && Stops(id, 10, ' ', s[|id|..])
    requires id !in WORDS
    ensures PollXml(s).0 == None && PollXml(s).2 == "ERR 8000\r\n"
    ensures var line := s[..LineEnd(s)];
      PollXml(s).1 == s[|line| + 1..] <==> '\r' !in line || line[|line| - 1] == '\r'
  {
    hide LineEnd, CutReturn, DecodeXml, Clean, Stops;
    WordsExactly(s, id);
    var e := LineEnd(s);
    var line := s[..e];
    var n := |CutReturn(line)|;
    assert n < e ==> s[n] == line[n] == '\r';
    assert PollXml(s).1 == s[if n < e then n + 2 else e + 1..];
    if n + 1 < e { assert line[e - 1] != '\r' && line[n] == '\r'; }
    if n + 1 >= e && '\r' in line { assert n + 1 == e; }
    UnknownPrinted();
  }

  /** A length is decimal, in spite of leading zeros, and ends where no digit follows; one sign is applied. */
  lemma LengthScans(zeros: nat, n: nat, rest: string)
    requires rest != "" ==> !('0' <= rest[0] <= '9')
    ensures var digits := Zeros(zeros) + PrintInt(n) + rest;
      Atoi(digits) == Atoi("+" + digits) == n && Atoi("-" + digits) == -(n as int)
  {
    hide ScanDigits, Digits;
    var digits := Zeros(zeros) + PrintInt(n) + rest;
    ScanZeros(zeros, PrintInt(n) + rest);
    assert Zeros(zeros) + (PrintInt(n) + rest) == digits;
    ScanDigitsPrinted(n);
    if rest != "" { NoDecimal(rest[0]); }
    DigitsDecimal(n);
    ScanStops(PrintInt(n), rest, 10, 0);
    assert ("+" + digits)[1..] == digits && ("-" + digits)[1..] == digits;
    assert digits[0] == if zeros > 0 then '0' else Digits(n)[0];
  }

  function Zeros(n: nat): string { seq(n, _ => '0') }

  lemma {:induction false} ScanZeros(n: nat, s: string)
    ensures ScanDigits(Zeros(n) + s, 10, 0) == ScanDigits(s, 10, 0)
  {
    if n == 0 {
      assert Zeros(0) + s == s;
    } else {
      ScanZeros(n - 1, s);
      assert Zeros(n) + s == "0" + (Zeros(n - 1) + s);
    }
  }

  // ---------------------------------------------------------------- packets that arrive in pieces

  /** What a poll makes of the first n characters of a packet. */
  datatype Partial = Waits | Spoils | Repeats | Whole

  function Stage(k: Kind, l: Listing, n: nat): Partial {
    var xml := Document(l, false, true);
    var head := |HeadLine(k, |xml|)|;
    if n < head then Waits else if n < head + |xml| then Spoils else if n < head + |xml| + 2 then Repeats else Whole
  }

  /**
   * A first line without all of its element costs the queue its first character; an element without
   * the line break behind it is delivered but stays in the queue.
   */
  lemma PartialPolls(k: Kind, l: Listing, n: nat)
    requires Printable(l) && |Document(l, false, true)| < 0x8000_0000 && n <= |EncodeXml(k, l)|
    ensures var q := EncodeXml(k, l)[..n];
      PollXml(q) == match Stage(k, l, n)
        case Waits => (None, q, "")
        case Spoils => (Some(XmlPacket(k, None)), q[1..], "")
        case Repeats => (Some(XmlPacket(k, Accepted(k, ReadBack(l)))), q, "")
        case Whole => (Some(XmlPacket(k, Accepted(k, ReadBack(l)))), "", "")
  {
    hide Document, Printable, ReadBack, FromString, Accepted, DecodeXml, HeadLine, LineEnd, OneLine, EncodeXml, Cut;
    var xml := Document(l, false, true);
    var head := HeadLine(k, |xml|);
    var q := EncodeXml(k, l)[..n];
    WholeShape(k, l, "");
    assert EncodeXml(k, l) + "" == EncodeXml(k, l) && CRLF + "" == CRLF;
    var all := head + (xml + CRLF);
    HeadIsLine(k, |xml|);
    if n < |head| {
      HeadWaits(head, all, n);
    } else {
      var body := (xml + CRLF)[..n - |head|];
      assert q == head + body;
      LineLeads(head, body);
      HeadReads(k, |xml|, body);
      if n < |head| + |xml| {
        CutFirst(q, head, k, |xml|, body);
      } else {
        assert body[..|xml|] == xml;
        DocumentReads(l, false, true, false);
        if n == |EncodeXml(k, l)| {
          assert q == head + xml + (CRLF + "");
          CutBehind(q, head + xml, "");
        } else {
          CutPast(q, head + xml, body, |xml|);
        }
      }
    }
  }

  lemma HeadWaits(head: string, all: string, n: nat)
    requires OneLine(head) && n < |head| <= |all| && all[..|head|] == head
    ensures LineEnd(all[..n]) == n
  {
    hide LineEnd;
    var q := all[..n];
    forall i | 0 <= i < n ensures q[i] != '\n' {
      assert q[i] == all[..|head|][i] == head[..|head| - 1][i];
    }
  }

  lemma CutFirst(q: string, head: string, k: Kind, n: nat, body: string)
    requires head == HeadLine(k, n) && q == head + body
    ensures Cut(q, 0) == q[1..]
  {
    hide PrintInt;
    assert q[0] == head[0] == Id(k)[0];
  }

  lemma CutPast(q: string, packet: string, body: string, n: nat)
    requires |packet| <= |q| < |packet| + 2 && (|q| == |packet| + 1 ==> q[|packet|] == '\r')
    ensures Cut(q, |packet|) == q
  {}
}
