/**
 * The call-centre line packets: field reader, printers and the packet dispatcher, as functions of
 * the text in the queue. Text is ASCII; reading past the end of the queue sees a NUL.
 */
module Packets {
  import opened Bytes

  // ---------------------------------------------------------------- characters and fields

  predicate IsControl(c: char) { c < ' ' || c == 127 as char }

  function At(s: string, i: nat): char { if i < |s| then s[i] else '\0' }

  /** CPacket::ReadField: up to n characters, ended by a control character or by part outside [...]. */
  function Field(s: string, at: nat, n: nat, part: char, quoted: bool): (f: string)
    ensures |f| <= n
    decreases |s| - at
  {
    if n == 0 || IsControl(At(s, at)) then ""
    else if At(s, at) == '[' then Field(s, at + 1, n, part, true)
    else if quoted && At(s, at) == ']' then Field(s, at + 1, n, part, false)
    else if At(s, at) == part && !quoted then ""
    else [At(s, at)] + Field(s, at + 1, n - 1, part, quoted)
  }

  function SkipSpaces(s: string, at: nat): (r: nat)
    ensures at <= r
    decreases |s| - at
  {
    if at < |s| && s[at] == ' ' then SkipSpaces(s, at + 1) else at
  }

  /** Skip spaces, read one field; the cursor advances by the number of characters stored. */
  function Next(s: string, at: nat, n: nat, part: char): (string, nat) {
    var a := SkipSpaces(s, at);
    var f := Field(s, a, n, part, false);
    (f, a + |f|)
  }

  /** Text that survives a field: no control characters, no opening bracket, no separator. */
  predicate Clean(f: string, part: char) {
    forall i | 0 <= i < |f| :: !IsControl(f[i]) && f[i] != '[' && f[i] != part
  }

  /** What may follow a field of n characters that has been filled with f. */
  predicate Stops(f: string, n: nat, part: char, tail: string) {
    |f| == n || IsControl(At(tail, 0)) || At(tail, 0) == part
  }

  lemma {:induction false} FieldReads(s: string, at: nat, f: string, n: nat, part: char, tail: string)
    requires at <= |s| && s[at..] == f + tail && Clean(f, part) && |f| <= n && Stops(f, n, part, tail) && part != '['
    ensures Field(s, at, n, part, false) == f
    decreases |f|
  {
    if f == "" {
      assert At(s, at) == At(tail, 0) by {
        if at < |s| { assert s[at] == s[at..][0]; }
      }
    } else {
      assert s[at] == s[at..][0] == f[0];
      assert s[at + 1..] == s[at..][1..] == f[1..] + tail;
      FieldReads(s, at + 1, f[1..], n - 1, part, tail);
    }
  }

  /** A separating space and a field that does not start with one. */
  lemma TokenReads(s: string, at: nat, f: string, n: nat, part: char, tail: string)
    requires at <= |s| && s[at..] == " " + f + tail && Clean(f, part) && |f| <= n && Stops(f, n, part, tail) && part != '['
    requires At(f + tail, 0) != ' '
    ensures Next(s, at, n, part) == (f, at + 1 + |f|)
    ensures at + 1 + |f| <= |s| && s[at + 1 + |f|..] == tail
  {
    assert s[at] == s[at..][0];
    assert s[at + 1..] == s[at..][1..] == f + tail;
    if at + 1 < |s| { assert s[at + 1] == s[at + 1..][0]; }
    assert SkipSpaces(s, at + 1) == at + 1;
    FieldReads(s, at + 1, f, n, part, tail);
    assert s[at + 1 + |f|..] == s[at + 1..][|f|..];
  }

  /** A field that follows directly, without a space. */
  lemma DirectReads(s: string, at: nat, f: string, n: nat, part: char, tail: string)
    requires at <= |s| && s[at..] == f + tail && Clean(f, part) && |f| <= n && Stops(f, n, part, tail) && part != '['
    requires At(f + tail, 0) != ' '
    ensures Next(s, at, n, part) == (f, at + |f|)
    ensures at + |f| <= |s| && s[at + |f|..] == tail
  {
    if at < |s| { assert s[at] == s[at..][0]; }
    FieldReads(s, at, f, n, part, tail);
    assert s[at + |f|..] == s[at..][|f|..];
  }

  // ---------------------------------------------------------------- numbers

  function DigitOf(d: nat): char
    requires d < 10
  {
    ('0' as int + d) as char
  }

  function Digits(n: nat): (s: string)
    ensures s != []
  {
    if n < 10 then [DigitOf(n)] else Digits(n / 10) + [DigitOf(n % 10)]
  }

  /** printf %i */
  function PrintInt(n: int): (s: string)
    ensures s != []
  {
    if n < 0 then "-" + Digits(-n) else Digits(n)
  }

  function DigitValue(c: char): (v: int)
    ensures -1 <= v < 16
  {
    if '0' <= c <= '9' then c as int - '0' as int
    else if 'a' <= c <= 'f' then c as int - 'a' as int + 10
    else if 'A' <= c <= 'F' then c as int - 'A' as int + 10
    else -1
  }

  /** Value of the leading digits of s in a base, continuing from acc. */
  function ScanDigits(s: string, base: nat, acc: nat): nat {
    if s == [] || DigitValue(s[0]) < 0 || DigitValue(s[0]) >= base then acc
    else ScanDigits(s[1..], base, acc * base + DigitValue(s[0]))
  }

  function ScanNat(s: string): Option<nat> {
    if s == [] || !('0' <= s[0] <= '9') then None
    else if |s| >= 3 && s[0] == '0' && (s[1] == 'x' || s[1] == 'X') && DigitValue(s[2]) >= 0 then Some(ScanDigits(s[2..], 16, 0))
    else if s[0] == '0' then Some(ScanDigits(s, 8, 0))
    else Some(ScanDigits(s, 10, 0))
  }

  /** scanf %i: the base comes from the prefix; None leaves the variable alone. */
  function ScanInt(s: string): Option<int> {
    if s != [] && s[0] == '-' then (var n := ScanNat(s[1..]); if n.None? then None else Some(-(n.value as int)))
    else if s != [] && s[0] == '+' then (var n := ScanNat(s[1..]); if n.None? then None else Some(n.value as int))
    else (var n := ScanNat(s); if n.None? then None else Some(n.value as int))
  }

  function ScanOr(s: string, default: int): int {
    if ScanInt(s).None? then default else ScanInt(s).value
  }

  predicate AllDecimal(s: string) { forall i | 0 <= i < |s| :: '0' <= s[i] <= '9' }

  lemma {:induction false} DigitsDecimal(n: nat)
    ensures AllDecimal(Digits(n)) && (n > 0 ==> Digits(n)[0] != '0')
  {
    if n >= 10 { DigitsDecimal(n / 10); }
  }

  lemma {:induction false} ScanSnoc(s: string, c: char, acc: nat)
    requires AllDecimal(s) && '0' <= c <= '9'
    ensures ScanDigits(s + [c], 10, acc) == ScanDigits(s, 10, acc) * 10 + DigitValue(c)
    decreases |s|
  {
    if s == [] {
      var t := (s + [c])[1..];
      assert ScanDigits(t, 10, acc * 10 + DigitValue(c)) == acc * 10 + DigitValue(c);
    } else {
      ScanSnoc(s[1..], c, acc * 10 + DigitValue(s[0]));
      assert (s + [c])[1..] == s[1..] + [c];
    }
  }

  lemma {:induction false} ScanDigitsPrinted(n: nat)
    ensures ScanDigits(Digits(n), 10, 0) == n
  {
    DigitsDecimal(n);
    if n < 10 {
      var t := Digits(n)[1..];
      assert ScanDigits(t, 10, n) == n;
    } else {
      ScanDigitsPrinted(n / 10);
      DigitsDecimal(n / 10);
      ScanSnoc(Digits(n / 10), DigitOf(n % 10), 0);
    }
  }

  lemma ScanNatPrinted(n: nat)
    ensures ScanNat(Digits(n)) == Some(n)
  {
    DigitsDecimal(n);
    ScanDigitsPrinted(n);
    if n == 0 {
      var t := Digits(0)[1..];
      assert ScanDigits(t, 8, 0) == 0;
    }
  }

  /** Scanning undoes printing, in spite of the octal and hexadecimal prefixes. */
  lemma ScanPrinted(n: int)
    ensures ScanInt(PrintInt(n)) == Some(n)
  {
    var m := if n < 0 then -n else n;
    ScanNatPrinted(m);
    DigitsDecimal(m);
    hide Digits, ScanNat;
    if n < 0 { assert PrintInt(n)[1..] == Digits(m); }
  }

  lemma PrintClean(n: int, part: char)
    requires part == ' ' || part == ','
    ensures Clean(PrintInt(n), part) && PrintInt(n)[0] != ' '
  {
    DigitsDecimal(if n < 0 then -n else n);
    hide Digits;
  }

  // ---------------------------------------------------------------- packets

  datatype Packet =
    | Bind(callType: string, localId: string, remoteId: string, feeNumber: string)
    | Hnd(callType: string, localId: string, remoteId: string, feeNumber: string)
    | Dial(remoteId: string, localId: string, callerId: string, feeNumber: string)
    | Ring(localId: string, remoteId: string, line: int)
    | Ctc(localId: string, line: int)
    | Talk
    | Red(msgType: string, minutes: int)
    | Deliver(msgType: string, content: string)
    | Record(channel: int, msgType: string)
    | Listen(channel: int, msgType: string)
    | Wait(msgType: string)
    | Walk(walkId: string)
    | Halt(link: int)
    | Achn(chType: int, first: int, count: int)
    | Echn(channel: int, state: int)
    | Handsk
    | Ok
    | Err(code: int)
    | Bye

  const CRLF := "\r\n"

  function Opt(f: string): string { if f == "" then "" else " " + f }

  /** Dial, Ring and Ctc send an empty id as "P". */
  function IdOrP(f: string): (r: string)
    ensures r != ""
  {
    if f == "" then "P" else f
  }

  /** EncodeBody of each packet. */
  function Encode(p: Packet): string {
    match p
    case Bind(c, l, r, f) => "BND" + Opt(c) + Opt(l) + Opt(r) + Opt(f) + CRLF
    case Hnd(c, l, r, f) => "HND" + Opt(c) + Opt(l) + Opt(r) + Opt(f) + CRLF
    case Dial(r, l, c, f) => "DIA" + " " + IdOrP(r) + " " + IdOrP(l) + " " + IdOrP(c) + Opt(f) + CRLF
    case Ring(l, r, n) => "RNG" + " " + IdOrP(l) + " " + IdOrP(r) + Opt(if n == -1 then "" else PrintInt(n)) + CRLF
    case Ctc(l, _) => "CTC" + " " + IdOrP(l) + CRLF
    case Talk => "TAK" + CRLF
    case Red(t, n) => "RED" + " " + t + "," + PrintInt(n) + CRLF
    case Deliver(t, c) => "SVR" + " " + t + Opt(c) + CRLF
    case Record(n, t) => "REC" + " " + PrintInt(n) + Opt(t) + CRLF
    case Listen(n, t) => "LIS" + " " + PrintInt(n) + Opt(t) + CRLF
    case Wait(t) => "WAT" + Opt(t) + CRLF
    case Walk(w) => "WAR" + " " + w + CRLF
    case Halt(n) => "HAL" + " " + PrintInt(n) + CRLF
    case Achn(t, f, c) => "ACH" + " " + PrintInt(t) + "," + PrintInt(f) + "," + PrintInt(c) + CRLF
    case Echn(c, st) => "ECH" + " " + PrintInt(c) + "," + PrintInt(st) + CRLF
    case Handsk => "HSK" + CRLF
    case Ok => "OK" + CRLF
    case Err(n) => "ERR" + " " + PrintInt(n) + CRLF
    case Bye => "BYE" + CRLF
  }

  /** Four fields in a row, the first of up to n characters. */
  function DecodeFour(s: string, at: nat, n: nat): (string, string, string, string, nat) {
    var (c, a1) := Next(s, at, n, ' ');
    var (l, a2) := Next(s, a1, 21, ' ');
    var (r, a3) := Next(s, a2, 21, ' ');
    var (f, a4) := Next(s, a3, 21, ' ');
    (c, l, r, f, a4)
  }

  function DecodeRing(s: string, at: nat): (Packet, nat) {
    var (l, a1) := Next(s, at, 21, ' ');
    var (r, a2) := Next(s, a1, 21, ' ');
    var (n, a3) := Next(s, a2, 10, ' ');
    (Ring(l, r, ScanOr(n, -1)), a3)
  }

  /** Minutes is a 16-bit field; MsgType is read ten characters at most. */
  function DecodeRed(s: string, at: nat): (Packet, nat) {
    var (t, a1) := Next(s, at, 10, ',');
    var (n, a2) := Next(s, if At(s, a1) == ',' then a1 + 1 else a1, 10, ',');
    (Red(t, ScanOr(n, 0) % 65536), a2)
  }

  function DecodeDeliver(s: string, at: nat): (Packet, nat) {
    var (t, a1) := Next(s, at, 16, ' ');
    var (c, a2) := Next(s, a1, 1024, '\0');
    (Deliver(t, c), a2)
  }

  function DecodeNumbered(s: string, at: nat): (int, string, nat) {
    var (n, a1) := Next(s, at, 10, ' ');
    var (t, a2) := Next(s, a1, 16, ' ');
    (ScanOr(n, -1), t, a2)
  }

  function DecodeNumber(s: string, at: nat, default: int): (int, nat) {
    var (n, a1) := Next(s, at, 10, ' ');
    (ScanOr(n, default), a1)
  }

  /** Achn and Echn step over the character after every number, the last one included. */
  function DecodeComma(s: string, at: nat, default: int): (int, nat) {
    var (n, a1) := Next(s, at, 10, ',');
    (ScanOr(n, default), a1 + 1)
  }

  function DecodeAchn(s: string, at: nat): (Packet, nat) {
    var (t, a1) := DecodeComma(s, at, 0);
    var (f, a2) := DecodeComma(s, a1, 0);
    var (c, a3) := DecodeComma(s, a2, 0);
    (Achn(t, f, c), a3)
  }

  function DecodeEchn(s: string, at: nat): (Packet, nat) {
    var (c, a1) := DecodeComma(s, at, 0);
    var (st, a2) := DecodeComma(s, a1, -1);
    (Echn(c, st), a2)
  }

  /** CPacketCore::ReadBuffer: the packet and its BufferSize, chosen by the command id. */
  function Decode(s: string): Option<(Packet, nat)> {
    var id := Field(s, 0, 10, ' ', false);
    DecodeAs(s, id, |id|)
  }

  function DecodeAs(s: string, id: string, at: nat): Option<(Packet, nat)> {
    if id == "BND" then (var (c, l, r, f, a) := DecodeFour(s, at, 16); Some((Bind(c, l, r, f), a)))
    else if id == "HND" then (var (c, l, r, f, a) := DecodeFour(s, at, 16); Some((Hnd(c, l, r, f), a)))
    else if id == "DIA" then (var (r, l, c, f, a) := DecodeFour(s, at, 21); Some((Dial(r, l, c, f), a)))
    else if id == "RNG" then Some(DecodeRing(s, at))
    else if id == "CTC" then (var (n, a) := DecodeNumber(s, at, -1); Some((Ctc("P", n), a)))
    else if id == "TAK" then Some((Talk, at))
    else if id == "RED" then Some(DecodeRed(s, at))
    else if id == "SVR" then Some(DecodeDeliver(s, at))
    else if id == "REC" then (var (n, t, a) := DecodeNumbered(s, at); Some((Record(n, t), a)))
    else if id == "LIS" then (var (n, t, a) := DecodeNumbered(s, at); Some((Listen(n, t), a)))
    else if id == "WAT" then (var (t, a) := Next(s, at, 16, ' '); Some((Wait(t), a)))
    else if id == "WAR" then (var (w, a) := Next(s, at, 21, ' '); Some((Walk(w), a)))
    else if id == "HAL" then (var (n, a) := DecodeNumber(s, at, 0); Some((Halt(n), a)))
    else if id == "ACH" then Some(DecodeAchn(s, at))
    else if id == "ECH" then Some(DecodeEchn(s, at))
    else if id == "HSK" then Some((Handsk, at))
    else if id == "OK" then Some((Ok, at))
    else if id == "ERR" then (var (n, a) := DecodeNumber(s, at, 0); Some((Err(n), a)))
    else if id == "BYE" then Some((Bye, at))
    else None
  }

  // ---------------------------------------------------------------- what can be sent and read back

  predicate Word(f: string, n: nat) { |f| <= n && Clean(f, ' ') }

  /** Numbers are formatted into ten characters, the terminator included. */
  predicate Small(n: int) { -99_999_999 <= n <= 999_999_999 }

  predicate Sendable(p: Packet) {
    match p
    case Bind(c, l, r, f) =>
      && Word(c, 16) && Word(l, 21) && Word(r, 21) && Word(f, 21)
      && (c == "" ==> l == "") && (l == "" ==> r == "") && (r == "" ==> f == "")
    case Hnd(c, l, r, f) =>
      && Word(c, 16) && Word(l, 21) && Word(r, 21) && Word(f, 21)
      && (c == "" ==> l == "") && (l == "" ==> r == "") && (r == "" ==> f == "")
    case Dial(r, l, c, f) => Word(r, 21) && Word(l, 21) && Word(c, 21) && Word(f, 21)
    case Ring(l, r, n) => Word(l, 21) && Word(r, 21) && Small(n)
    case Ctc(l, n) => IdOrP(l) == "P" && n == -1
    case Red(t, n) => |t| <= 10 && Clean(t, ',') && At(t, 0) != ' ' && 0 <= n < 65536
    case Deliver(t, c) => Word(t, 16) && |c| <= 1024 && Clean(c, '\0') && At(c, 0) != ' ' && (t == "" ==> c == "")
    case Record(n, t) => Small(n) && Word(t, 16)
    case Listen(n, t) => Small(n) && Word(t, 16)
    case Wait(t) => Word(t, 16)
    case Walk(w) => Word(w, 21)
    case Halt(n) => Small(n)
    case Achn(t, f, c) => Small(t) && Small(f) && Small(c)
    case Echn(c, st) => Small(c) && Small(st)
    case Err(n) => Small(n)
    case Talk => true
    case Handsk => true
    case Ok => true
    case Bye => true
  }

  /** What the receiver gets: empty ids arrive as "P". */
  function Normal(p: Packet): Packet {
    match p
    case Dial(r, l, c, f) => Dial(IdOrP(r), IdOrP(l), IdOrP(c), f)
    case Ring(l, r, n) => Ring(IdOrP(l), IdOrP(r), n)
    case Ctc(l, n) => Ctc(IdOrP(l), n)
    case _ => p
  }
}
