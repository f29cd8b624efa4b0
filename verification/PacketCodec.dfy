/** Packets read with a moving cursor and printed onto a buffer, as LoadPacket and EncodeBody do. */
module PacketCodec {
  import opened Bytes
  import opened Packets
  import opened CallBuffer

  /** What is left to read once acc has been stored and the cursor is at p. */
  lemma FieldStep(s: string, p: nat, n: nat, part: char, quoted: bool)
    requires n > 0 && !IsControl(At(s, p))
    ensures p < |s| && s[p] != '\0'
    ensures s[p] == '[' ==> Field(s, p, n, part, quoted) == Field(s, p + 1, n, part, true)
    ensures s[p] == ']' && quoted ==> Field(s, p, n, part, quoted) == Field(s, p + 1, n, part, false)
    ensures s[p] == part && !quoted && s[p] != '[' ==> Field(s, p, n, part, quoted) == ""
    ensures s[p] != '[' && !(s[p] == ']' && quoted) && !(s[p] == part && !quoted) ==>
      Field(s, p, n, part, quoted) == [s[p]] + Field(s, p + 1, n - 1, part, quoted)
  {}

  lemma FieldEnds(s: string, p: nat, n: nat, part: char, quoted: bool)
    requires n == 0 || IsControl(At(s, p))
    ensures Field(s, p, n, part, quoted) == ""
  {}

  lemma Appended(f: string, c: char, rest: string)
    ensures f + ([c] + rest) == f + [c] + rest && f + "" == f && "" + rest == rest
  {}

  /** CPacket::ReadField. */
  method ReadField(s: string, at: nat, n: nat, part: char) returns (f: string)
    ensures f == Field(s, at, n, part, false)
  {
    hide Field, IsControl;
    f := "";
    var right, p := '\0', at;
    Appended(f, part, Field(s, at, n, part, false));
    while |f| < n && !IsControl(At(s, p))
      invariant |f| <= n && (right == '\0' || right == ']')
      invariant Field(s, at, n, part, false) == f + Field(s, p, n - |f|, part, right == ']')
      decreases |s| - p
    {
      FieldStep(s, p, n - |f|, part, right == ']');
      if s[p] == '[' {
        right := ']';
      } else if s[p] == right {
        right := '\0';
      } else if s[p] == part && right == '\0' {
        Appended(f, part, "");
        return;
      } else {
        Appended(f, s[p], Field(s, p + 1, n - (|f| + 1), part, right == ']'));
        f := f + [s[p]];
      }
      p := p + 1;
    }
    FieldEnds(s, p, n - |f|, part, right == ']');
    Appended(f, part, "");
  }

  /** The cursor of a LoadPacket: ptr and nRead move together. */
  class Cursor {
    const text: string
    var at: nat

    constructor (text: string, at: nat)
      ensures this.text == text && this.at == at
    {
      this.text := text;
      this.at := at;
    }

    method Skip()
      modifies this
      ensures at == SkipSpaces(text, old(at))
    {
      while at < |text| && text[at] == ' '
        invariant SkipSpaces(text, at) == SkipSpaces(text, old(at))
      {
        at := at + 1;
      }
    }

    /** Skip spaces and read one field. */
    method Read(n: nat, part: char) returns (f: string)
      modifies this
      ensures (f, at) == Next(text, old(at), n, part)
    {
      Skip();
      f := ReadField(text, at, n, part);
      at := at + |f|;
    }

    /** One number, with the value kept when there is none. */
    method ReadNumber(part: char, default: int) returns (v: int)
      modifies this
      ensures (v, at) == var (f, a) := Next(text, old(at), 10, part); (ScanOr(f, default), a)
    {
      var f := Read(10, part);
      v := ScanOr(f, default);
    }

    /** One number and the character behind it. */
    method ReadComma(default: int) returns (v: int)
      modifies this
      ensures (v, at) == DecodeComma(text, old(at), default)
    {
      v := ReadNumber(',', default);
      at := at + 1;
    }

    method ReadFour(n: nat) returns (c: string, l: string, r: string, f: string)
      modifies this
      ensures (c, l, r, f, at) == DecodeFour(text, old(at), n)
    {
      hide Next;
      c := Read(n, ' ');
      l := Read(21, ' ');
      r := Read(21, ' ');
      f := Read(21, ' ');
    }

    method ReadRing() returns (p: Packet)
      modifies this
      ensures (p, at) == DecodeRing(text, old(at))
    {
      hide Next, ScanOr;
      var l := Read(21, ' ');
      var r := Read(21, ' ');
      var line := ReadNumber(' ', -1);
      p := Ring(l, r, line);
    }

    method ReadRed() returns (p: Packet)
      modifies this
      ensures (p, at) == DecodeRed(text, old(at))
    {
      hide Next, ScanOr;
      var t := Read(10, ',');
      if At(text, at) == ',' { at := at + 1; }
      var minutes := ReadNumber(',', 0);
      p := Red(t, minutes % 65536);
    }

    method ReadDeliver() returns (p: Packet)
      modifies this
      ensures (p, at) == DecodeDeliver(text, old(at))
    {
      hide Next;
      var t := Read(16, ' ');
      var c := Read(1024, '\0');
      p := Deliver(t, c);
    }

    method ReadNumbered() returns (v: int, t: string)
      modifies this
      ensures (v, t, at) == DecodeNumbered(text, old(at))
    {
      hide Next, ScanOr;
      v := ReadNumber(' ', -1);
      t := Read(16, ' ');
    }

    method ReadAchn() returns (p: Packet)
      modifies this
      ensures (p, at) == DecodeAchn(text, old(at))
    {
      hide DecodeComma;
      var t := ReadComma(0);
      var f := ReadComma(0);
      var c := ReadComma(0);
      p := Achn(t, f, c);
    }

    method ReadEchn() returns (p: Packet)
      modifies this
      ensures (p, at) == DecodeEchn(text, old(at))
    {
      hide DecodeComma;
      var c := ReadComma(0);
      var st := ReadComma(-1);
      p := Echn(c, st);
    }
  }

  /** The LoadPacket chosen by the command id. */
  method LoadAs(s: string, id: string, at: nat) returns (r: Option<(Packet, nat)>)
    ensures r == DecodeAs(s, id, at)
  {
    hide DecodeFour, DecodeRing, DecodeRed, DecodeDeliver, DecodeNumbered, DecodeAchn, DecodeEchn, DecodeNumber, Next, ScanOr;
    var cursor := new Cursor(s, at);
    var p: Packet;
    if id == "BND" { var c, l, r, f := cursor.ReadFour(16); p := Bind(c, l, r, f); }
    else if id == "HND" { var c, l, r, f := cursor.ReadFour(16); p := Hnd(c, l, r, f); }
    else if id == "DIA" { var r, l, c, f := cursor.ReadFour(21); p := Dial(r, l, c, f); }
    else if id == "RNG" { p := cursor.ReadRing(); }
    else if id == "CTC" { var line := LoadNumber(cursor, -1); p := Ctc("P", line); }
    else if id == "TAK" { p := Talk; }
    else if id == "RED" { p := cursor.ReadRed(); }
    else if id == "SVR" { p := cursor.ReadDeliver(); }
    else if id == "REC" { var v, t := cursor.ReadNumbered(); p := Record(v, t); }
    else if id == "LIS" { var v, t := cursor.ReadNumbered(); p := Listen(v, t); }
    else if id == "WAT" { var t := cursor.Read(16, ' '); p := Wait(t); }
    else if id == "WAR" { var w := cursor.Read(21, ' '); p := Walk(w); }
    else if id == "HAL" { var v := LoadNumber(cursor, 0); p := Halt(v); }
    else if id == "ACH" { p := cursor.ReadAchn(); }
    else if id == "ECH" { p := cursor.ReadEchn(); }
    else if id == "HSK" { p := Handsk; }
    else if id == "OK" { p := Ok; }
    else if id == "ERR" { var v := LoadNumber(cursor, 0); p := Err(v); }
    else if id == "BYE" { p := Bye; }
    else { return None; }
    r := Some((p, cursor.at));
  }

  method LoadNumber(cursor: Cursor, default: int) returns (v: int)
    modifies cursor
    ensures (v, cursor.at) == DecodeNumber(cursor.text, old(cursor.at), default)
  {
    hide Next, ScanOr;
    v := cursor.ReadNumber(' ', default);
  }

  /** CPacketCore::ReadBuffer. */
  method ReadPacket(s: string) returns (r: Option<(Packet, nat)>)
    ensures r == Decode(s)
  {
    hide Field, DecodeAs;
    var id := ReadField(s, 0, 10, ' ');
    r := LoadAs(s, id, |id|);
  }

  // ---------------------------------------------------------------- printing

  /** One Add; was is what the queue held before the packet, done what has been printed of it. */
  method Put(b: Buffer, x: string, ghost was: string, ghost done: string)
    requires b.Valid() && b.Contents() == was + done
    modifies b, b.data
    ensures b.Valid() && (fresh(b.data) || b.data == old(b.data))
    ensures b.Contents() == was + (done + x)
  {
    b.Add(x);
    assert was + done + x == was + (done + x);
  }

  /** A space and a field, when there is one. */
  method PutOpt(b: Buffer, f: string, ghost was: string, ghost done: string)
    requires b.Valid() && b.Contents() == was + done
    modifies b, b.data
    ensures b.Valid() && (fresh(b.data) || b.data == old(b.data))
    ensures b.Contents() == was + (done + Opt(f))
  {
    if f != "" {
      Put(b, " ", was, done);
      Put(b, f, was, done + " ");
      assert done + " " + f == done + (" " + f);
    } else {
      assert done + "" == done;
    }
  }

  /** A space and an id, "P" standing for an empty one; the record keeps the "P". */
  method PutId(b: Buffer, id: string, ghost was: string, ghost done: string) returns (sent: string)
    requires b.Valid() && b.Contents() == was + done
    modifies b, b.data
    ensures b.Valid() && (fresh(b.data) || b.data == old(b.data))
    ensures sent == IdOrP(id) && b.Contents() == was + (done + " " + sent)
  {
    Put(b, " ", was, done);
    sent := id;
    if sent == "" { sent := "P"; }
    Put(b, sent, was, done + " ");
  }

  method PutFour(b: Buffer, id: string, c: string, l: string, r: string, f: string, ghost was: string)
    requires b.Valid() && b.Contents() == was
    modifies b, b.data
    ensures b.Valid() && (fresh(b.data) || b.data == old(b.data))
    ensures b.Contents() == was + (id + Opt(c) + Opt(l) + Opt(r) + Opt(f))
  {
    hide Opt;
    assert was + "" == was;
    Put(b, id, was, "");
    assert "" + id == id;
    PutOpt(b, c, was, id);
    PutOpt(b, l, was, id + Opt(c));
    PutOpt(b, r, was, id + Opt(c) + Opt(l));
    PutOpt(b, f, was, id + Opt(c) + Opt(l) + Opt(r));
  }

  method PutDial(b: Buffer, p: Packet, ghost was: string) returns (q: Packet)
    requires b.Valid() && b.Contents() == was && p.Dial?
    modifies b, b.data
    ensures b.Valid() && (fresh(b.data) || b.data == old(b.data))
    ensures q == Normal(p) && b.Contents() + CRLF == was + Encode(p)
  {
    hide Opt, IdOrP;
    Start(b, "DIA", was);
    var r := PutId(b, p.remoteId, was, "DIA");
    var l := PutId(b, p.localId, was, "DIA" + " " + r);
    var c := PutId(b, p.callerId, was, "DIA" + " " + r + " " + l);
    PutOpt(b, p.feeNumber, was, "DIA" + " " + r + " " + l + " " + c);
    q := Dial(r, l, c, p.feeNumber);
    Regrouped(was, "DIA" + " " + r + " " + l + " " + c + Opt(p.feeNumber), CRLF);
  }

  method PutRing(b: Buffer, p: Packet, ghost was: string) returns (q: Packet)
    requires b.Valid() && b.Contents() == was && p.Ring?
    modifies b, b.data
    ensures b.Valid() && (fresh(b.data) || b.data == old(b.data))
    ensures q == Normal(p) && b.Contents() + CRLF == was + Encode(p)
  {
    hide Opt, IdOrP, PrintInt;
    Start(b, "RNG", was);
    var l := PutId(b, p.localId, was, "RNG");
    var r := PutId(b, p.remoteId, was, "RNG" + " " + l);
    var n := if p.line == -1 then "" else PrintInt(p.line);
    PutOpt(b, n, was, "RNG" + " " + l + " " + r);
    q := Ring(l, r, p.line);
    Regrouped(was, "RNG" + " " + l + " " + r + Opt(n), CRLF);
  }

  method PutCtc(b: Buffer, p: Packet, ghost was: string) returns (q: Packet)
    requires b.Valid() && b.Contents() == was && p.Ctc?
    modifies b, b.data
    ensures b.Valid() && (fresh(b.data) || b.data == old(b.data))
    ensures q == Normal(p) && b.Contents() + CRLF == was + Encode(p)
  {
    hide IdOrP;
    Start(b, "CTC", was);
    var l := PutId(b, p.localId, was, "CTC");
    q := Ctc(l, p.line);
    Regrouped(was, "CTC" + " " + l, CRLF);
  }

  method Start(b: Buffer, id: string, ghost was: string)
    requires b.Valid() && b.Contents() == was
    modifies b, b.data
    ensures b.Valid() && (fresh(b.data) || b.data == old(b.data))
    ensures b.Contents() == was + id
  {
    b.Add(id);
  }

  /** An id, a space, a field and then an optional field. */
  method PutTwo(b: Buffer, id: string, x: string, t: string, ghost was: string)
    requires b.Valid() && b.Contents() == was
    modifies b, b.data
    ensures b.Valid() && (fresh(b.data) || b.data == old(b.data))
    ensures b.Contents() == was + (id + " " + x + Opt(t))
  {
    hide Opt;
    Start(b, id, was);
    Put(b, " ", was, id);
    Put(b, x, was, id + " ");
    PutOpt(b, t, was, id + " " + x);
  }

  /** An id, a space and numbers or names separated by commas. */
  method PutList(b: Buffer, id: string, first: string, more: seq<string>, ghost was: string)
    requires b.Valid() && b.Contents() == was
    modifies b, b.data
    ensures b.Valid() && (fresh(b.data) || b.data == old(b.data))
    ensures b.Contents() == was + (id + " " + first + Commas(more))
  {
    PutWord(b, id, first, was);
    ghost var head := id + " " + first;
    var i := 0;
    assert head + Commas(more[..0]) == head;
    hide Commas;
    while i < |more|
      invariant 0 <= i <= |more| && b.Valid() && (fresh(b.data) || b.data == old(b.data))
      invariant b.Contents() == was + (head + Commas(more[..i]))
    {
      Put(b, ",", was, head + Commas(more[..i]));
      Put(b, more[i], was, head + Commas(more[..i]) + ",");
      CommasSnoc(head, more, i);
      i := i + 1;
    }
    assert more[..i] == more;
  }

  function Commas(more: seq<string>): string {
    if more == [] then "" else Commas(more[..|more| - 1]) + "," + more[|more| - 1]
  }

  lemma CommasSnoc(head: string, more: seq<string>, i: nat)
    requires i < |more|
    ensures head + Commas(more[..i + 1]) == head + Commas(more[..i]) + "," + more[i]
  {
    assert more[..i + 1][..i] == more[..i];
    assert Commas(more[..i + 1]) == Commas(more[..i]) + "," + more[i];
    hide Commas;
    var c := Commas(more[..i]);
    assert head + (c + "," + more[i]) == head + c + "," + more[i];
  }

  lemma Regrouped(a: string, b: string, c: string)
    ensures a + b + c == a + (b + c)
  {}

  lemma OneComma(id: string, a: string, b: string)
    ensures id + " " + a + Commas([b]) == id + " " + a + "," + b
  {
    assert [b][..0] == [];
    assert Commas([b]) == "" + "," + b;
  }

  lemma TwoCommas(id: string, a: string, b: string, c: string)
    ensures id + " " + a + Commas([b, c]) == id + " " + a + "," + b + "," + c
  {
    assert [b, c][..1] == [b];
    OneComma(id, a, b);
    assert Commas([b, c]) == Commas([b]) + "," + c;
  }

  predicate Listed(p: Packet) { p.Red? || p.Achn? || p.Echn? }

  /** EncodeBody of the packets with commas, without the end of the line. */
  method PutListed(b: Buffer, p: Packet, ghost was: string)
    requires b.Valid() && b.Contents() == was && Listed(p)
    modifies b, b.data
    ensures b.Valid() && (fresh(b.data) || b.data == old(b.data))
    ensures exists body :: b.Contents() == was + body && Encode(p) == body + CRLF
  {
    hide PrintInt, Commas;
    match p {
      case Red(t, n) =>
        PutList(b, "RED", t, [PrintInt(n)], was);
        OneComma("RED", t, PrintInt(n));
      case Achn(t, f, c) =>
        PutList(b, "ACH", PrintInt(t), [PrintInt(f), PrintInt(c)], was);
        TwoCommas("ACH", PrintInt(t), PrintInt(f), PrintInt(c));
      case Echn(c, st) =>
        PutList(b, "ECH", PrintInt(c), [PrintInt(st)], was);
        OneComma("ECH", PrintInt(c), PrintInt(st));
    }
  }

  /** EncodeBody of the others but Dial, Ring and Ctc. */
  method PutBody(b: Buffer, p: Packet, ghost was: string)
    requires b.Valid() && b.Contents() == was && !p.Dial? && !p.Ring? && !p.Ctc? && !Listed(p)
    modifies b, b.data
    ensures b.Valid() && (fresh(b.data) || b.data == old(b.data))
    ensures exists body :: b.Contents() == was + body && Encode(p) == body + CRLF
  {
    hide Opt, PrintInt, Commas;
    match p {
      case Bind(c, l, r, f) => PutFour(b, "BND", c, l, r, f, was);
      case Hnd(c, l, r, f) => PutFour(b, "HND", c, l, r, f, was);
      case Talk => Start(b, "TAK", was);
      case Deliver(t, c) => PutTwo(b, "SVR", t, c, was);
      case Record(n, t) => PutTwo(b, "REC", PrintInt(n), t, was);
      case Listen(n, t) => PutTwo(b, "LIS", PrintInt(n), t, was);
      case Wait(t) =>
        Start(b, "WAT", was);
        PutOpt(b, t, was, "WAT");
      case Walk(w) => PutWord(b, "WAR", w, was);
      case Halt(n) => PutWord(b, "HAL", PrintInt(n), was);
      case Handsk => Start(b, "HSK", was);
      case Ok => Start(b, "OK", was);
      case Err(n) => PutWord(b, "ERR", PrintInt(n), was);
      case Bye => Start(b, "BYE", was);
    }
  }

  method PutWord(b: Buffer, id: string, x: string, ghost was: string)
    requires b.Valid() && b.Contents() == was
    modifies b, b.data
    ensures b.Valid() && (fresh(b.data) || b.data == old(b.data))
    ensures b.Contents() == was + (id + " " + x)
  {
    Start(b, id, was);
    Put(b, " ", was, id);
    Put(b, x, was, id + " ");
  }

  /** EncodeBody: the packet's line goes to the end of the queue; the record afterwards is returned. */
  method EncodeBody(b: Buffer, p: Packet) returns (q: Packet)
    requires b.Valid()
    modifies b, b.data
    ensures b.Valid() && (fresh(b.data) || b.data == old(b.data))
    ensures b.Contents() == old(b.Contents()) + Encode(p)
    ensures q == Normal(p)
  {
    hide Encode;
    ghost var was := b.Contents();
    if p.Dial? {
      q := PutDial(b, p, was);
    } else if p.Ring? {
      q := PutRing(b, p, was);
    } else if p.Ctc? {
      q := PutCtc(b, p, was);
    } else {
      if Listed(p) { PutListed(b, p, was); } else { PutBody(b, p, was); }
      ghost var body :| b.Contents() == was + body && Encode(p) == body + CRLF;
      Regrouped(was, body, CRLF);
      q := p;
    }
    b.Add(CRLF);
  }
}
