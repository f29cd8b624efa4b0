/** Which packets the line format cannot carry, although every one of their fields is well formed. */
module PacketLoss {
  import opened Bytes
  import opened Packets
  import opened PacketRoundTrip

  /** Fields that fit their record, without separators, control characters or opening brackets. */
  predicate Formed(p: Packet) {
    match p
    case Bind(c, l, r, f) => Word(c, 16) && Word(l, 21) && Word(r, 21) && Word(f, 21)
    case Hnd(c, l, r, f) => Word(c, 16) && Word(l, 21) && Word(r, 21) && Word(f, 21)
    case Ctc(l, n) => Word(l, 21) && Small(n)
    case Red(t, n) => |t| <= 16 && Clean(t, ',') && At(t, 0) != ' ' && 0 <= n < 65536
    case Deliver(t, c) => Word(t, 16) && |c| <= 1024 && Clean(c, '\0')
    case _ => Sendable(p)
  }

  predicate Misplaced(c: string, l: string, r: string, f: string) {
    (c == "" && l + r + f != "") || (l == "" && r + f != "") || (r == "" && f != "")
  }

  /**
   * An omitted Bind or Hnd field before one that is sent; a Ctc id other than "P", or a line; a Red type longer than the ten characters its
   * reader takes (the record has sixteen); Deliver content without a type, or starting with a space.
   */
  predicate Lossy(p: Packet) {
    match p
    case Bind(c, l, r, f) => Misplaced(c, l, r, f)
    case Hnd(c, l, r, f) => Misplaced(c, l, r, f)
    case Ctc(l, n) => IdOrP(l) != "P" || n != -1
    case Red(t, _) => |t| > 10
    case Deliver(t, c) => (t == "" && c != "") || At(c, 0) == ' '
    case _ => false
  }

  lemma {:induction false} FieldWithin(s: string, at: nat, n: nat, part: char, stop: nat)
    requires at <= stop < |s| && IsControl(s[stop]) && (forall i | at <= i < stop :: s[i] != '[')
    ensures |Field(s, at, n, part, false)| <= stop - at
    ensures Field(s, at, n, part, false) == "" || Field(s, at, n, part, false)[0] == s[at]
    decreases stop - at
  {
    if n > 0 && at < stop { FieldWithin(s, at + 1, n - 1, part, stop); }
  }

  lemma {:induction false} SkipWithin(s: string, at: nat, stop: nat)
    requires at <= stop < |s| && s[stop] != ' '
    ensures SkipSpaces(s, at) <= stop && s[SkipSpaces(s, at)] != ' '
    decreases stop - at
  {
    if s[at] == ' ' { SkipWithin(s, at + 1, stop); }
  }

  /** A field never starts with a space, and the cursor stays on its line. */
  lemma NextHead(s: string, at: nat, n: nat, part: char, stop: nat)
    requires at <= stop < |s| && IsControl(s[stop]) && (forall i | at <= i < stop :: s[i] != '[')
    ensures At(Next(s, at, n, part).0, 0) != ' ' && at <= Next(s, at, n, part).1 <= stop
  {
    SkipWithin(s, at, stop);
    FieldWithin(s, SkipSpaces(s, at), n, part, stop);
  }

  lemma TokenHead(s: string, at: nat, g: string, n: nat, part: char, tail: string)
    requires at <= |s| && s[at..] == " " + g + tail && g != "" && Clean(g, part) && g[0] != ' ' && n > 0
    ensures Next(s, at, n, part).0 != ""
  {
    assert s[at] == s[at..][0] && s[at + 1] == s[at..][1];
    assert SkipSpaces(s, at + 1) == at + 1;
  }

  lemma OptHeadRead(s: string, at: nat, g: string, n: nat, tail: string)
    requires at <= |s| && s[at..] == Opt(g) + tail && g != "" && Word(g, 21) && n > 0
    ensures Next(s, at, n, ' ').0 != ""
  {
    TokenHead(s, at, g, n, ' ', tail);
  }

  /** Where a field was omitted, the next one sent is read in its place. */
  lemma OmittedReads(s: string, at: nat, n: nat, a: string, b: string, c: string, tail: string)
    requires at <= |s| && s[at..] == Opt(a) + (Opt(b) + (Opt(c) + tail)) && a + b + c != "" && n > 0
    requires Word(a, 21) && Word(b, 21) && Word(c, 21)
    ensures Next(s, at, n, ' ').0 != ""
  {
    hide Next, Word, Opt;
    OptHead(a, Opt(b) + (Opt(c) + tail));
    OptHead(b, Opt(c) + tail);
    if a != "" { OptHeadRead(s, at, a, n, Opt(b) + (Opt(c) + tail)); }
    else if b != "" { OptHeadRead(s, at, b, n, Opt(c) + tail); }
    else { OptHeadRead(s, at, c, n, tail); }
  }

  lemma SpaceTail(f: string, tail: string)
    requires f != ""
    ensures OkTail(f, Opt(f) + tail) && forall g | g != "" :: OkTail(g, Opt(f) + tail)
  {}

  lemma FourLost(s: string, at: nat, c: string, l: string, r: string, f: string, tail: string)
    requires at <= |s| && s[at..] == Opt(c) + (Opt(l) + (Opt(r) + (Opt(f) + tail)))
    requires Word(c, 16) && Word(l, 21) && Word(r, 21) && Word(f, 21) && Misplaced(c, l, r, f)
    ensures var d := DecodeFour(s, at, 16); (d.0, d.1, d.2) != (c, l, r)
  {
    hide Next, Word, Opt, OkTail;
    OptHead("", tail);
    var t3 := Opt(f) + tail;
    var t2 := Opt(r) + t3;
    var t1 := Opt(l) + t2;
    if c == "" {
      OptHead(c, t1);
      OmittedReads(s, at, 16, l, r, f, tail);
    } else if l == "" {
      OptHead(l, t2);
      if r != "" { SpaceTail(r, t3); } else { OptHead(r, t3); SpaceTail(f, tail); }
      OptReads(s, at, c, 16, t1);
      OmittedReads(s, at + |Opt(c)|, 21, r, f, "", tail);
    } else {
      OptHead(r, t3);
      SpaceTail(l, t2);
      SpaceTail(f, tail);
      OptReads(s, at, c, 16, t1);
      OptReads(s, at + |Opt(c)|, l, 21, t2);
      OptHeadRead(s, at + |Opt(c)| + |Opt(l)|, f, 21, tail);
    }
  }

  lemma BindLost(p: Packet, rest: string)
    requires (p.Bind? || p.Hnd?) && Formed(p) && Lossy(p)
    ensures Decode(Encode(p) + rest).Some? && Decode(Encode(p) + rest).value.0 != p
  {
    hide DecodeFour, Field, Clean, Opt, Word, Misplaced;
    var id := if p.Bind? then "BND" else "HND";
    var tail := Opt(p.callType) + (Opt(p.localId) + (Opt(p.remoteId) + (Opt(p.feeNumber) + End(rest))));
    var s := Encode(p) + rest;
    Regroup(id, Opt(p.callType), Opt(p.localId), Opt(p.remoteId), Opt(p.feeNumber), CRLF, rest);
    IdsClean();
    FourHead(p.callType, p.localId, p.remoteId, p.feeNumber, End(rest));
    IdReads(s, id, tail);
    FourLost(s, 3, p.callType, p.localId, p.remoteId, p.feeNumber, End(rest));
  }

  /** The reader takes the first ten characters of the type. */
  lemma RedLost(p: Packet, rest: string)
    requires p.Red? && Formed(p) && Lossy(p)
    ensures Decode(Encode(p) + rest).Some? && Decode(Encode(p) + rest).value.0 != p
  {
    hide Field, Clean, PrintInt, DecodeRed;
    var t, n := p.msgType, PrintInt(p.minutes);
    var s, end := Encode(p) + rest, End(rest);
    RedShape("RED", t, n, CRLF, rest);
    IdsClean();
    IdReads(s, "RED", " " + t + ("," + (n + end)));
    RedCut(s, 3, t, "," + (n + end));
  }

  lemma RedCut(s: string, at: nat, t: string, tail: string)
    requires at <= |s| && s[at..] == " " + t + tail && |t| > 10 && Clean(t, ',') && At(t, 0) != ' '
    ensures DecodeRed(s, at).0.msgType == t[..10]
  {
    hide Next, ScanOr;
    assert t == t[..10] + t[10..];
    assert s[at..] == " " + t[..10] + (t[10..] + tail);
    TokenReads(s, at, t[..10], 10, ',', t[10..] + tail);
  }

  lemma DeliverCut(s: string, at: nat, t: string, c: string, end: string)
    requires at <= |s| && s[at..] == " " + t + (" " + c + end) && c != "" && At(end, 0) == '\r'
    requires Clean(t, ' ') && Clean(c, '\0') && (t == "" || c[0] == ' ')
    ensures DecodeDeliver(s, at).0 != Deliver(t, c)
  {
    if c[0] == ' ' {
      var stop := at + 2 + |t| + |c|;
      forall i | at <= i < stop ensures s[i] != '[' {
        assert s[i] == s[at..][i - at];
      }
      assert s[stop] == s[at..][stop - at];
      hide Next;
      NextHead(s, at, 16, ' ', stop);
      NextHead(s, Next(s, at, 16, ' ').1, 1024, '\0', stop);
    } else {
      assert s[at] == s[at..][0];
      assert s[at + 1..] == s[at..][1..] == " " + (c + end);
      assert s[at + 1] == s[at + 1..][0] && s[at + 2] == s[at + 1..][1] == c[0];
      assert SkipSpaces(s, at + 2) == at + 2;
      assert SkipSpaces(s, at + 1) == at + 2;
      assert Field(s, at + 2, 16, ' ', false) != "";
    }
  }

  lemma DeliverLost(p: Packet, rest: string)
    requires p.Deliver? && Formed(p) && Lossy(p)
    ensures Decode(Encode(p) + rest).Some? && Decode(Encode(p) + rest).value.0 != p
  {
    hide DecodeDeliver, Field, Clean;
    var t, c := p.msgType, p.content;
    var s, end := Encode(p) + rest, End(rest);
    DeliverShape("SVR", t, c, CRLF, rest);
    IdsClean();
    IdReads(s, "SVR", " " + t + (" " + c + end));
    DeliverCut(s, 3, t, c, end);
  }

  lemma DeliverShape(id: string, t: string, c: string, e: string, rest: string)
    ensures (id + " " + t + (" " + c) + e) + rest == id + (" " + t + (" " + c + (e + rest)))
  {}

  lemma NotLossySendable(p: Packet)
    requires Formed(p) && !Lossy(p)
    ensures Sendable(p)
  {}

  /** A well-formed packet is read back exactly when it is not one of the lossy kinds. */
  lemma ReadsBackExactly(p: Packet, rest: string)
    requires Formed(p)
    ensures Decode(Encode(p) + rest) == Some((Normal(p), ReadSize(p))) <==> !Lossy(p)
  {
    if !Lossy(p) {
      NotLossySendable(p);
      DecodesBack(p, rest);
    } else {
      hide Decode, Encode, Formed;
      match p
      case Bind(_, _, _, _) => BindLost(p, rest);
      case Hnd(_, _, _, _) => BindLost(p, rest);
      case Ctc(_, _) =>
        CtcReads(p, rest);
        NoNumber("P");
      case Red(_, _) => RedLost(p, rest);
      case Deliver(_, _) => DeliverLost(p, rest);
    }
  }
}
