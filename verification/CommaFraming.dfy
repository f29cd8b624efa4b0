/** Comma-separated commands: when a poll takes exactly the line, and what it does otherwise. */
module CommaFraming {
  import opened Packets
  import opened PacketRoundTrip
  import opened CallBuffer
  import opened Handshakes

  function Join(fs: seq<string>): string
    requires fs != []
  {
    if |fs| == 1 then fs[0] else fs[0] + "," + Join(fs[1..])
  }

  /** At most ten characters, and none that separates, ends or brackets fields; no leading space. */
  predicate CommaField(f: string) { |f| <= 10 && Clean(f, ',') && At(f, 0) != ' ' }

  predicate CommaFields(fs: seq<string>) { fs != [] && forall i | 0 <= i < |fs| :: CommaField(fs[i]) }

  /** The cursor after k numbers, each with the character behind it. */
  function After(s: string, at: nat, k: nat): (a: nat)
    ensures a >= at + k
    decreases k
  {
    if k == 0 then at else After(s, Next(s, at, 10, ',').1 + 1, k - 1)
  }

  lemma AchnAfter(s: string, at: nat)
    ensures DecodeAchn(s, at).1 == After(s, at, 3) && DecodeEchn(s, at).1 == After(s, at, 2)
  {
    hide Next, ScanOr;
    var a := Next(s, at, 10, ',').1 + 1;
    var b := Next(s, a, 10, ',').1 + 1;
    AfterOne(s, at, 3);
    AfterOne(s, a, 2);
    AfterOne(s, b, 1);
    AfterOne(s, at, 2);
    AfterOne(s, a, 1);
  }

  lemma AfterOne(s: string, at: nat, k: nat)
    requires k > 0
    ensures After(s, at, k) == After(s, Next(s, at, 10, ',').1 + 1, k - 1)
    ensures After(s, at, 0) == at
  {}

  /** Text behind the first field. */
  function Behind(fs: seq<string>, end: string): (t: string)
    requires fs != []
    ensures t == if |fs| == 1 then end else "," + (Join(fs[1..]) + end)
  {
    if |fs| == 1 then end else "," + (Join(fs[1..]) + end)
  }

  lemma JoinSplits(fs: seq<string>, end: string)
    requires fs != []
    ensures Join(fs) + end == fs[0] + Behind(fs, end)
  {
    hide Join;
    JoinMore(fs);
    if |fs| > 1 { Commas(fs[0], Join(fs[1..]), end); }
  }

  lemma JoinMore(fs: seq<string>)
    requires fs != []
    ensures Join(fs) == if |fs| == 1 then fs[0] else fs[0] + "," + Join(fs[1..])
  {}

  lemma Commas(f: string, j: string, end: string)
    ensures f + "," + j + end == f + ("," + (j + end))
  {}

  lemma FieldStops(f: string, tail: string)
    requires CommaField(f) && tail != "" && (tail[0] == ',' || tail[0] == '\r')
    ensures At(f + tail, 0) != ' ' && Stops(f, 10, ',', tail)
  {}

  /** One field and the separator behind it. */
  lemma FieldPasses(s: string, at: nat, f: string, tail: string, k: nat)
    requires at <= |s| && (s[at..] == f + tail || s[at..] == " " + f + tail)
    requires CommaField(f) && tail != "" && (tail[0] == ',' || tail[0] == '\r') && k > 0
    ensures var a := |s| - |tail| + 1; at < a <= |s| && s[a..] == tail[1..] && After(s, at, k) == After(s, a, k - 1)
  {
    hide Next, Clean, Stops;
    FieldStops(f, tail);
    if s[at..] == f + tail {
      DirectReads(s, at, f, 10, ',', tail);
    } else {
      TokenReads(s, at, f, 10, ',', tail);
    }
    var a := |s| - |tail| + 1;
    AfterOne(s, at, k);
    assert s[a..] == s[a - 1..][1..];
  }

  /** Where k numbers end: behind the k-th comma, on the line feed, or past the line, in what follows. */
  lemma {:induction false} AfterFields(s: string, at: nat, fs: seq<string>, rest: string, k: nat)
    requires CommaFields(fs) && at <= |s| && k > 0
    requires s[at..] == Join(fs) + (CRLF + rest) || s[at..] == " " + Join(fs) + (CRLF + rest)
    ensures var a := After(s, at, k);
      if k < |fs| then a <= |s| && s[a..] == Join(fs[k..]) + (CRLF + rest)
      else if k == |fs| then a <= |s| && s[a..] == "\n" + rest
      else a == After(s, |s| - |rest|, k - |fs| - 1)
    decreases k
  {
    hide Next, Join, CommaField;
    var end := CRLF + rest;
    var tail := Behind(fs, end);
    JoinSplits(fs, end);
    if s[at..] == " " + Join(fs) + end {
      assert " " + Join(fs) + end == " " + (Join(fs) + end);
      assert " " + (fs[0] + tail) == " " + fs[0] + tail;
    }
    FieldPasses(s, at, fs[0], tail, k);
    var a := |s| - |tail| + 1;
    AfterOne(s, a, k);
    if |fs| > 1 {
      var more := fs[1..];
      assert s[a..] == Join(more) + end;
      assert k - 1 < |more| ==> fs[k..] == more[k - 1..];
      if k > 1 { AfterFields(s, a, more, rest, k - 1); } else { assert fs[1..] == more; }
    } else {
      assert s[a..] == "\n" + rest;
      if k > 1 {
        FeedSkipped(s, a, rest);
        AfterOne(s, a, k - 1);
      }
    }
  }

  /** On a line feed there is no number; the cursor steps over it. */
  lemma FeedSkipped(s: string, a: nat, rest: string)
    requires a <= |s| && s[a..] == "\n" + rest
    ensures Next(s, a, 10, ',').1 == a && After(s, a + 1, 0) == |s| - |rest|
  {
    assert s[a] == s[a..][0];
  }

  /** How many numbers each command has. */
  function Arity(id: string): nat { if id == "ACH" then 3 else 2 }

  function CommaLine(id: string, fs: seq<string>, rest: string): string
    requires fs != []
  {
    id + (" " + Join(fs) + (CRLF + rest))
  }

  lemma CommaDecodes(id: string, fs: seq<string>, rest: string)
    requires CommaFields(fs) && (id == "ACH" || id == "ECH")
    ensures var s := CommaLine(id, fs, rest);
      3 <= |s| && Decode(s).Some? && Decode(s).value.1 == After(s, 3, Arity(id)) && s[3..] == " " + Join(fs) + (CRLF + rest)
  {
    hide Field, Clean, After, Join, CommaField, DecodeAchn, DecodeEchn;
    var s := CommaLine(id, fs, rest);
    IdsClean();
    IdReads(s, id, " " + Join(fs) + (CRLF + rest));
    AchnAfter(s, 3);
  }

  lemma {:induction false} JoinPlain(fs: seq<string>)
    requires CommaFields(fs)
    ensures '\n' !in Join(fs) && '\r' !in Join(fs) && (|fs| > 1 ==> ',' in Join(fs))
    ensures fs[0] != "" ==> Join(fs) != "" && Join(fs)[0] == fs[0][0]
    ensures fs[0] == "" && |fs| > 1 ==> Join(fs)[0] == ','
    decreases |fs|
  {
    hide Clean;
    FieldPlain(fs[0]);
    if |fs| > 1 { JoinPlain(fs[1..]); }
  }

  lemma FieldPlain(f: string)
    requires CommaField(f)
    ensures '\n' !in f && '\r' !in f
  {
    forall i | 0 <= i < |f| ensures f[i] != '\n' && f[i] != '\r' {
      assert !IsControl(f[i]);
    }
  }

  lemma LineFound(id: string, fs: seq<string>, rest: string)
    requires CommaFields(fs) && (id == "ACH" || id == "ECH")
    ensures LineEnd(CommaLine(id, fs, rest)) < |CommaLine(id, fs, rest)|
  {
    hide LineEnd, Join, CommaField;
    var s := CommaLine(id, fs, rest);
    var e := |s| - |rest| - 1;
    assert s[e] == '\n';
  }

  /** What a poll drops, in numbers: nothing when it would be more than there is. */
  lemma PollDrops(id: string, fs: seq<string>, rest: string)
    requires CommaFields(fs) && (id == "ACH" || id == "ECH")
    ensures var s := CommaLine(id, fs, rest);
      var a := After(s, 3, Arity(id));
      Poll(s).1 == Dropped(s, a + 1 + if At(s, a) == '\r' then 1 else 0)
  {
    hide LineEnd, Decode, After, CommaField, CommaLine, Poll;
    LineFound(id, fs, rest);
    CommaDecodes(id, fs, rest);
    PollCuts(CommaLine(id, fs, rest));
  }

  lemma PollCuts(s: string)
    requires LineEnd(s) < |s| && Decode(s).Some?
    ensures Poll(s).1 == Cut(s, Decode(s).value.1)
  {
    hide LineEnd, Decode;
  }

  lemma DroppedIs(s: string, n: nat, rest: string)
    requires |rest| < |s| && s[|s| - |rest|..] == rest
    ensures Dropped(s, n) == rest <==> n == |s| - |rest|
  {
    if Dropped(s, n) == rest { assert |Dropped(s, n)| == |rest|; }
  }

  /**
   * A poll takes exactly a comma command off the queue, whatever follows it, if and only if it has as many
   * fields as the command has numbers, or one more that is empty.
   */
  lemma FramesExactly(id: string, fs: seq<string>, rest: string)
    requires CommaFields(fs) && (id == "ACH" || id == "ECH")
    ensures Poll(CommaLine(id, fs, rest)).1 == rest <==>
      |fs| == Arity(id) || (|fs| == Arity(id) + 1 && fs[Arity(id)] == "")
  {
    hide LineEnd, Decode, After, Join, Poll, CommaField, Dropped;
    var s, k := CommaLine(id, fs, rest), Arity(id);
    var a := After(s, 3, k);
    CommaDecodes(id, fs, rest);
    AfterFields(s, 3, fs, rest, k);
    PollDrops(id, fs, rest);
    assert s[|s| - |rest|..] == rest;
    DroppedIs(s, a + 1 + if At(s, a) == '\r' then 1 else 0, rest);
    if k < |fs| {
      var more := fs[k..];
      LeftOver(s, a, more, rest);
    } else if k == |fs| {
      assert s[a] == s[a..][0] == '\n';
    }
  }

  /** With fields left over, the character dropped belongs to them, unless there is only an empty one. */
  lemma LeftOver(s: string, a: nat, more: seq<string>, rest: string)
    requires CommaFields(more) && a <= |s| && s[a..] == Join(more) + (CRLF + rest)
    ensures a + 1 + (if At(s, a) == '\r' then 1 else 0) == |s| - |rest| <==> |more| == 1 && more[0] == ""
  {
    hide CommaField;
    JoinPlain(more);
    var j := Join(more);
    assert s[a] == s[a..][0];
    if |more| == 1 && more[0] == "" {
      assert j == "";
      assert s[a] == '\r';
    } else {
      assert |more| > 1 ==> ',' in j;
      assert j != "";
      assert s[a] == j[0] && j[0] != '\r';
    }
  }

  /** The numbers read, when there is a field for each. */
  lemma CommaValues(id: string, fs: seq<string>, rest: string)
    requires CommaFields(fs) && (id == "ACH" || id == "ECH") && |fs| >= Arity(id)
    ensures Decode(CommaLine(id, fs, rest)).Some?
    ensures Decode(CommaLine(id, fs, rest)).value.0 ==
      if id == "ACH" then Achn(ScanOr(fs[0], 0), ScanOr(fs[1], 0), ScanOr(fs[2], 0)) else Echn(ScanOr(fs[0], 0), ScanOr(fs[1], -1))
  {
    hide Field, Clean, Join, CommaField, ScanOr, Next;
    var s := CommaLine(id, fs, rest);
    IdsClean();
    CommaDecodes(id, fs, rest);
    IdReads(s, id, " " + Join(fs) + (CRLF + rest));
    var a := FieldValue(s, 3, fs, rest);
    var b := FieldValue(s, a, fs[1..], rest);
    if id == "ACH" { var _ := FieldValue(s, b, fs[2..], rest); }
  }

  /** One number, and where the next is read from. */
  lemma FieldValue(s: string, at: nat, fs: seq<string>, rest: string) returns (a: nat)
    requires CommaFields(fs) && at <= |s|
    requires s[at..] == Join(fs) + (CRLF + rest) || s[at..] == " " + Join(fs) + (CRLF + rest)
    ensures Next(s, at, 10, ',') == (fs[0], a - 1) && at < a <= |s|
    ensures |fs| > 1 ==> s[a..] == Join(fs[1..]) + (CRLF + rest)
  {
    hide Join, Clean, Stops, Next;
    var end := CRLF + rest;
    var tail := Behind(fs, end);
    JoinSplits(fs, end);
    assert CommaField(fs[0]);
    FieldStops(fs[0], tail);
    if s[at..] == Join(fs) + end {
      DirectReads(s, at, fs[0], 10, ',', tail);
    } else {
      assert " " + Join(fs) + end == " " + (Join(fs) + end) && " " + (fs[0] + tail) == " " + fs[0] + tail;
      TokenReads(s, at, fs[0], 10, ',', tail);
    }
    a := |s| - |tail| + 1;
    assert s[a..] == s[a - 1..][1..];
  }

  // ---------------------------------------------------------------- every number of fields

  lemma SpacesFrom(s: string, rest: string, b: nat, j: nat)
    requires b + |rest| == |s| && s[b..] == rest
    ensures SkipSpaces(s, b + j) == b + SkipSpaces(rest, j)
    decreases |rest| - j
  {
    if j < |rest| {
      assert s[b + j] == s[b..][j];
      SpacesFrom(s, rest, b, j + 1);
    }
  }

  lemma AtFrom(s: string, rest: string, b: nat, j: nat)
    requires b + |rest| == |s| && s[b..] == rest
    ensures At(s, b + j) == At(rest, j)
  {
    if j < |rest| { assert s[b + j] == s[b..][j]; }
  }

  lemma {:induction false} FieldFrom(s: string, rest: string, b: nat, j: nat, n: nat, quoted: bool)
    requires b + |rest| == |s| && s[b..] == rest
    ensures Field(s, b + j, n, ',', quoted) == Field(rest, j, n, ',', quoted)
    decreases |rest| - j
  {
    AtFrom(s, rest, b, j);
    if j < |rest| {
      FieldFrom(s, rest, b, j + 1, n, true);
      FieldFrom(s, rest, b, j + 1, n, false);
      if n > 0 { FieldFrom(s, rest, b, j + 1, n - 1, quoted); }
    }
  }

  /** The reader of numbers sees nothing of what is behind it. */
  lemma {:induction false} AfterFrom(s: string, rest: string, b: nat, j: nat, m: nat)
    requires b + |rest| == |s| && s[b..] == rest
    ensures After(s, b + j, m) == b + After(rest, j, m)
    decreases m
  {
    if m > 0 {
      SpacesFrom(s, rest, b, j);
      FieldFrom(s, rest, b, SkipSpaces(rest, j), 10, false);
      hide Field, SkipSpaces;
      AfterFrom(s, rest, b, Next(rest, j, 10, ',').1 + 1, m - 1);
    }
  }

  /** What is left of a queue whose first command was read up to that place in what follows it. */
  function Eaten(s: string, rest: string, at: nat): string {
    var d := at + 1 + if At(rest, at) == '\r' then 1 else 0;
    if d <= |rest| then rest[d..] else s
  }

  lemma DropsFrom(s: string, rest: string, at: nat)
    requires |rest| < |s| && s[|s| - |rest|..] == rest
    ensures var a := |s| - |rest| + at; Dropped(s, a + 1 + if At(s, a) == '\r' then 1 else 0) == Eaten(s, rest, at)
  {
    var b := |s| - |rest|;
    AtFrom(s, rest, b, at);
    var d := at + 1 + if At(rest, at) == '\r' then 1 else 0;
    if d <= |rest| { assert s[b + d..] == s[b..][d..]; }
  }

  /**
   * What a poll leaves, for every number of fields: with too many, all behind the first character of those left
   * over; with too few, what is behind the numbers that the reader then takes from the packets that follow, or
   * everything when it runs past their end.
   */
  lemma CommaOutcome(id: string, fs: seq<string>, rest: string)
    requires CommaFields(fs) && (id == "ACH" || id == "ECH")
    ensures var s, k := CommaLine(id, fs, rest), Arity(id);
      Poll(s).1 ==
        if k < |fs| then (Join(fs[k..]) + (CRLF + rest))[if fs[k..] == [""] then 2 else 1..]
        else if k == |fs| then rest
        else Eaten(s, rest, After(rest, 0, k - |fs| - 1))
  {
    hide Join, Poll, CommaField, Eaten, After, CommaLine;
    var k := Arity(id);
    if k < |fs| { ManyOutcome(id, fs, rest); } else if k == |fs| { FramesExactly(id, fs, rest); } else { FewOutcome(id, fs, rest); }
  }

  lemma ManyOutcome(id: string, fs: seq<string>, rest: string)
    requires CommaFields(fs) && (id == "ACH" || id == "ECH") && |fs| > Arity(id)
    ensures Poll(CommaLine(id, fs, rest)).1 == (Join(fs[Arity(id)..]) + (CRLF + rest))[if fs[Arity(id)..] == [""] then 2 else 1..]
  {
    hide Join, Poll, CommaField, After, CommaLine, Decode, Dropped;
    CommaDecodes(id, fs, rest);
    AfterFields(CommaLine(id, fs, rest), 3, fs, rest, Arity(id));
    PollDrops(id, fs, rest);
    LeftBehind(CommaLine(id, fs, rest), After(CommaLine(id, fs, rest), 3, Arity(id)), fs[Arity(id)..], rest);
  }

  lemma FewOutcome(id: string, fs: seq<string>, rest: string)
    requires CommaFields(fs) && (id == "ACH" || id == "ECH") && |fs| < Arity(id)
    ensures Poll(CommaLine(id, fs, rest)).1 == Eaten(CommaLine(id, fs, rest), rest, After(rest, 0, Arity(id) - |fs| - 1))
  {
    hide Join, Poll, CommaField, After, CommaLine, Decode, Dropped, Eaten;
    var s, m := CommaLine(id, fs, rest), Arity(id) - |fs| - 1;
    CommaDecodes(id, fs, rest);
    LineTail(id, fs, rest);
    AfterFields(s, 3, fs, rest, Arity(id));
    PollDrops(id, fs, rest);
    AfterFrom(s, rest, |s| - |rest|, 0, m);
    DropsFrom(s, rest, After(rest, 0, m));
  }

  lemma LineTail(id: string, fs: seq<string>, rest: string)
    requires fs != []
    ensures var s := CommaLine(id, fs, rest); |rest| < |s| && s[|s| - |rest|..] == rest
  {
    hide Join;
  }

  lemma LeftBehind(s: string, a: nat, more: seq<string>, rest: string)
    requires CommaFields(more) && a <= |s| && s[a..] == Join(more) + (CRLF + rest)
    ensures Dropped(s, a + 1 + if At(s, a) == '\r' then 1 else 0) == s[a..][if more == [""] then 2 else 1..]
  {
    hide CommaField;
    JoinPlain(more);
    var j := Join(more);
    assert s[a] == s[a..][0];
    if more == [""] {
      assert j == "" && s[a] == '\r';
    } else {
      assert |more| > 1 ==> ',' in j;
      assert |more| == 1 ==> j == more[0] != "";
      assert s[a] == j[0] && j[0] != '\r';
    }
  }

  /** The same for a command with no field at all. */
  lemma BareOutcome(id: string, rest: string)
    requires id == "ACH" || id == "ECH"
    ensures var s := id + (CRLF + rest); Poll(s).1 == Eaten(s, rest, After(rest, 0, Arity(id) - 2))
  {
    hide LineEnd, Decode, After, Poll, Eaten, Dropped;
    var s := id + (CRLF + rest);
    BareDecodes(id, rest);
    assert s[4] == '\n';
    PollCuts(s);
    assert s[5..] == rest;
    AfterFrom(s, rest, 5, 0, Arity(id) - 2);
    DropsFrom(s, rest, After(rest, 0, Arity(id) - 2));
  }

  lemma BareDecodes(id: string, rest: string)
    requires id == "ACH" || id == "ECH"
    ensures var s := id + (CRLF + rest); Decode(s).Some? && Decode(s).value.1 == After(s, 5, Arity(id) - 2)
  {
    hide Field, Clean, After, DecodeAchn, DecodeEchn;
    var s := id + (CRLF + rest);
    IdsClean();
    IdReads(s, id, CRLF + rest);
    AchnAfter(s, 3);
    EndSkipped(s, 3, Arity(id));
  }

  lemma EndSkipped(s: string, at: nat, k: nat)
    requires at + 2 <= |s| && s[at] == '\r' && s[at + 1] == '\n' && k >= 2
    ensures After(s, at, k) == After(s, at + 2, k - 2)
  {
    AfterOne(s, at, k);
    AfterOne(s, at + 1, k - 1);
    assert Next(s, at, 10, ',').1 == at;
    assert Next(s, at + 1, 10, ',').1 == at + 1;
  }

  /** With one field too few the poll takes the beginning of what follows, or nothing at all. */
  lemma ShortEats(id: string, fs: seq<string>, rest: string)
    requires CommaFields(fs) && (id == "ACH" || id == "ECH") && |fs| + 1 == Arity(id)
    ensures var s := CommaLine(id, fs, rest);
      Poll(s).1 == if rest == "" || rest == "\r" then s else rest[if rest[0] == '\r' then 2 else 1..]
  {
    hide LineEnd, Decode, Join, Poll, CommaField;
    CommaOutcome(id, fs, rest);
    if rest != "" && |rest| < 2 { assert rest[0] == '\r' ==> rest == "\r"; }
  }
}
