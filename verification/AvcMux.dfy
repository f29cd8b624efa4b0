/**
 * The H.264 side of the muxer: Annex B NAL units become length-prefixed frames, the first
 * parameter sets become the avcC record. Written as the list of writer calls each NAL unit causes.
 */
module AvcMux {
  import opened Bytes
  import opened Ebml
  import opened MatroskaFormat
  import opened MatroskaMuxing
  import opened MatroskaPlacing
  import opened MatroskaRuns

  const TIMESCALE := 50000

  datatype Mux = Mux(
    sps: Option<Octets>, pps: Option<Octets>,
    width: nat, height: nat, dWidth: nat, dHeight: nat, frameDuration: int,
    headerWritten: bool, writing: bool)

  /** A NAL unit as the encoder hands it over: four octets of start code, then the unit. */
  predicate ValidNalu(nal: Octets) {
    && 5 <= |nal| <= MAX_FRAME
    && (nal[4] % 32 == 7 ==> 8 <= |nal| < 0x400_0000) && (nal[4] % 32 == 8 ==> |nal| < 0x400_0000)
  }

  function NalType(nal: Octets): nat
    requires |nal| >= 5
  {
    nal[4] % 32
  }

  predicate IsSlice(nal: Octets)
    requires |nal| >= 5
  {
    NalType(nal) == 1 || NalType(nal) == 5 || NalType(nal) == 6
  }

  /** The record write_header_mkv builds: one SPS, one PPS, four-octet lengths. */
  function AvcC(sps: Octets, pps: Octets): Octets
    requires |sps| >= 4
  {
    [1, sps[1], sps[2], sps[3], 0xff, 0xe1] + BE(|sps|, 2) + sps + [1] + BE(|pps|, 2) + pps
  }

  function CodecName(): (r: Octets)
    ensures |r| == 15
  {
    Ascii("V_MPEG4/ISO/AVC")
  }

  function AppName(): (r: Octets)
    ensures |r| == 4
  {
    Ascii("x264")
  }

  predicate ValidMux(m: Mux) {
    && (m.sps.Some? ==> 4 <= |m.sps.value| < 0x400_0000)
    && (m.pps.Some? ==> |m.pps.value| < 0x400_0000)
    && IsUInt32(m.width) && IsUInt32(m.height) && IsUInt32(m.dWidth) && IsUInt32(m.dHeight) && IsInt64(m.frameDuration)
  }

  function MuxHeader(m: Mux): Header
    requires m.sps.Some? && m.pps.Some? && |m.sps.value| >= 4
  {
    Header(AppName(), CodecName(), AvcC(m.sps.value, m.pps.value), m.frameDuration, TIMESCALE,
           m.width, m.height, m.dWidth, m.dHeight)
  }

  predicate HasSizes(m: Mux) { m.width != 0 && m.height != 0 && m.dWidth != 0 && m.dHeight != 0 }

  /** What the NAL unit itself changes: the first SPS and PPS are kept, a slice or SEI opens a frame. */
  function Take(m: Mux, nal: Octets): Mux
    requires |nal| >= 5
  {
    if NalType(nal) == 7 then (if m.sps.None? then m.(sps := Some(nal[4..])) else m)
    else if NalType(nal) == 8 then (if m.pps.None? then m.(pps := Some(nal[4..])) else m)
    else if IsSlice(nal) then m.(writing := true)
    else m
  }

  function FrameCalls(m: Mux, nal: Octets): seq<Call>
    requires |nal| >= 5
  {
    if IsSlice(nal) then
      (if m.writing then [] else [StartFrame]) + [AddFrameData(BE(|nal| - 4, 4)), AddFrameData(nal[4..])]
    else []
  }

  predicate HeaderDue(m: Mux) { !m.headerWritten && m.pps.Some? && m.sps.Some? }

  /** write_nalu_mkv: the new state, the writer calls made, and whether it succeeds. */
  function WriteNalu(m: Mux, nal: Octets): (r: (Mux, seq<Call>, bool))
    requires ValidMux(m) && ValidNalu(nal)
    ensures ValidMux(r.0)
  {
    var t := Take(m, nal);
    var calls := FrameCalls(m, nal);
    if !HeaderDue(t) then (t, calls, true)
    else if !HasSizes(t) then (t, calls, false)
    else (t.(headerWritten := true), calls + [WriteHeader(MuxHeader(t))], true)
  }

  /** set_eop_mkv, with the time stamp already computed. */
  function SetEop(m: Mux, stamp: int, idr: bool): (Mux, seq<Call>) {
    (m.(writing := false), [SetFrameFlags(stamp, idr)])
  }

  // ---------------------------------------------------------------- reading avcC and frames back

  /** avcC, version 1 and reserved bits set, with one SPS and one PPS (section 5.2.4.1 of ISO/IEC 14496-15). */
  datatype Config = Config(profile: nat, compatibility: nat, level: nat, lengthSize: nat, sps: Octets, pps: Octets)

  function ParseAvcC(s: Octets): Option<Config> {
    if |s| < 8 || s[0] != 1 || s[4] / 4 != 63 || s[5] != 0xe1 then None else
    var n := Unsigned(s[6..8]);
    if |s| < 8 + n + 3 || s[8 + n] != 1 then None else
    var k := Unsigned(s[9 + n..11 + n]);
    if |s| != 11 + n + k then None else
    Some(Config(s[1], s[2], s[3], s[4] % 4 + 1, s[8..8 + n], s[11 + n..]))
  }

  /** The frame payload: every unit preceded by its length in four octets. */
  function Prefixed(ns: seq<Octets>): Octets {
    if ns == [] then [] else BE(|ns[0]|, 4) + ns[0] + Prefixed(ns[1..])
  }

  function SplitNals(s: Octets): Option<seq<Octets>>
    decreases |s|
  {
    if s == [] then Some([]) else
    if |s| < 4 then None else
    var n := Unsigned(s[..4]);
    if |s| < 4 + n then None else
    var rest := SplitNals(s[4 + n..]);
    if rest.None? then None else Some([s[4..4 + n]] + rest.value)
  }

  lemma SplitOne(n: Octets, rest: Octets)
    requires |n| < SIZE_LIMIT
    ensures SplitNals(BE(|n|, 4) + n + rest)
         == (if SplitNals(rest).None? then None else Some([n] + SplitNals(rest).value))
  {
    var s := BE(|n|, 4) + n + rest;
    Powers256();
    hide BE, Unsigned, Pow;
    UnsignedBE(|n|, 4);
    assert s[..4] == BE(|n|, 4);
    assert s[4..4 + |n|] == n;
    assert s[4 + |n|..] == rest;
  }

  /** Length prefixes split a frame back into exactly its units. */
  lemma {:induction false} SplitPrefixed(ns: seq<Octets>)
    requires forall i | 0 <= i < |ns| :: |ns[i]| < SIZE_LIMIT
    ensures SplitNals(Prefixed(ns)) == Some(ns)
  {
    hide BE, SplitNals;
    if ns == [] {
      SplitNone(Prefixed(ns));
    } else {
      SplitPrefixed(ns[1..]);
      SplitOne(ns[0], Prefixed(ns[1..]));
      assert ns == [ns[0]] + ns[1..];
    }
  }

  lemma SplitNone(s: Octets)
    requires s == []
    ensures SplitNals(s) == Some([])
  {}

  /** The record carries the parameter sets back exactly when their lengths fit sixteen bits. */
  lemma AvcCRoundTrip(sps: Octets, pps: Octets)
    requires |sps| >= 4
    ensures ParseAvcC(AvcC(sps, pps)) == Some(Config(sps[1], sps[2], sps[3], 4, sps, pps))
            <==> |sps| < 0x10000 && |pps| < 0x10000
  {
    if |sps| < 0x10000 && |pps| < 0x10000 {
      AvcCParses(sps, pps);
    } else if ParseAvcC(AvcC(sps, pps)) == Some(Config(sps[1], sps[2], sps[3], 4, sps, pps)) {
      AvcCBounded(AvcC(sps, pps));
    }
  }

  lemma AvcCParses(sps: Octets, pps: Octets)
    requires 4 <= |sps| < 0x10000 && |pps| < 0x10000
    ensures ParseAvcC(AvcC(sps, pps)) == Some(Config(sps[1], sps[2], sps[3], 4, sps, pps))
  {
    hide BE, Unsigned;
    var s, n := AvcC(sps, pps), |sps|;
    Powers256();
    UnsignedBE(n, 2);
    UnsignedBE(|pps|, 2);
    assert s[6..8] == BE(n, 2);
    assert s[8..8 + n] == sps;
    assert s[9 + n..11 + n] == BE(|pps|, 2);
    assert s[11 + n..] == pps;
  }

  lemma AvcCBounded(s: Octets)
    requires ParseAvcC(s).Some?
    ensures |ParseAvcC(s).value.sps| < 0x10000 && |ParseAvcC(s).value.pps| < 0x10000
  {
    hide Unsigned;
    var n := Unsigned(s[6..8]);
    Powers256();
    UnsignedBound(s[6..8]);
    UnsignedBound(s[9 + n..11 + n]);
  }

  // ---------------------------------------------------------------- access units

  /** One access unit: its NAL units, then the end-of-picture call. */
  datatype Unit = Unit(nals: seq<Octets>, stamp: int, key: bool)

  predicate ValidNals(nals: seq<Octets>) { forall i | 0 <= i < |nals| :: ValidNalu(nals[i]) }

  /** The slice and SEI units, start codes removed. */
  function Slices(nals: seq<Octets>): seq<Octets>
    requires ValidNals(nals)
  {
    if nals == [] then [] else
    var last := nals[|nals| - 1];
    Slices(nals[..|nals| - 1]) + (if IsSlice(last) then [last[4..]] else [])
  }

  /** The first parameter set of a type. */
  function FirstOf(nals: seq<Octets>, t: nat): Option<Octets>
    requires ValidNals(nals)
  {
    if nals == [] then None else
    var before := FirstOf(nals[..|nals| - 1], t);
    var last := nals[|nals| - 1];
    if before.Some? then before else if last[4] % 32 == t then Some(last[4..]) else None
  }

  /** State and writer calls after feeding NAL units one by one. */
  function Feed(m: Mux, nals: seq<Octets>): (r: (Mux, seq<Call>))
    requires ValidMux(m) && ValidNals(nals)
    ensures ValidMux(r.0)
  {
    if nals == [] then (m, []) else
    var (m1, calls1) := Feed(m, nals[..|nals| - 1]);
    var (m2, calls2, _) := WriteNalu(m1, nals[|nals| - 1]);
    (m2, calls1 + calls2)
  }

  function FeedUnit(m: Mux, u: Unit): (r: (Mux, seq<Call>))
    requires ValidMux(m) && ValidNals(u.nals)
    ensures ValidMux(r.0)
  {
    var (m1, calls1) := Feed(m, u.nals);
    var (m2, calls2) := SetEop(m1, u.stamp, u.key);
    (m2, calls1 + calls2)
  }

  predicate ValidUnit(u: Unit) {
    && ValidNals(u.nals) && Slices(u.nals) != [] && |Prefixed(Slices(u.nals))| <= MAX_FRAME
    && -TIME_LIMIT < u.stamp < TIME_LIMIT
  }

  predicate ValidUnits(us: seq<Unit>) { forall i | 0 <= i < |us| :: ValidUnit(us[i]) }

  function FeedUnits(m: Mux, us: seq<Unit>): (r: (Mux, seq<Call>))
    requires ValidMux(m) && ValidUnits(us)
    ensures ValidMux(r.0)
  {
    if us == [] then (m, []) else
    var (m1, calls1) := FeedUnits(m, us[..|us| - 1]);
    var (m2, calls2) := FeedUnit(m1, us[|us| - 1]);
    (m2, calls1 + calls2)
  }

  /** One frame for each access unit: its slices length-prefixed, its scaled stamp, its key flag. */
  function UnitFrame(u: Unit): Frame
    requires ValidNals(u.nals)
  {
    Frame(Prefixed(Slices(u.nals)), TruncDiv(u.stamp, TIMESCALE), u.key)
  }

  function UnitFrames(us: seq<Unit>): (fs: seq<Frame>)
    requires ValidUnits(us)
    ensures |fs| == |us|
  {
    seq(|us|, i requires 0 <= i < |us| => UnitFrame(us[i]))
  }

  // ---------------------------------------------------------------- what a frame must hold

  /** Coded slices (NAL unit types 1 and 5) and SEI (type 6), start codes removed. */
  function Picked(nals: seq<Octets>): seq<Octets>
    requires ValidNals(nals)
  {
    if nals == [] then []
    else
      var t := nals[0][4] % 32;
      (if t == 1 || t == 5 || t == 6 then [nals[0][4..]] else []) + Picked(nals[1..])
  }

  lemma {:induction false} PickedAppend(a: seq<Octets>, b: seq<Octets>)
    requires ValidNals(a) && ValidNals(b)
    ensures ValidNals(a + b) && Picked(a + b) == Picked(a) + Picked(b)
  {
    hide ValidNalu;
    if a == [] {
      assert a + b == b;
    } else {
      assert (a + b)[0] == a[0] && (a + b)[1..] == a[1..] + b;
      PickedAppend(a[1..], b);
    }
  }

  lemma {:induction false} SlicesPicked(nals: seq<Octets>)
    requires ValidNals(nals)
    ensures Slices(nals) == Picked(nals)
  {
    if nals != [] {
      var front, last := nals[..|nals| - 1], nals[|nals| - 1];
      SlicesPicked(front);
      PickedAppend(front, [last]);
      assert front + [last] == nals;
      LastPicked(last);
    }
  }

  lemma LastPicked(nal: Octets)
    requires ValidNalu(nal)
    ensures Picked([nal]) == if IsSlice(nal) then [nal[4..]] else []
  {
    assert [nal][1..] == [];
  }

  /** The frame of an access unit: its slices and SEI units, its stamp divided by the time scale, its key flag. */
  predicate Carries(f: Frame, u: Unit)
    requires ValidNals(u.nals)
  {
    SplitNals(f.payload) == Some(Picked(u.nals)) && f.key == u.key && IsQuotient(u.stamp, 50000, f.time)
  }

  // ---------------------------------------------------------------- calls in sequence

  lemma RecordScale(r: Recorder, call: Call)
    requires Scale(r) != 0 && ValidCall(r, call)
    ensures Scale(Record(r, call)) != 0
  {
    hide ValidHeader, Frames;
  }

  lemma {:induction false} CallsAppend(r: Recorder, a: seq<Call>, b: seq<Call>)
    requires Scale(r) != 0 && ValidCalls(r, a) && ValidCalls(RecordAll(r, a), b)
    ensures ValidCalls(r, a + b) && RecordAll(r, a + b) == RecordAll(RecordAll(r, a), b)
    decreases |a|
  {
    hide Record, ValidCall;
    if a == [] {
      assert a + b == b;
    } else {
      RecordScale(r, a[0]);
      CallsAppend(Record(r, a[0]), a[1..], b);
      assert (a + b)[1..] == a[1..] + b;
    }
  }

  lemma {:induction false} ExecAppend(s: State, a: seq<Call>, b: seq<Call>, r: Recorder)
    requires s.timescale == Scale(r) != 0 && s.header == r.header && ValidCalls(r, a) && ValidCalls(RecordAll(r, a), b)
    ensures ValidCalls(r, a + b)
    ensures Exec(s, a, r).timescale == Scale(RecordAll(r, a)) && Exec(s, a, r).header == RecordAll(r, a).header
    ensures Exec(s, a + b, r) == Exec(Exec(s, a, r), b, RecordAll(r, a))
    decreases |a|
  {
    hide Record, Step, ValidCall;
    CallsAppend(r, a, b);
    if a == [] {
      assert a + b == b;
    } else {
      ExecAgrees(s, a[0], r);
      ExecAppend(Step(s, a[0]), a[1..], b, Record(r, a[0]));
      assert (a + b)[1..] == a[1..] + b;
    }
  }

  lemma {:induction false} PrefixedSnoc(ns: seq<Octets>, n: Octets)
    ensures Prefixed(ns + [n]) == Prefixed(ns) + BE(|n|, 4) + n
  {
    hide BE;
    if ns == [] {
      PrefixedOne(ns + [n], n);
    } else {
      PrefixedSnoc(ns[1..], n);
      assert (ns + [n])[1..] == ns[1..] + [n];
    }
  }

  lemma PrefixedOne(ns: seq<Octets>, n: Octets)
    requires ns == [n]
    ensures Prefixed(ns) == BE(|n|, 4) + n
  {
    hide BE;
    assert Prefixed(ns[1..]) == [];
  }

  // ---------------------------------------------------------------- what one unit records

  /** Recording so far against the muxer's own state. */
  predicate Agrees(m: Mux, r: Recorder) {
    && Scale(r) != 0 && m.headerWritten == r.header.Some?
    && (m.headerWritten ==> m.sps.Some? && m.pps.Some? && |m.sps.value| >= 4 && r.header.value == MuxHeader(m))
  }

  /** From r, outside a frame, the slices ss have been recorded. */
  predicate Fed(r: Recorder, ss: seq<Octets>, m': Mux, r': Recorder)
    requires Scale(r) != 0
  {
    && m'.writing == (ss != []) && r'.tc == r.tc
    && (if ss == [] then r'.frames == r.frames && r'.current == r.current && r'.key == r.key
        else r'.frames == Frames(r) && r'.current == Some(Prefixed(ss)) && !r'.key)
  }

  /** The pending frame's time does not depend on a header still to come. */
  predicate Settled(r: Recorder) { r.header.Some? || r.current.None? }

  lemma FramesSettled(r: Recorder, r1: Recorder)
    requires Scale(r) != 0 && Scale(r1) != 0 && Settled(r)
    requires r1.frames == r.frames && r1.current == r.current && r1.tc == r.tc && r1.key == r.key
    requires r.header.Some? ==> r1.header == r.header
    ensures Frames(r1) == Frames(r)
  {
    hide TruncDiv;
  }

  lemma MuxHeaderValid(m: Mux)
    requires ValidMux(m) && m.sps.Some? && m.pps.Some?
    ensures ValidHeader(MuxHeader(m)) && MuxHeader(m).timescale == TIMESCALE
  {
    hide BE;
  }

  lemma FrameCallsRecord(m: Mux, nal: Octets, r0: Recorder, ss: seq<Octets>, r: Recorder)
    requires ValidNalu(nal) && Scale(r0) != 0 && Scale(r) != 0 && Settled(r0) && Fed(r0, ss, m, r)
    requires r0.header.Some? ==> r.header == r0.header
    requires IsSlice(nal) ==> |Prefixed(ss + [nal[4..]])| <= MAX_FRAME
    ensures var calls, ss' := FrameCalls(m, nal), ss + (if IsSlice(nal) then [nal[4..]] else []);
      ValidCalls(r, calls) && Fed(r0, ss', Take(m, nal), RecordAll(r, calls)) && RecordAll(r, calls).header == r.header
  {
    hide BE, Frames, TruncDiv, Prefixed;
    if IsSlice(nal) {
      PrefixedSnoc(ss, nal[4..]);
      var size, body := AddFrameData(BE(|nal| - 4, 4)), AddFrameData(nal[4..]);
      var r1 := if m.writing then r else Record(r, StartFrame);
      if ss == [] { FramesSettled(r0, r); PrefixedNone(ss); }
      RecordData(r1, BE(|nal| - 4, 4), nal[4..], [size, body]);
      if !m.writing { RecordStart(r, [StartFrame] + [size, body], [size, body]); }
      else { assert FrameCalls(m, nal) == [size, body]; }
    } else {
      assert ss + [] == ss;
    }
  }

  lemma PrefixedNone(ss: seq<Octets>)
    requires ss == []
    ensures Prefixed(ss) == []
  {}

  lemma RecordData(r: Recorder, a: Octets, b: Octets, calls: seq<Call>)
    requires Scale(r) != 0 && r.current.Some? && |r.current.value| + |a| + |b| <= MAX_FRAME
    requires calls == [AddFrameData(a), AddFrameData(b)]
    ensures ValidCalls(r, calls) && RecordAll(r, calls) == r.(current := Some(r.current.value + a + b))
  {
    hide Frames;
    var rest := calls[1..];
    var none := rest[1..];
    var r1 := Record(r, calls[0]);
    var r2 := Record(r1, rest[0]);
    assert ValidCalls(r2, none) && RecordAll(r2, none) == r2;
    assert ValidCalls(r1, rest) && RecordAll(r1, rest) == r2;
  }

  lemma RecordStart(r: Recorder, calls: seq<Call>, rest: seq<Call>)
    requires Scale(r) != 0 && calls == [StartFrame] + rest && ValidCalls(Record(r, StartFrame), rest)
    ensures ValidCalls(r, calls) && RecordAll(r, calls) == RecordAll(Record(r, StartFrame), rest)
  {
    assert calls[1..] == rest;
    hide Record, Frames;
  }

  /** Appending the header call, when it is due, completes the agreement. */
  lemma HeaderRecord(t: Mux, calls: seq<Call>, r: Recorder, r1: Recorder)
    requires ValidMux(t) && HeaderDue(t) && Scale(r) != 0 && ValidCalls(r, calls) && r1 == RecordAll(r, calls) && r1.header.None?
    ensures ValidCalls(r, calls + [WriteHeader(MuxHeader(t))])
    ensures RecordAll(r, calls + [WriteHeader(MuxHeader(t))]) == r1.(header := Some(MuxHeader(t)))
    ensures Agrees(t.(headerWritten := true), r1.(header := Some(MuxHeader(t))))
  {
    hide ValidHeader, AvcC;
    MuxHeaderValid(t);
    OneCall(r1, [WriteHeader(MuxHeader(t))]);
    CallsAppend(r, calls, [WriteHeader(MuxHeader(t))]);
  }

  lemma OneCall(r: Recorder, calls: seq<Call>)
    requires Scale(r) != 0 && |calls| == 1 && ValidCall(r, calls[0])
    ensures ValidCalls(r, calls) && RecordAll(r, calls) == Record(r, calls[0])
  {
    hide ValidCall, Record;
    RecordScale(r, calls[0]);
    var none := calls[1..];
    assert ValidCalls(Record(r, calls[0]), none);
  }

  /** One NAL unit: the recording follows the slices, and the header appears exactly when due. */
  lemma NaluRecords(m: Mux, nal: Octets, r0: Recorder, ss: seq<Octets>, r: Recorder)
    requires ValidMux(m) && ValidNalu(nal) && HasSizes(m) && Scale(r0) != 0 && Settled(r0) && Fed(r0, ss, m, r) && Agrees(m, r)
    requires r0.header.Some? ==> r.header == r0.header
    requires IsSlice(nal) ==> |Prefixed(ss + [nal[4..]])| <= MAX_FRAME
    ensures var (m', calls, ok) := WriteNalu(m, nal);
      var ss' := ss + (if IsSlice(nal) then [nal[4..]] else []);
      && ok && HasSizes(m') && ValidCalls(r, calls) && Fed(r0, ss', m', RecordAll(r, calls)) && Agrees(m', RecordAll(r, calls))
      && (r0.header.Some? ==> RecordAll(r, calls).header == r0.header) && !HeaderDue(m')
  {
    hide Prefixed, Frames, TruncDiv, BE, FrameCalls, AvcC;
    var t := Take(m, nal);
    TakeKeeps(m, nal);
    FrameCallsRecord(m, nal, r0, ss, r);
    var calls := FrameCalls(m, nal);
    if HeaderDue(t) {
      HeaderRecord(t, calls, r, RecordAll(r, calls));
    }
  }

  lemma TakeKeeps(m: Mux, nal: Octets)
    requires ValidMux(m) && ValidNalu(nal)
    ensures var t := Take(m, nal);
      ValidMux(t) && t == m.(sps := t.sps, pps := t.pps, writing := t.writing)
      && (m.sps.Some? ==> t.sps == m.sps) && (m.pps.Some? ==> t.pps == m.pps)
  {}

  lemma {:induction false} PrefixedMonotone(a: seq<Octets>, b: seq<Octets>)
    ensures |Prefixed(a)| <= |Prefixed(a + b)|
  {
    hide BE;
    if a != [] {
      PrefixedMonotone(a[1..], b);
      assert (a + b)[1..] == a[1..] + b;
    }
  }

  /** A whole unit's NAL units, fed from outside a frame. */
  lemma {:induction false} FeedRecords(m: Mux, nals: seq<Octets>, r: Recorder)
    requires ValidMux(m) && ValidNals(nals) && HasSizes(m) && !m.writing && Agrees(m, r) && Settled(r)
    requires |Prefixed(Slices(nals))| <= MAX_FRAME
    ensures var (m', calls) := Feed(m, nals);
      && HasSizes(m') && ValidCalls(r, calls) && Fed(r, Slices(nals), m', RecordAll(r, calls)) && Agrees(m', RecordAll(r, calls))
      && (r.header.Some? ==> RecordAll(r, calls).header == r.header) && (nals != [] ==> !HeaderDue(m'))
  {
    hide Prefixed, Frames, TruncDiv, BE, AvcC, WriteNalu, HeaderDue;
    if nals == [] {
      FeedNone(m, nals, r);
    } else {
      var front, last := nals[..|nals| - 1], nals[|nals| - 1];
      PrefixedMonotone(Slices(front), if IsSlice(last) then [last[4..]] else []);
      FeedRecords(m, front, r);
      var (m1, calls1) := Feed(m, front);
      var r1 := RecordAll(r, calls1);
      NaluRecords(m1, last, r, Slices(front), r1);
      CallsAppend(r, calls1, WriteNalu(m1, last).1);
    }
  }

  lemma FeedNone(m: Mux, nals: seq<Octets>, r: Recorder)
    requires ValidMux(m) && nals == [] && Scale(r) != 0 && !m.writing
    ensures Feed(m, nals) == (m, []) && ValidCalls(r, []) && RecordAll(r, []) == r && Slices(nals) == [] && Fed(r, [], m, r)
  {}

  /** One access unit adds exactly its frame to what has been recorded. */
  lemma UnitRecords(m: Mux, u: Unit, r: Recorder)
    requires ValidMux(m) && ValidUnit(u) && HasSizes(m) && !m.writing && Agrees(m, r) && Settled(r)
    ensures var (m', calls) := FeedUnit(m, u);
      && HasSizes(m') && !m'.writing && ValidCalls(r, calls) && Agrees(m', RecordAll(r, calls)) && !HeaderDue(m')
      && (m'.headerWritten ==> Frames(RecordAll(r, calls)) == Frames(r) + [UnitFrame(u)])
  {
    hide Prefixed, Frames, TruncDiv, BE, AvcC, Feed, HeaderDue, Slices, ValidNals;
    SlicesSome(u.nals);
    FeedRecords(m, u.nals, r);
    var (m1, calls1) := Feed(m, u.nals);
    var r1 := RecordAll(r, calls1);
    var eop := [SetFrameFlags(u.stamp, u.key)];
    OneCall(r1, eop);
    CallsAppend(r, calls1, eop);
    if m1.headerWritten { FlaggedFrame(r, r1, u); }
    SetEopDue(m1, u);
  }

  lemma SetEopDue(m: Mux, u: Unit)
    ensures HeaderDue(SetEop(m, u.stamp, u.key).0) == HeaderDue(m)
  {}

  lemma SlicesSome(nals: seq<Octets>)
    requires ValidNals(nals) && Slices(nals) != []
    ensures nals != []
  {}

  lemma FlaggedFrame(r: Recorder, r1: Recorder, u: Unit)
    requires ValidNals(u.nals) && Scale(r) != 0 && r1.header.Some? && r1.header.value.timescale == TIMESCALE
    requires r1.frames == Frames(r) && r1.current == Some(Prefixed(Slices(u.nals)))
    ensures Scale(Record(r1, SetFrameFlags(u.stamp, u.key))) != 0
    ensures Frames(Record(r1, SetFrameFlags(u.stamp, u.key))) == Frames(r) + [UnitFrame(u)]
  {
    hide Prefixed, TruncDiv, Slices;
  }

  /** Any number of access units: one frame each, in order. */
  lemma {:induction false} UnitsRecord(m: Mux, us: seq<Unit>)
    requires ValidMux(m) && ValidUnits(us) && HasSizes(m) && !m.writing && !m.headerWritten
    requires us != [] ==> FeedUnit(m, us[0]).0.headerWritten
    ensures var (m', calls) := FeedUnits(m, us);
      && HasSizes(m') && !m'.writing && (us != [] ==> m'.headerWritten)
      && ValidCalls(NOTHING, calls) && Agrees(m', RecordAll(NOTHING, calls)) && Settled(RecordAll(NOTHING, calls))
      && Frames(RecordAll(NOTHING, calls)) == UnitFrames(us)
  {
    hide Prefixed, Frames, TruncDiv, BE, AvcC, FeedUnit, UnitFrame;
    if us == [] {
      UnitsNone(m, us);
    } else {
      var front, last := us[..|us| - 1], us[|us| - 1];
      UnitsRecord(m, front);
      var (m1, calls1) := FeedUnits(m, front);
      var r1 := RecordAll(NOTHING, calls1);
      UnitRecords(m1, last, r1);
      CallsAppend(NOTHING, calls1, FeedUnit(m1, last).1);
      HeaderStays(m, us);
      assert UnitFrames(us) == UnitFrames(front) + [UnitFrame(last)];
    }
  }

  lemma UnitsNone(m: Mux, us: seq<Unit>)
    requires ValidMux(m) && us == []
    ensures FeedUnits(m, us) == (m, []) && ValidCalls(NOTHING, []) && RecordAll(NOTHING, []) == NOTHING
    ensures Frames(NOTHING) == UnitFrames(us) == []
  {}

  lemma HeaderStays(m: Mux, us: seq<Unit>)
    requires ValidMux(m) && ValidUnits(us) && us != []
    requires |us| == 1 ==> FeedUnit(m, us[0]).0.headerWritten
    requires |us| > 1 ==> FeedUnits(m, us[..|us| - 1]).0.headerWritten
    ensures FeedUnits(m, us).0.headerWritten
  {
    hide FeedUnit;
    var front, last := us[..|us| - 1], us[|us| - 1];
    if |us| == 1 {
      UnitsNone(m, front);
    } else {
      UnitKeepsHeader(FeedUnits(m, front).0, last);
    }
  }

  lemma UnitKeepsHeader(m: Mux, u: Unit)
    requires ValidMux(m) && ValidNals(u.nals) && m.headerWritten
    ensures FeedUnit(m, u).0.headerWritten
  {
    hide Feed;
    FeedKeepsHeader(m, u.nals);
  }

  lemma {:induction false} FeedKeepsHeader(m: Mux, nals: seq<Octets>)
    requires ValidMux(m) && ValidNals(nals) && m.headerWritten
    ensures Feed(m, nals).0.headerWritten
  {
    hide AvcC, FrameCalls;
    if nals != [] { FeedKeepsHeader(m, nals[..|nals| - 1]); }
  }

  // ---------------------------------------------------------------- parameter sets and the header's place

  lemma {:induction false} FeedSets(m: Mux, nals: seq<Octets>)
    requires ValidMux(m) && ValidNals(nals) && HasSizes(m)
    ensures var m' := Feed(m, nals).0;
      && HasSizes(m')
      && m'.sps == (if m.sps.Some? then m.sps else FirstOf(nals, 7))
      && m'.pps == (if m.pps.Some? then m.pps else FirstOf(nals, 8))
      && (nals != [] ==> !HeaderDue(m'))
  {
    hide AvcC, FrameCalls;
    if nals != [] {
      FeedSets(m, nals[..|nals| - 1]);
      NaluSets(Feed(m, nals[..|nals| - 1]).0, nals[|nals| - 1]);
      hide WriteNalu;
    }
  }

  lemma NaluSets(m: Mux, nal: Octets)
    requires ValidMux(m) && ValidNalu(nal) && HasSizes(m)
    ensures var m' := WriteNalu(m, nal).0;
      && HasSizes(m') && !HeaderDue(m')
      && m'.sps == (if m.sps.None? && NalType(nal) == 7 then Some(nal[4..]) else m.sps)
      && m'.pps == (if m.pps.None? && NalType(nal) == 8 then Some(nal[4..]) else m.pps)
  {
    hide AvcC, FrameCalls;
  }

  /** Both parameter sets in the first unit are enough for the header to be written there. */
  lemma FirstUnitWritesHeader(m: Mux, u: Unit)
    requires ValidMux(m) && ValidUnit(u) && HasSizes(m)
    requires FirstOf(u.nals, 7).Some? && FirstOf(u.nals, 8).Some?
    ensures FeedUnit(m, u).0.headerWritten
  {
    hide Feed, Prefixed, Slices, FirstOf;
    SlicesSome(u.nals);
    FeedSets(m, u.nals);
  }

  /** Until the header is written nothing has reached the file; afterwards the header leads it. */
  predicate Placed(m: Mux, s: State) {
    if m.headerWritten then HeaderFirst(s)
    else s.items == [] && s.open.None? && s.header.None? && s.inFrame == m.writing
  }

  lemma StartPlaced(m: Mux, s: State)
    requires s.timescale != 0 && !m.headerWritten && !m.writing && Placed(m, s)
    ensures Placed(m.(writing := true), Step(s, StartFrame))
  {
    FlushQuiet(s);
    hide FlushFrame;
  }

  lemma FlushQuiet(s: State)
    requires s.timescale != 0 && !s.inFrame
    ensures FlushFrame(s) == s
  {}

  lemma FrameCallsPlaced(m: Mux, nal: Octets, s: State, r: Recorder)
    requires ValidNalu(nal) && s.timescale == Scale(r) != 0 && s.header == r.header && Placed(m, s)
    requires ValidCalls(r, FrameCalls(m, nal))
    ensures Placed(Take(m, nal), Exec(s, FrameCalls(m, nal), r))
  {
    hide FlushFrame, HeaderFirst, BE;
    var calls := FrameCalls(m, nal);
    if m.headerWritten {
      ExecHeaderFirst(s, calls, r);
    } else if IsSlice(nal) {
      var tail := [AddFrameData(BE(|nal| - 4, 4)), AddFrameData(nal[4..])];
      if m.writing {
        assert calls == tail;
        DataPlaced(m, s, tail, r);
      } else {
        assert calls == [StartFrame] + tail;
        assert calls[1..] == tail;
        StartPlaced(m, s);
        ExecUnfold(s, calls, r);
        DataPlaced(m.(writing := true), Step(s, StartFrame), tail, Record(r, StartFrame));
      }
    } else {
      assert calls == [];
    }
  }

  lemma {:induction false} DataPlaced(m: Mux, s: State, calls: seq<Call>, r: Recorder)
    requires s.timescale == Scale(r) != 0 && s.header == r.header && ValidCalls(r, calls) && !m.headerWritten && Placed(m, s)
    requires forall i | 0 <= i < |calls| :: calls[i].AddFrameData?
    ensures Placed(m, Exec(s, calls, r))
    decreases |calls|
  {
    if calls != [] {
      ExecUnfold(s, calls, r);
      DataPlaced(m, Step(s, calls[0]), calls[1..], Record(r, calls[0]));
    }
  }

  lemma NaluPlaced(m: Mux, nal: Octets, s: State, r: Recorder)
    requires ValidMux(m) && ValidNalu(nal) && s.timescale == Scale(r) != 0 && s.header == r.header && Placed(m, s)
    requires m.headerWritten == r.header.Some? && ValidCalls(r, WriteNalu(m, nal).1)
    requires ValidCalls(r, FrameCalls(m, nal)) && RecordAll(r, FrameCalls(m, nal)).header == r.header
    ensures Placed(WriteNalu(m, nal).0, Exec(s, WriteNalu(m, nal).1, r))
  {
    hide FrameCalls, HeaderFirst, AvcC, Exec, ValidHeader;
    var t, calls := Take(m, nal), FrameCalls(m, nal);
    FrameCallsPlaced(m, nal, s, r);
    if HeaderDue(t) && HasSizes(t) {
      var h := [WriteHeader(MuxHeader(t))];
      var r1 := RecordAll(r, calls);
      MuxHeaderValid(t);
      OneCall(r1, h);
      ExecAppend(s, calls, h, r);
      ExecOne(Exec(s, calls, r), h, r1);
      HeaderStep(Exec(s, calls, r), MuxHeader(t));
    }
  }

  lemma ExecOne(s: State, calls: seq<Call>, r: Recorder)
    requires s.timescale == Scale(r) != 0 && s.header == r.header && |calls| == 1 && ValidCalls(r, calls)
    ensures Exec(s, calls, r) == Step(s, calls[0])
  {
    hide Step, Record;
    ExecUnfold(s, calls, r);
    var none := calls[1..];
    assert Exec(Step(s, calls[0]), none, Record(r, calls[0])) == Step(s, calls[0]);
  }

  lemma {:induction false} FeedPlaced(m: Mux, nals: seq<Octets>)
    requires ValidMux(m) && ValidNals(nals) && HasSizes(m) && !m.writing && !m.headerWritten
    requires |Prefixed(Slices(nals))| <= MAX_FRAME
    ensures var (m', calls) := Feed(m, nals);
      ValidCalls(NOTHING, calls) && Placed(m', Exec(Init(), calls, NOTHING))
  {
    hide Prefixed, Frames, TruncDiv, BE, AvcC, WriteNalu, HeaderFirst, FrameCalls, Fed, Exec, HasSizes;
    FeedRecords(m, nals, NOTHING);
    if nals == [] {
      FeedNone(m, nals, NOTHING);
      InitPlaced(m);
    } else {
      var front, last := nals[..|nals| - 1], nals[|nals| - 1];
      PrefixedMonotone(Slices(front), if IsSlice(last) then [last[4..]] else []);
      FeedRecords(m, front, NOTHING);
      FeedPlaced(m, front);
      var (m1, calls1) := Feed(m, front);
      var r1 := RecordAll(NOTHING, calls1);
      FrameCallsRecord(m1, last, NOTHING, Slices(front), r1);
      NaluRecords(m1, last, NOTHING, Slices(front), r1);
      ExecAppend(Init(), calls1, WriteNalu(m1, last).1, NOTHING);
      NaluPlaced(m1, last, Exec(Init(), calls1, NOTHING), r1);
    }
  }

  lemma InitPlaced(m: Mux)
    requires !m.writing && !m.headerWritten
    ensures Placed(m, Exec(Init(), [], NOTHING))
  {}

  /** The first unit leaves the header at the start of the file; later units keep it there. */
  lemma {:induction false} UnitsPlaced(m: Mux, us: seq<Unit>)
    requires ValidMux(m) && ValidUnits(us) && HasSizes(m) && !m.writing && !m.headerWritten
    requires us != [] && FeedUnit(m, us[0]).0.headerWritten
    ensures ValidCalls(NOTHING, FeedUnits(m, us).1) && HeaderFirst(Exec(Init(), FeedUnits(m, us).1, NOTHING))
  {
    hide Prefixed, Frames, TruncDiv, BE, AvcC, FeedUnit, HeaderFirst, Exec, Slices, HasSizes;
    UnitsRecord(m, us);
    var front, last := us[..|us| - 1], us[|us| - 1];
    UnitsRecord(m, front);
    var calls1, calls2 := FeedUnits(m, front).1, FeedUnit(FeedUnits(m, front).0, last).1;
    if front == [] {
      UnitsNone(m, front);
      FirstPlaced(m, last);
      assert [] + calls2 == calls2;
    } else {
      UnitsPlaced(m, front);
      UnitRecords(FeedUnits(m, front).0, last, RecordAll(NOTHING, calls1));
      ExecAppend(Init(), calls1, calls2, NOTHING);
      ExecHeaderFirst(Exec(Init(), calls1, NOTHING), calls2, RecordAll(NOTHING, calls1));
    }
  }

  lemma FirstPlaced(m: Mux, u: Unit)
    requires ValidMux(m) && ValidUnit(u) && HasSizes(m) && !m.writing && !m.headerWritten && FeedUnit(m, u).0.headerWritten
    ensures ValidCalls(NOTHING, FeedUnit(m, u).1) && HeaderFirst(Exec(Init(), FeedUnit(m, u).1, NOTHING))
  {
    hide Prefixed, Frames, TruncDiv, BE, AvcC, HeaderFirst, Exec, Feed, Slices, HasSizes;
    FeedPlaced(m, u.nals);
    FeedRecords(m, u.nals, NOTHING);
    var (m1, calls1) := Feed(m, u.nals);
    var r1 := RecordAll(NOTHING, calls1);
    var eop := [SetFrameFlags(u.stamp, u.key)];
    OneCall(r1, eop);
    ExecAppend(Init(), calls1, eop, NOTHING);
    ExecHeaderFirst(Exec(Init(), calls1, NOTHING), eop, r1);
  }

  /** The parameter sets of the first unit are the ones kept. */
  lemma {:induction false} UnitsSets(m: Mux, us: seq<Unit>)
    requires ValidMux(m) && ValidUnits(us) && HasSizes(m) && m.sps.None? && m.pps.None? && us != []
    requires FirstOf(us[0].nals, 7).Some? && FirstOf(us[0].nals, 8).Some?
    ensures var m' := FeedUnits(m, us).0;
      HasSizes(m') && m'.sps == FirstOf(us[0].nals, 7) && m'.pps == FirstOf(us[0].nals, 8)
  {
    hide Feed, FirstOf, Slices, HasSizes, Prefixed;
    var front, last := us[..|us| - 1], us[|us| - 1];
    if front == [] {
      UnitsNone(m, front);
      UnitSets(m, last);
    } else {
      UnitsSets(m, front);
      UnitSets(FeedUnits(m, front).0, last);
    }
  }

  lemma UnitSets(m: Mux, u: Unit)
    requires ValidMux(m) && ValidNals(u.nals) && HasSizes(m)
    ensures var m' := FeedUnit(m, u).0;
      && HasSizes(m')
      && m'.sps == (if m.sps.Some? then m.sps else FirstOf(u.nals, 7))
      && m'.pps == (if m.pps.Some? then m.pps else FirstOf(u.nals, 8))
  {
    hide Feed, FirstOf;
    FeedSets(m, u.nals);
  }

  lemma ExecHeader(calls: seq<Call>)
    requires ValidCalls(NOTHING, calls)
    ensures Exec(Init(), calls, NOTHING).header == RecordAll(NOTHING, calls).header
  {
    hide Exec;
    assert calls + [] == calls;
    NoCalls(RecordAll(NOTHING, calls));
    ExecAppend(Init(), calls, [], NOTHING);
  }

  lemma NoCalls(r: Recorder)
    requires Scale(r) != 0
    ensures ValidCalls(r, [])
  {}

  /**
   * From NAL units to the file and back: the header carries the first SPS and PPS, and the reader
   * finds exactly one frame for each access unit, if and only if none that opens a cluster is stamped before
   * zero.
   */
  lemma UnitsReadBack(m: Mux, us: seq<Unit>, bits: Octets)
    requires ValidMux(m) && ValidUnits(us) && HasSizes(m) && |bits| == 4
    requires m.sps.None? && m.pps.None? && !m.writing && !m.headerWritten
    requires us != [] && FirstOf(us[0].nals, 7).Some? && FirstOf(us[0].nals, 8).Some?
    ensures ValidCalls(NOTHING, FeedUnits(m, us).1)
    ensures var s, sps, pps := Exec(Init(), FeedUnits(m, us).1, NOTHING), FirstOf(us[0].nals, 7).value, FirstOf(us[0].nals, 8).value;
      var movie, fs := ParseFile(FileOf(s, bits)), UnitFrames(us);
      && movie.Some? && |sps| >= 4 && movie.value.header == Described(m, AvcC(sps, pps)) && movie.value.track == Track(1, 1, 1, 0)
      && (forall i | 0 <= i < |us| :: Carries(fs[i], us[i]))
      && (AsFrames(Show(movie.value.clusters)) == fs <==> FromZero(PlaceAll(fs).times))
  {
    hide Prefixed, Frames, TruncDiv, BE, AvcC, FeedUnit, FeedUnits, HeaderFirst, HeaderInTime, Exec, ParseFile, FileOf, Show, AsFrames, FromZero, PlaceAll, ClustersOf, Finish, Slices, FirstOf, HasSizes, AllAsRead, Expect;
    FirstUnitWritesHeader(m, us[0]);
    UnitsRecord(m, us);
    UnitsPlaced(m, us);
    UnitsSets(m, us);
    var calls := FeedUnits(m, us).1;
    ExecHeader(calls);
    LeadsExactly(calls);
    UnitsSizes(m, us);
    RunReadsBack(calls, bits);
    FramesReadBack(calls, bits);
    HeaderDescribed(FeedUnits(m, us).0, m);
    forall i | 0 <= i < |us| ensures Carries(UnitFrames(us)[i], us[i]) { UnitSplits(us[i]); }
  }

  /** What the header must say: "x264", "V_MPEG4/ISO/AVC", the record, and the sizes and duration set before. */
  function Described(m: Mux, record: Octets): Header {
    Header([0x78, 0x32, 0x36, 0x34],
           [0x56, 0x5f, 0x4d, 0x50, 0x45, 0x47, 0x34, 0x2f, 0x49, 0x53, 0x4f, 0x2f, 0x41, 0x56, 0x43],
           record, AsUInt64(m.frameDuration), 50000, m.width, m.height, m.dWidth, m.dHeight)
  }

  lemma HeaderDescribed(t: Mux, m: Mux)
    requires t.sps.Some? && t.pps.Some? && |t.sps.value| >= 4 && SameSizes(t, m)
    ensures HeaderAsRead(MuxHeader(t)) == Described(m, AvcC(t.sps.value, t.pps.value))
  {
    hide AvcC;
    NamesAre();
    Small64(50000);
  }

  lemma Small64(v: int)
    requires 0 <= v < 0x8000_0000
    ensures AsUInt64(v) == v
  {}

  lemma NamesAre()
    ensures AppName() == [0x78, 0x32, 0x36, 0x34]
    ensures CodecName() == [0x56, 0x5f, 0x4d, 0x50, 0x45, 0x47, 0x34, 0x2f, 0x49, 0x53, 0x4f, 0x2f, 0x41, 0x56, 0x43]
  {}

  predicate SameSizes(a: Mux, b: Mux) {
    a.width == b.width && a.height == b.height && a.dWidth == b.dWidth && a.dHeight == b.dHeight && a.frameDuration == b.frameDuration
  }

  lemma {:induction false} FeedSizes(m: Mux, nals: seq<Octets>)
    requires ValidMux(m) && ValidNals(nals)
    ensures SameSizes(Feed(m, nals).0, m)
  {
    hide AvcC, FrameCalls, ValidNalu, ValidMux;
    if nals != [] { FeedSizes(m, nals[..|nals| - 1]); }
  }

  lemma {:induction false} UnitsSizes(m: Mux, us: seq<Unit>)
    requires ValidMux(m) && ValidUnits(us)
    ensures SameSizes(FeedUnits(m, us).0, m)
  {
    hide Feed, ValidMux, Slices, Prefixed;
    if us != [] {
      UnitsSizes(m, us[..|us| - 1]);
      FeedSizes(FeedUnits(m, us[..|us| - 1]).0, us[|us| - 1].nals);
    }
  }

  /** With no stamp before zero, the frames of the file are exactly those of the access units. */
  lemma UnitsFromZero(m: Mux, us: seq<Unit>, bits: Octets)
    requires ValidMux(m) && ValidUnits(us) && HasSizes(m) && |bits| == 4
    requires m.sps.None? && m.pps.None? && !m.writing && !m.headerWritten
    requires us != [] && FirstOf(us[0].nals, 7).Some? && FirstOf(us[0].nals, 8).Some?
    requires forall i | 0 <= i < |us| :: us[i].stamp >= 0
    ensures ValidCalls(NOTHING, FeedUnits(m, us).1)
    ensures AsFrames(Show(ClustersRead(FileOf(Exec(Init(), FeedUnits(m, us).1, NOTHING), bits)))) == UnitFrames(us)
  {
    hide Prefixed, Frames, BE, AvcC, FeedUnit, FeedUnits, HeaderFirst, HeaderInTime, Exec, ParseFile, FileOf, Show, AsFrames, Finish, Slices, FirstOf, HasSizes, ClustersRead;
    FirstUnitWritesHeader(m, us[0]);
    UnitsRecord(m, us);
    UnitsPlaced(m, us);
    UnitsSets(m, us);
    ExecHeader(FeedUnits(m, us).1);
    LeadsExactly(FeedUnits(m, us).1);
    StampedFromZero(FeedUnits(m, us).1, bits);
    assert forall i | 0 <= i < |us| :: UnitFrames(us)[i].time >= 0;
  }

  /** Each frame carries exactly the slices and SEI units of its access unit, at its time. */
  lemma UnitSplits(u: Unit)
    requires ValidUnit(u)
    ensures Carries(UnitFrame(u), u)
  {
    hide Prefixed, TruncDiv, SplitNals, Slices, Picked, IsQuotient;
    SlicesBounded(u.nals);
    SplitPrefixed(Slices(u.nals));
    SlicesPicked(u.nals);
    Scaled(u.stamp);
  }

  lemma Scaled(stamp: int)
    ensures IsQuotient(stamp, 50000, TruncDiv(stamp, TIMESCALE))
  {}

  /** A NAL unit of another type leaves the frame alone, and only types 7 and 8 are kept as parameter sets. */
  lemma OtherTypes(m: Mux, nal: Octets)
    requires ValidMux(m) && ValidNalu(nal) && nal[4] % 32 !in {1, 5, 6}
    ensures var (m', calls, _) := WriteNalu(m, nal);
      && m'.writing == m.writing && (forall i | 0 <= i < |calls| :: calls[i].WriteHeader?)
      && (nal[4] % 32 != 7 ==> m'.sps == m.sps) && (nal[4] % 32 != 8 ==> m'.pps == m.pps)
  {
    hide AvcC;
  }

  predicate NoHeader(calls: seq<Call>) { forall i | 0 <= i < |calls| :: !calls[i].WriteHeader? }

  /** The header is written once, with the NAL unit that completes the parameter sets, and never without all four sizes. */
  lemma HeaderExactly(m: Mux, nal: Octets)
    requires ValidMux(m) && ValidNalu(nal)
    ensures var (m', calls, ok) := WriteNalu(m, nal);
      var missing := m.width == 0 || m.height == 0 || m.dWidth == 0 || m.dHeight == 0;
      && (NoHeader(calls) <==> m.headerWritten || m'.sps.None? || m'.pps.None? || missing)
      && (m'.headerWritten <==> m.headerWritten || !NoHeader(calls))
      && (ok <==> m.headerWritten || m'.sps.None? || m'.pps.None? || !missing)
  {
    hide AvcC, BE;
    var (m', calls, ok) := WriteNalu(m, nal);
    var before := FrameCalls(m, nal);
    assert NoHeader(before);
    if !m.headerWritten && m'.sps.Some? && m'.pps.Some? && ok { assert calls[|before|].WriteHeader?; }
  }

  /** With a size missing, no header is written over any access units. */
  lemma {:induction false} NoSizes(m: Mux, us: seq<Unit>)
    requires ValidMux(m) && ValidUnits(us) && !m.headerWritten
    requires m.width == 0 || m.height == 0 || m.dWidth == 0 || m.dHeight == 0
    ensures var (m', calls) := FeedUnits(m, us); NoHeader(calls) && !m'.headerWritten
  {
    hide FeedUnit;
    if us != [] {
      NoSizes(m, us[..|us| - 1]);
      UnitsSizes(m, us[..|us| - 1]);
      UnitNoSizes(FeedUnits(m, us[..|us| - 1]).0, us[|us| - 1]);
    }
  }

  lemma UnitNoSizes(m: Mux, u: Unit)
    requires ValidMux(m) && ValidNals(u.nals) && !m.headerWritten
    requires m.width == 0 || m.height == 0 || m.dWidth == 0 || m.dHeight == 0
    ensures var (m', calls) := FeedUnit(m, u); NoHeader(calls) && !m'.headerWritten
  {
    hide Feed;
    FeedNoSizes(m, u.nals);
  }

  lemma {:induction false} FeedNoSizes(m: Mux, nals: seq<Octets>)
    requires ValidMux(m) && ValidNals(nals) && !m.headerWritten
    requires m.width == 0 || m.height == 0 || m.dWidth == 0 || m.dHeight == 0
    ensures var (m', calls) := Feed(m, nals); NoHeader(calls) && !m'.headerWritten
  {
    if nals != [] {
      FeedNoSizes(m, nals[..|nals| - 1]);
      var m1 := Feed(m, nals[..|nals| - 1]).0;
      HeaderExactly(m1, nals[|nals| - 1]);
      FeedSizes(m, nals[..|nals| - 1]);
      hide WriteNalu;
    }
  }

  lemma {:induction false} SlicesBounded(nals: seq<Octets>)
    requires ValidNals(nals)
    ensures forall i | 0 <= i < |Slices(nals)| :: |Slices(nals)[i]| < SIZE_LIMIT
  {
    if nals != [] { SlicesBounded(nals[..|nals| - 1]); }
  }
}
