/** Every run of the writer produces a file from which the caller's frames can be read back. */
module MatroskaRuns {
  import opened Bytes
  import opened Ebml
  import opened MatroskaFormat
  import opened MatroskaMuxing
  import opened MatroskaPlacing

  /** fwrite at an offset of an existing file; a gap past the end is filled with zeros. */
  function Overwrite(file: Octets, pos: nat, data: Octets): Octets {
    var f := if pos <= |file| then file else file + seq(pos - |file|, _ => 0);
    f[..pos] + data + (if pos + |data| < |f| then f[pos + |data|..] else [])
  }

  /** Offset of the Duration payload from the start of the header. */
  function DurationOffset(h: Header): nat {
    |Opening()| + |Element(InfoElem(h, ZERO_DURATION))| - 4
  }

  /** The file after mk_close: the last cluster flushed and, with a header, Duration patched in. */
  function FileOf(s: State, bits: Octets): Octets
    requires s.timescale != 0
  {
    var file := Stream(Finish(s).items);
    if s.header.None? then file
    else Overwrite(file, DurationOffset(s.header.value), bits)
  }

  /** The value of Duration: the latest stamp and the length of a frame, in units of the time scale. */
  function DurationOf(s: State): real
    requires s.timescale != 0
  {
    (s.maxTc + if s.header.Some? then s.header.value.defaultDuration else 0) as real / s.timescale as real
  }

  /** The header was the first thing to reach the file. */
  predicate HeaderFirst(s: State) {
    && s.header.Some? && ValidHeader(s.header.value)
    && s.items != [] && s.items[0] == HeaderItem(s.header.value, ZERO_DURATION)
    && forall i | 1 <= i < |s.items| :: s.items[i].ClusterItem?
  }

  // ---------------------------------------------------------------- the Duration patch

  lemma InfoSplit(h: Header, d: Octets)
    requires |d| == 4
    ensures Element(InfoElem(h, d)) == Element(InfoElem(h, d))[..|Element(InfoElem(h, d))| - 4] + d
    ensures |InfoElem(h, d).body| == |InfoElem(h, ZERO_DURATION).body|
    ensures Element(InfoElem(h, d))[..|Element(InfoElem(h, d))| - 4]
         == Element(InfoElem(h, ZERO_DURATION))[..|Element(InfoElem(h, ZERO_DURATION))| - 4]
    ensures |Element(InfoElem(h, d))| == |Element(InfoElem(h, ZERO_DURATION))| > 4
  {
    InfoBody(h, d);
    InfoBody(h, ZERO_DURATION);
    hide InfoPrefix, EncId, EncSize, InfoElems, Flatten;
  }

  function InfoPrefix(h: Header): Octets {
    Flatten(InfoElems(h, ZERO_DURATION)[..3]) + EncId(ID_DURATION) + EncSize(4)
  }

  lemma InfoBody(h: Header, d: Octets)
    requires |d| == 4
    ensures InfoElem(h, d).body == InfoPrefix(h) + d
  {
    hide UInt, MuxingApp, Element, Flatten;
    var a, e := InfoElems(h, ZERO_DURATION)[..3], Elem(ID_DURATION, d);
    assert InfoElems(h, d) == a + [e];
    FlattenAppend(a, [e]);
    FlattenOne(e, [e]);
    DurationElement(e);
  }

  lemma DurationElement(e: Elem)
    requires e.id == ID_DURATION && |e.body| == 4
    ensures Element(e) == EncId(ID_DURATION) + EncSize(4) + e.body
  {
    hide EncId, EncSize;
  }

  /** Patching four octets at the computed offset changes the Duration payload and nothing else. */
  lemma PatchHeader(h: Header, bits: Octets, rest: Octets)
    requires |bits| == 4
    ensures DurationOffset(h) + 4 <= |HeaderBytes(h, ZERO_DURATION)|
    ensures Overwrite(HeaderBytes(h, ZERO_DURATION) + rest, DurationOffset(h), bits) == HeaderBytes(h, bits) + rest
  {
    hide InfoElem, TracksElem, Element, Opening;
    InfoSplit(h, bits);
    InfoSplit(h, ZERO_DURATION);
    var o, t := Opening(), Element(TracksElem(h));
    var i, j := Element(InfoElem(h, ZERO_DURATION)), Element(InfoElem(h, bits));
    var p := i[..|i| - 4];
    PatchAt(o + p, ZERO_DURATION, bits, t + rest);
    assert HeaderBytes(h, ZERO_DURATION) + rest == (o + p) + ZERO_DURATION + (t + rest);
    assert HeaderBytes(h, bits) + rest == (o + p) + bits + (t + rest);
  }

  lemma PatchAt(a: Octets, old4: Octets, new4: Octets, b: Octets)
    requires |old4| == |new4|
    ensures Overwrite(a + old4 + b, |a|, new4) == a + new4 + b
  {}

  // ---------------------------------------------------------------- items and clusters

  lemma {:induction false} StreamHeaderFirst(items: seq<Item>)
    requires items != [] && items[0].HeaderItem? && forall i | 1 <= i < |items| :: items[i].ClusterItem?
    ensures Stream(items) == HeaderBytes(items[0].h, items[0].duration) + Flatten(Clusters(ClustersOf(items)))
  {
    hide HeaderBytes, Element, Flatten, ClusterElem, Clusters;
    var front := items[..|items| - 1];
    if front == [] {
      StreamOne(items);
    } else {
      StreamHeaderFirst(front);
      var c := items[|items| - 1].c;
      assert front[0] == items[0];
      hide Stream;
      StreamLast(items);
      assert Clusters(ClustersOf(items)) == Clusters(ClustersOf(front)) + [ClusterElem(c)];
      FlattenAppend(Clusters(ClustersOf(front)), [ClusterElem(c)]);
      FlattenOne(ClusterElem(c), [ClusterElem(c)]);
    }
  }

  lemma StreamLast(items: seq<Item>)
    requires items != []
    ensures Stream(items) == Stream(items[..|items| - 1]) + ItemBytes(items[|items| - 1])
  {}

  lemma StreamOne(items: seq<Item>)
    requires |items| == 1 && items[0].HeaderItem?
    ensures Stream(items) == HeaderBytes(items[0].h, items[0].duration) + Flatten(Clusters(ClustersOf(items)))
  {
    hide HeaderBytes;
    var none := items[..0];
    assert Stream(none) == [] && ClustersOf(none) == [];
    assert ClustersOf(items) == [];
    assert Clusters(ClustersOf(items)) == [];
  }

  lemma {:induction false} ClustersOfGood(items: seq<Item>)
    requires GoodItems(items)
    ensures forall i | 0 <= i < |ClustersOf(items)| :: GoodCluster(ClustersOf(items)[i])
  {
    hide GoodCluster;
    if items != [] { ClustersOfGood(items[..|items| - 1]); }
  }

  lemma ReadyItems(s: State)
    requires s.timescale != 0
    ensures |s.items| <= |Ready(s).items| && Ready(s).items[..|s.items|] == s.items
    ensures forall i | |s.items| <= i < |Ready(s).items| :: Ready(s).items[i].ClusterItem?
  {
    hide TruncDiv;
  }

  lemma FlushItems(s: State)
    requires s.timescale != 0
    ensures FlushFrame(s).header == s.header && FlushFrame(s).timescale == s.timescale
    ensures |s.items| <= |FlushFrame(s).items| && FlushFrame(s).items[..|s.items|] == s.items
    ensures forall i | |s.items| <= i < |FlushFrame(s).items| :: FlushFrame(s).items[i].ClusterItem?
  {
    hide ClusterBody, PendingBlock, AddBlock, Ready;
    if s.inFrame {
      ReadyItems(s);
      ReadyFields(s);
    }
  }

  lemma FinishHeaderFirst(s: State)
    requires s.timescale != 0 && HeaderFirst(s)
    ensures HeaderFirst(FlushFrame(s)) && HeaderFirst(Finish(s))
  {
    hide FlushFrame, ValidHeader;
    FlushItems(s);
    assert FlushFrame(s).items[0] == FlushFrame(s).items[..|s.items|][0];
  }

  lemma StepHeaderFirst(s: State, call: Call)
    requires s.timescale != 0 && HeaderFirst(s)
    ensures HeaderFirst(Step(s, call)) && Step(s, call).timescale == s.timescale
  {
    hide FlushFrame, ValidHeader;
    FinishHeaderFirst(s);
    FlushItems(s);
  }

  /** Once the header leads the file it stays there, whatever is called next. */
  lemma {:induction false} ExecHeaderFirst(s: State, calls: seq<Call>, r: Recorder)
    requires s.timescale == Scale(r) != 0 && s.header == r.header && ValidCalls(r, calls) && HeaderFirst(s)
    ensures HeaderFirst(Exec(s, calls, r))
    decreases |calls|
  {
    hide HeaderFirst, Step, Record, ValidCall;
    if calls != [] {
      StepHeaderFirst(s, calls[0]);
      ExecAgrees(s, calls[0], r);
      ExecHeaderFirst(Step(s, calls[0]), calls[1..], Record(r, calls[0]));
    }
  }

  lemma ExecAgrees(s: State, call: Call, r: Recorder)
    requires s.timescale == Scale(r) != 0 && s.header == r.header && ValidCall(r, call)
    ensures Step(s, call).timescale == Scale(Record(r, call)) != 0 && Step(s, call).header == Record(r, call).header
  {
    hide FlushFrame, ValidHeader, Frames;
    FlushItems(s);
  }

  // ---------------------------------------------------------------- reading a run back

  lemma StartState()
    ensures Inv(Init()) && Rel(Init(), NOTHING)
  {
    var none := Init().items;
    assert ClustersOf(none) == [] && AllClusters(Init()) == [];
  }

  lemma FinishShows(s: State, r: Recorder)
    requires Inv(s) && Rel(s, r)
    ensures Show(ClustersOf(Finish(s).items)) == Expect(Frames(r)) && GoodItems(Finish(s).items)
  {
    hide Show, Expect, FlushFrame, GoodCluster, ClusterBody, PrevTime, ClustersOf, TruncDiv;
    FlushInv(s);
    FlushRel(s, r);
    var f := FlushFrame(s);
    CloseKeepsClusters(f);
    CloseGood(f);
    var none: seq<Cluster> := [];
    assert ClustersOf(Finish(s).items) + none == ClustersOf(Finish(s).items);
    hide GoodItem;
  }

  // ---------------------------------------------------------------- which calls put the header first

  /** No cluster of the frames placed so far has been closed. */
  predicate NoneClosed(p: Placing) { |p.times| == if p.open.Some? then 1 else 0 }

  /** The header is written before a cluster is closed: told from the calls and the frames they record. */
  predicate HeaderInTime(r: Recorder, calls: seq<Call>)
    requires Scale(r) != 0 && ValidCalls(r, calls)
    decreases |calls|
  {
    calls != [] &&
    if calls[0].WriteHeader? then NoneClosed(PlaceAll(r.frames)) else HeaderInTime(Record(r, calls[0]), calls[1..])
  }

  predicate ClustersOnly(items: seq<Item>) { forall i | 0 <= i < |items| :: items[i].ClusterItem? }

  lemma {:induction false} ClustersOnlyAll(items: seq<Item>)
    requires ClustersOnly(items)
    ensures |ClustersOf(items)| == |items|
  {
    if items != [] { ClustersOnlyAll(items[..|items| - 1]); }
  }

  lemma NoneClosedYet(s: State, p: Placing)
    requires Placed(s, p) && ClustersOnly(s.items)
    ensures NoneClosed(p) <==> s.items == []
  {
    hide ClusterBody, ClustersOf;
    ClustersOnlyAll(s.items);
  }

  /** A cluster at the front of the file stays there. */
  lemma {:induction false} ExecClusterFirst(s: State, calls: seq<Call>, r: Recorder)
    requires s.timescale == Scale(r) != 0 && s.header == r.header && ValidCalls(r, calls)
    requires s.items != [] && s.items[0].ClusterItem?
    ensures !HeaderFirst(Exec(s, calls, r))
    decreases |calls|
  {
    hide Step, Record, ValidCall;
    if calls != [] {
      ExecAgrees(s, calls[0], r);
      StepClusterFirst(s, calls[0]);
      ExecClusterFirst(Step(s, calls[0]), calls[1..], Record(r, calls[0]));
    }
  }

  lemma StepClusterFirst(s: State, call: Call)
    requires s.timescale != 0 && s.items != [] && s.items[0].ClusterItem?
    ensures Step(s, call).items != [] && Step(s, call).items[0].ClusterItem?
  {
    hide FlushFrame;
    FlushItems(s);
    assert FlushFrame(s).items[..|s.items|][0] == s.items[0];
  }

  lemma StepNoHeader(s: State, call: Call)
    requires s.timescale != 0 && ClustersOnly(s.items) && !call.WriteHeader?
    ensures ClustersOnly(Step(s, call).items) && Step(s, call).header == s.header
  {
    hide FlushFrame;
    FlushItems(s);
    var f := FlushFrame(s).items;
    forall i | 0 <= i < |f| ensures f[i].ClusterItem? {
      if i < |s.items| { assert f[..|s.items|][i] == s.items[i]; }
    }
  }

  lemma {:induction false} ExecInTime(s: State, calls: seq<Call>, r: Recorder)
    requires Inv(s) && Rel(s, r) && ValidCalls(r, calls) && Placed(s, PlaceAll(r.frames))
    requires s.header.None? && ClustersOnly(s.items)
    ensures HeaderFirst(Exec(s, calls, r)) <==> HeaderInTime(r, calls)
    decreases |calls|
  {
    hide Inv, Show, Expect, AllClusters, Step, Record, Placed, PlaceAll, HeaderFirst, NoneClosed, ClustersOnly, ValidHeader;
    if calls == [] {
      NoHeaderFirst(s);
    } else {
      var s', r' := Step(s, calls[0]), Record(r, calls[0]);
      InvScale(s);
      StepKeeps(s, calls[0], r);
      if calls[0].WriteHeader? {
        NoneClosedYet(s, PlaceAll(r.frames));
        HeaderWritten(s, calls[0].h);
        InvScale(s');
        if s.items == [] { ExecHeaderFirst(s', calls[1..], r'); } else { ExecClusterFirst(s', calls[1..], r'); }
      } else {
        StepNoHeader(s, calls[0]);
        StepPlaced(s, calls[0], r);
        ExecInTime(s', calls[1..], r');
      }
    }
  }

  lemma InvScale(s: State)
    requires Inv(s)
    ensures s.timescale != 0
  {}

  lemma NoHeaderFirst(s: State)
    requires s.header.None?
    ensures !HeaderFirst(s)
  {}

  lemma HeaderWritten(s: State, h: Header)
    requires s.timescale != 0 && s.header.None? && ValidHeader(h) && ClustersOnly(s.items)
    ensures var t := Step(s, WriteHeader(h));
      if s.items == [] then HeaderFirst(t) else t.items != [] && t.items[0].ClusterItem?
  {
    hide ValidHeader;
  }

  /** The header leads the file exactly when it is written before a cluster is closed. */
  lemma LeadsExactly(calls: seq<Call>)
    requires ValidCalls(NOTHING, calls)
    ensures HeaderFirst(Exec(Init(), calls, NOTHING)) <==> HeaderInTime(NOTHING, calls)
  {
    hide Inv, Rel, Exec, HeaderFirst, HeaderInTime, ValidCalls, Placed, PlaceAll;
    StartState();
    StartPlaced();
    ExecInTime(Init(), calls, NOTHING);
  }

  /** Main result: a file whose header came first reads back as exactly the frames the caller wrote. */
  lemma RunReadsBack(calls: seq<Call>, bits: Octets)
    requires ValidCalls(NOTHING, calls) && |bits| == 4
    requires HeaderInTime(NOTHING, calls)
    ensures var s := Exec(Init(), calls, NOTHING);
            var cs := ClustersOf(Finish(s).items);
            && s.header.Some? && ParseFile(FileOf(s, bits)) == Some(MovieOf(s.header.value, bits, cs))
            && Show(cs) == Expect(Frames(RecordAll(NOTHING, calls)))
  {
    hide Inv, Rel, HeaderFirst, HeaderInTime, Finish, Show, Expect, Frames, ParseFile, FileOf, ClustersOf, AllAsRead, HeaderAsRead, MovieOf, ValidCalls;
    LeadsExactly(calls);
    StartState();
    ExecKeeps(Init(), calls, NOTHING);
    var s := Exec(Init(), calls, NOTHING);
    FinishShows(s, RecordAll(NOTHING, calls));
    FileReadsBack(s, bits);
  }

  lemma FileReadsBack(s: State, bits: Octets)
    requires s.timescale != 0 && HeaderFirst(s) && |bits| == 4 && GoodItems(Finish(s).items)
    ensures s.header.Some? && ParseFile(FileOf(s, bits))
         == Some(MovieOf(s.header.value, bits, ClustersOf(Finish(s).items)))
  {
    hide Finish, ParseFile, HeaderBytes, Stream, Overwrite, DurationOffset, Clusters, Flatten, ClustersOf, GoodItems, MovieOf, ValidHeader;
    FinishHeaderFirst(s);
    FinishFields(s);
    var h, items := s.header.value, Finish(s).items;
    StreamHeaderFirst(items);
    var rest := Flatten(Clusters(ClustersOf(items)));
    PatchHeader(h, bits, rest);
    ClustersValid(items);
    FileRoundTrip(h, bits, ClustersOf(items));
  }

  /** The stamps that frames were given, in order. */
  function Stamps(r: Recorder, calls: seq<Call>): seq<int>
    requires Scale(r) != 0 && ValidCalls(r, calls)
    decreases |calls|
  {
    if calls == [] then []
    else (if calls[0].SetFrameFlags? && r.current.Some? then [calls[0].timestamp] else []) + Stamps(Record(r, calls[0]), calls[1..])
  }

  /** The latest of some stamps, or the start when all are earlier. */
  predicate IsLatest(from: int, stamps: seq<int>, m: int) {
    from <= m && (forall i | 0 <= i < |stamps| :: stamps[i] <= m) && (m == from || m in stamps)
  }

  lemma {:induction false} ExecLatest(s: State, calls: seq<Call>, r: Recorder)
    requires Inv(s) && Rel(s, r) && ValidCalls(r, calls)
    ensures IsLatest(s.maxTc, Stamps(r, calls), Exec(s, calls, r).maxTc)
    decreases |calls|
  {
    hide Inv, Show, Expect, AllClusters, Step, Record, ValidCall, IsLatest;
    InvScale(s);
    if calls == [] {
      NoStamps(s.maxTc, Stamps(r, calls));
    } else {
      StepKeeps(s, calls[0], r);
      InvScale(Step(s, calls[0]));
      var t, more := Step(s, calls[0]), Stamps(Record(r, calls[0]), calls[1..]);
      StepLatest(s, calls[0]);
      ExecLatest(t, calls[1..], Record(r, calls[0]));
      LatestFirst(s.maxTc, if calls[0].SetFrameFlags? && s.inFrame then [calls[0].timestamp] else [], more, t.maxTc, Exec(s, calls, r).maxTc);
    }
  }

  lemma NoStamps(from: int, none: seq<int>)
    requires none == []
    ensures IsLatest(from, none, from)
  {}

  lemma StepLatest(s: State, call: Call)
    requires s.timescale != 0
    ensures IsLatest(s.maxTc, if call.SetFrameFlags? && s.inFrame then [call.timestamp] else [], Step(s, call).maxTc)
  {
    hide FlushFrame;
    StampsKept(s);
  }

  lemma StampsKept(s: State)
    requires s.timescale != 0
    ensures FlushFrame(s).maxTc == s.maxTc
  {
    hide ClusterBody, PendingBlock, AddBlock, Ready;
    if s.inFrame { ReadyFields(s); }
  }

  lemma LatestFirst(from: int, a: seq<int>, b: seq<int>, mid: int, m: int)
    requires IsLatest(from, a, mid) && IsLatest(mid, b, m)
    ensures IsLatest(from, a + b, m)
  {
    forall i | 0 <= i < |a + b| ensures (a + b)[i] <= m {
      if i < |a| { assert a[i] <= mid; } else { assert b[i - |a|] <= m; }
    }
    if m != from && m != mid { assert m in b; }
  }

  /** The Duration that is read is the latest stamp, from 0 on, and one frame, in units of the header's time scale. */
  lemma DurationReadsBack(calls: seq<Call>, encode: real -> Octets, m: int)
    requires ValidCalls(NOTHING, calls) && HeaderInTime(NOTHING, calls) && forall x :: |encode(x)| == 4
    requires IsLatest(0, Stamps(NOTHING, calls), m)
    ensures var s, h := Exec(Init(), calls, NOTHING), RecordAll(NOTHING, calls).header;
            var movie := ParseFile(FileOf(s, encode(DurationOf(s))));
            && movie.Some? && h.Some? && h.value.timescale != 0
            && movie.value.duration == encode((m + h.value.defaultDuration) as real / h.value.timescale as real)
  {
    hide Inv, Exec, ParseFile, FileOf, Show, Expect, AllClusters, AsFrames, HeaderInTime, ValidCalls, PlaceAll, Frames, Stamps, IsLatest, ClustersRead, FromZero;
    var s := Exec(Init(), calls, NOTHING);
    FramesReadBack(calls, encode(DurationOf(s)));
    StartState();
    ExecKeeps(Init(), calls, NOTHING);
    ExecLatest(Init(), calls, NOTHING);
    LatestUnique(0, Stamps(NOTHING, calls), m, s.maxTc);
  }

  lemma LatestUnique(from: int, stamps: seq<int>, m: int, n: int)
    requires IsLatest(from, stamps, m) && IsLatest(from, stamps, n)
    ensures m == n
  {}

  lemma FinishFields(s: State)
    requires s.timescale != 0
    ensures Finish(s).header == s.header && Finish(s).timescale == s.timescale
  {
    hide FlushFrame;
    FlushItems(s);
  }

  lemma ClustersValid(items: seq<Item>)
    requires GoodItems(items)
    ensures ValidClusters(ClustersOf(items))
  {
    hide GoodItems, ValidCluster;
    ClustersOfGood(items);
  }

  // ---------------------------------------------------------------- frames as the reader gets them

  function AsFrame(x: Shown): Frame { Frame(x.payload, x.time, x.ref.None?) }

  function AsFrames(xs: seq<Shown>): (fs: seq<Frame>)
    ensures |fs| == |xs|
  {
    seq(|xs|, i requires 0 <= i < |xs| => AsFrame(xs[i]))
  }

  lemma ExpectAsFrames(fs: seq<Frame>)
    ensures AsFrames(Expect(fs)) == fs
  {}

  predicate NoNegativeCluster(cs: seq<Cluster>) { forall i | 0 <= i < |cs| :: cs[i].time >= 0 }

  lemma {:induction false} TimesExact(cs: seq<Cluster>)
    requires forall i | 0 <= i < |cs| :: GoodCluster(cs[i])
    ensures |Show(AllAsRead(cs))| == |Show(cs)|
    ensures AsFrames(Show(AllAsRead(cs))) == AsFrames(Show(cs)) <==> NoNegativeCluster(cs)
  {
    hide ClusterBody, ValidBlock, AsUInt64;
    if cs != [] {
      var c, d, tail := cs[0], AsRead(cs[0]), cs[1..];
      TimesExact(tail);
      assert AllAsRead(cs)[0] == d && AllAsRead(cs)[1..] == AllAsRead(tail);
      var n := |c.blocks|;
      var a, b := AsFrames(ShowBlocks(d.time, d.blocks)), AsFrames(ShowBlocks(c.time, c.blocks));
      AsFramesAppend(ShowBlocks(d.time, d.blocks), Show(AllAsRead(tail)));
      AsFramesAppend(ShowBlocks(c.time, c.blocks), Show(tail));
      assert a[0].time == b[0].time <==> d.time == c.time;
      assert d.time == c.time ==> a == b;
      assert d.time == c.time <==> c.time >= 0;
      SplitEqual(a, AsFrames(Show(AllAsRead(tail))), b, AsFrames(Show(tail)));
      NonNegativeTail(cs);
      hide Show, AllAsRead, AsFrames, ShowBlocks;
    }
  }

  lemma NonNegativeTail(cs: seq<Cluster>)
    requires cs != []
    ensures NoNegativeCluster(cs) <==> cs[0].time >= 0 && NoNegativeCluster(cs[1..])
  {
    if cs[0].time >= 0 && NoNegativeCluster(cs[1..]) {
      forall i | 0 <= i < |cs| ensures cs[i].time >= 0 {
        if i > 0 { assert cs[i] == cs[1..][i - 1]; }
      }
    }
  }

  lemma AsFramesAppend(a: seq<Shown>, b: seq<Shown>)
    ensures AsFrames(a + b) == AsFrames(a) + AsFrames(b)
  {}

  lemma SplitEqual(a: seq<Frame>, b: seq<Frame>, c: seq<Frame>, d: seq<Frame>)
    requires |a| == |c|
    ensures a + b == c + d <==> a == c && b == d
  {
    if a + b == c + d {
      assert a == (a + b)[..|a|] && b == (a + b)[|a|..];
    }
  }

  /** The clusters a reader finds in the file of a run. */
  function ClustersRead(file: Octets): seq<Cluster> {
    var m := ParseFile(file);
    if m.None? then [] else m.value.clusters
  }

  /** The clusters of a run open at the times told from its frames. */
  lemma RunPlaced(calls: seq<Call>)
    requires ValidCalls(NOTHING, calls)
    ensures TimesOf(ClustersOf(Finish(Exec(Init(), calls, NOTHING)).items)) == PlaceAll(Frames(RecordAll(NOTHING, calls))).times
  {
    hide Inv, Rel, Finish, Exec, ValidCalls, Frames, PlaceAll, TimesOf, Placed, ClustersOf;
    StartState();
    StartPlaced();
    ExecKeeps(Init(), calls, NOTHING);
    ExecPlaced(Init(), calls, NOTHING);
    FinishPlaced(Exec(Init(), calls, NOTHING), RecordAll(NOTHING, calls));
  }

  lemma StartPlaced()
    ensures Placed(Init(), PlaceAll(NOTHING.frames))
  {
    var none := Init().items;
    assert ClustersOf(none) == [] && AllClusters(Init()) == [];
  }

  predicate FromZero(times: seq<int>) { forall i | 0 <= i < |times| :: times[i] >= 0 }

  lemma TimesFromZero(cs: seq<Cluster>)
    ensures NoNegativeCluster(cs) <==> FromZero(TimesOf(cs))
  {
    if FromZero(TimesOf(cs)) {
      forall i | 0 <= i < |cs| ensures cs[i].time >= 0 { assert TimesOf(cs)[i] >= 0; }
    }
  }

  /**
   * A reader gets back exactly the caller's frames if and only if no frame that opens a cluster is stamped
   * before zero; which frames those are is told from the frames alone.
   */
  lemma FramesReadBack(calls: seq<Call>, bits: Octets)
    requires ValidCalls(NOTHING, calls) && |bits| == 4
    requires HeaderInTime(NOTHING, calls)
    ensures var s, r := Exec(Init(), calls, NOTHING), RecordAll(NOTHING, calls);
            var fs, movie := Frames(r), ParseFile(FileOf(s, bits));
            && movie.Some? && r.header.Some? && movie.value.header == HeaderAsRead(r.header.value)
            && movie.value.track == Track(1, 1, 1, 0) && movie.value.muxingApp == HAALI && movie.value.duration == bits
            && (AsFrames(Show(ClustersRead(FileOf(s, bits)))) == fs <==> FromZero(PlaceAll(fs).times))
  {
    hide Inv, Rel, HeaderInTime, Finish, Show, Expect, Frames, ParseFile, FileOf, ClustersOf, AllAsRead, HeaderAsRead, ValidCalls, AsFrames, GoodItems, GoodCluster, NoNegativeCluster, FromZero, PlaceAll, TimesOf;
    var s := Exec(Init(), calls, NOTHING);
    RunReadsBack(calls, bits);
    RecordedHeader(calls);
    RunPlaced(calls);
    GoodAtEnd(calls);
    ClustersOfGood(Finish(s).items);
    TimesExact(ClustersOf(Finish(s).items));
    TimesFromZero(ClustersOf(Finish(s).items));
    ExpectAsFrames(Frames(RecordAll(NOTHING, calls)));
  }

  lemma RecordedHeader(calls: seq<Call>)
    requires ValidCalls(NOTHING, calls)
    ensures Exec(Init(), calls, NOTHING).header == RecordAll(NOTHING, calls).header
  {
    hide Inv, Exec, ValidCalls, Show, Expect, AllClusters;
    StartState();
    ExecKeeps(Init(), calls, NOTHING);
  }

  lemma GoodAtEnd(calls: seq<Call>)
    requires ValidCalls(NOTHING, calls)
    ensures GoodItems(Finish(Exec(Init(), calls, NOTHING)).items)
  {
    hide Inv, Rel, Finish, GoodItems, Exec, ValidCalls;
    StartState();
    ExecKeeps(Init(), calls, NOTHING);
    FinishShows(Exec(Init(), calls, NOTHING), RecordAll(NOTHING, calls));
  }

  /** A run that starts with the header meets the condition on it. */
  lemma HeaderLeads(h: Header, rest: seq<Call>)
    requires ValidCalls(NOTHING, [WriteHeader(h)] + rest)
    ensures HeaderInTime(NOTHING, [WriteHeader(h)] + rest) && HeaderFirst(Exec(Init(), [WriteHeader(h)] + rest, NOTHING))
  {
    hide ValidHeader, HeaderFirst, ValidCalls, Exec;
    var calls := [WriteHeader(h)] + rest;
    assert calls[1..] == rest;
    ExecUnfold(Init(), calls, NOTHING);
    HeaderStep(Init(), h);
    var s, r := Step(Init(), calls[0]), Record(NOTHING, calls[0]);
    ExecHeaderFirst(s, rest, r);
  }

  lemma HeaderStep(s: State, h: Header)
    requires s.timescale != 0 && s.header.None? && s.items == [] && ValidHeader(h)
    ensures HeaderFirst(Step(s, WriteHeader(h)))
  {
    hide ValidHeader;
  }

  lemma ExecUnfold(s: State, calls: seq<Call>, r: Recorder)
    requires s.timescale == Scale(r) != 0 && s.header == r.header && ValidCalls(r, calls) && calls != []
    ensures ValidCall(r, calls[0]) && ValidCalls(Record(r, calls[0]), calls[1..])
    ensures Step(s, calls[0]).timescale == Scale(Record(r, calls[0])) != 0
    ensures Step(s, calls[0]).header == Record(r, calls[0]).header
    ensures Exec(s, calls, r) == Exec(Step(s, calls[0]), calls[1..], Record(r, calls[0]))
  {
    hide Step, Record, ValidCall;
    ExecAgrees(s, calls[0], r);
  }

  /** A frame stamped before zero is read back 2^64 later. */
  lemma NegativeTimeExample()
    ensures AsFrames(Show(AllAsRead([Cluster(-1, [Block(0, [7], None)])])))
         == [Frame([7], 0xffff_ffff_ffff_ffff, true)]
    ensures AsFrames(Show([Cluster(-1, [Block(0, [7], None)])])) == [Frame([7], -1, true)]
  {
    var c := Cluster(-1, [Block(0, [7], None)]);
    ShowOne(c, [c]);
    ShowOne(AsRead(c), AllAsRead([c]));
  }

  /** Stamped from zero on, every frame comes back; a first frame stamped before zero does not. */
  lemma StampedFromZero(calls: seq<Call>, bits: Octets)
    requires ValidCalls(NOTHING, calls) && |bits| == 4
    requires HeaderInTime(NOTHING, calls)
    ensures var fs := Frames(RecordAll(NOTHING, calls));
            var read := AsFrames(Show(ClustersRead(FileOf(Exec(Init(), calls, NOTHING), bits))));
            && ((forall i | 0 <= i < |fs| :: fs[i].time >= 0) ==> read == fs)
            && (fs != [] && fs[0].time < 0 ==> read != fs)
  {
    hide Inv, Rel, HeaderInTime, Finish, Show, Frames, ParseFile, FileOf, ClustersOf, AllAsRead, HeaderAsRead, MovieOf, ValidCalls, AsFrames, FromZero, PlaceAll;
    FramesReadBack(calls, bits);
    PlacedFromZero(Frames(RecordAll(NOTHING, calls)));
  }

  lemma {:induction false} PlacedFromZero(fs: seq<Frame>)
    ensures (forall i | 0 <= i < |fs| :: fs[i].time >= 0) ==> FromZero(PlaceAll(fs).times)
    ensures fs != [] ==> PlaceAll(fs).times != [] && PlaceAll(fs).times[0] == fs[0].time
    ensures fs != [] && fs[0].time < 0 ==> !FromZero(PlaceAll(fs).times)
  {
    hide GroupLength, UIntLen, AsUInt64, IsInt16;
    if fs != [] {
      var front := fs[..|fs| - 1];
      PlacedFromZero(front);
      if front == [] { assert PlaceAll(front) == Placing([], None, 0); }
    }
  }

  // ---------------------------------------------------------------- files without a leading header

  /** Nothing has reached the file, or a cluster before anything else. */
  predicate ClusterFirst(items: seq<Item>) { items == [] || items[0].ClusterItem? }

  lemma {:induction false} ExecFirst(s: State, calls: seq<Call>, r: Recorder)
    requires s.timescale == Scale(r) != 0 && s.header == r.header && ValidCalls(r, calls)
    requires HeaderFirst(s) || ClusterFirst(s.items)
    ensures var t := Exec(s, calls, r); HeaderFirst(t) || ClusterFirst(t.items)
    decreases |calls|
  {
    hide HeaderFirst, Step, Record, ValidCall, ClusterFirst;
    if calls != [] {
      StepFirst(s, calls[0], r);
      ExecAgrees(s, calls[0], r);
      ExecFirst(Step(s, calls[0]), calls[1..], Record(r, calls[0]));
    }
  }

  lemma StepFirst(s: State, call: Call, r: Recorder)
    requires s.timescale != 0 && (HeaderFirst(s) || ClusterFirst(s.items)) && ValidCall(r, call)
    ensures HeaderFirst(Step(s, call)) || ClusterFirst(Step(s, call).items)
  {
    hide FlushFrame, ValidHeader;
    if HeaderFirst(s) {
      StepHeaderFirst(s, call);
    } else {
      FlushItems(s);
      if s.items != [] { assert FlushFrame(s).items[..|s.items|][0] == s.items[0]; }
    }
  }

  lemma FinishFirst(s: State)
    requires s.timescale != 0 && ClusterFirst(s.items)
    ensures ClusterFirst(Finish(s).items)
  {
    hide FlushFrame;
    FlushItems(s);
    if s.items != [] { assert FlushFrame(s).items[..|s.items|][0] == s.items[0]; }
  }

  /** A file that starts with a cluster, or with nothing, is none. */
  lemma NoHeaderNoFile(file: Octets)
    requires file == [] || file[0] == 0 || (|file| >= 4 && file[..4] == EncId(ID_CLUSTER))
    ensures ParseFile(file) == None
  {
    hide ParseElems, ParseSegment, Find, ParseSize, EncId, Unsigned;
    if |file| >= 4 && file[..4] == EncId(ID_CLUSTER) {
      assert file == EncId(ID_CLUSTER) + file[4..];
      IdRoundTrip(ID_CLUSTER, file[4..]);
      hide ParseId;
    }
  }

  lemma ClusterStarts(c: Cluster)
    ensures |ItemBytes(ClusterItem(c))| >= 4 && ItemBytes(ClusterItem(c))[..4] == EncId(ID_CLUSTER)
  {
    hide ClusterBody, EncSize;
    assert |EncId(ID_CLUSTER)| == 4;
    hide EncId;
  }

  lemma {:induction false} StreamStarts(items: seq<Item>)
    requires items != [] && items[0].ClusterItem?
    ensures |Stream(items)| >= 4 && Stream(items)[..4] == EncId(ID_CLUSTER)
  {
    hide ItemBytes, EncId;
    var front := items[..|items| - 1];
    if front == [] {
      StreamNone(front);
      ClusterStarts(items[0].c);
      assert Stream(items) == ItemBytes(items[0]);
    } else {
      StreamStarts(front);
    }
  }

  lemma OverwriteKeeps(file: Octets, off: nat, bits: Octets)
    requires off >= 4
    ensures file == [] ==> Overwrite(file, off, bits) != [] && Overwrite(file, off, bits)[0] == 0
    ensures |file| >= 4 ==> |Overwrite(file, off, bits)| >= 4 && Overwrite(file, off, bits)[..4] == file[..4]
  {}

  /** For every run, the file is a movie exactly when the header was written before a cluster was closed. */
  lemma ParsesExactly(calls: seq<Call>, bits: Octets)
    requires ValidCalls(NOTHING, calls) && |bits| == 4
    ensures ParseFile(FileOf(Exec(Init(), calls, NOTHING), bits)).Some? <==> HeaderInTime(NOTHING, calls)
  {
    hide Finish, ParseFile, Stream, DurationOffset, ValidCalls, Exec, HeaderFirst, HeaderInTime, EncId, ClusterFirst, ClustersOf, Show, Expect, Frames, HeaderAsRead, AllAsRead, Overwrite, PlaceAll, AsFrames;
    var s := Exec(Init(), calls, NOTHING);
    InitFirst();
    ExecFirst(Init(), calls, NOTHING);
    LeadsExactly(calls);
    if HeaderFirst(s) {
      RunReadsBack(calls, bits);
    } else {
      FinishFirst(s);
      FileStarts(Finish(s).items, s, bits);
      NoHeaderNoFile(FileOf(s, bits));
    }
  }

  lemma InitFirst()
    ensures ClusterFirst(Init().items)
  {}

  lemma FileStarts(items: seq<Item>, s: State, bits: Octets)
    requires s.timescale != 0 && items == Finish(s).items && ClusterFirst(items)
    ensures var f := FileOf(s, bits); f == [] || f[0] == 0 || (|f| >= 4 && f[..4] == EncId(ID_CLUSTER))
  {
    hide Finish, Stream, DurationOffset, EncId, Overwrite, HeaderBytes;
    if items == [] { StreamNone(items); } else { StreamStarts(items); }
    if s.header.Some? {
      HeaderBytesLength(s.header.value);
      OverwriteKeeps(Stream(items), DurationOffset(s.header.value), bits);
    }
  }

  // ---------------------------------------------------------------- a header that came late

  lemma HeaderBytesLength(h: Header)
    ensures |HeaderBytes(h, ZERO_DURATION)| >= DurationOffset(h) + 4
    ensures HeaderBytes(h, ZERO_DURATION)[DurationOffset(h)..DurationOffset(h) + 4] == ZERO_DURATION
    ensures DurationOffset(h) >= 4
  {
    hide InfoElem, TracksElem, Element, Opening;
    InfoSplit(h, ZERO_DURATION);
    OpeningLength();
    var o, i, t := Opening(), Element(InfoElem(h, ZERO_DURATION)), Element(TracksElem(h));
    assert HeaderBytes(h, ZERO_DURATION)[|o| + |i| - 4..|o| + |i|] == i[|i| - 4..];
  }

  lemma OpeningLength()
    ensures |Opening()| >= 4
  {
    SegmentIdLen();
    hide Element, EncId, EbmlElems, Flatten;
  }

  lemma ItemLength(i: Item)
    requires GoodItem(i)
    ensures |ItemBytes(i)| >= 4
  {
    hide HeaderBytes, ClusterBody, ValidHeader, GoodCluster, Opening, Element;
    match i
    case HeaderItem(h, d) => OpeningPrefix(h, d);
    case ClusterItem(c) => ClusterIdLen(ClusterElem(c));
  }

  lemma OpeningPrefix(h: Header, d: Octets)
    ensures |HeaderBytes(h, d)| >= 4
  {
    OpeningLength();
    hide Opening, Element, InfoElem, TracksElem;
  }

  lemma ClusterIdLen(e: Elem)
    requires e.id == ID_CLUSTER
    ensures |Element(e)| >= 4
  {
    assert |EncId(ID_CLUSTER)| == 4;
    hide EncId, EncSize;
  }

  lemma {:induction false} StreamSplit(items: seq<Item>, k: nat)
    requires k < |items|
    ensures var b := Stream(items[..k]);
            |b| + |ItemBytes(items[k])| <= |Stream(items)|
            && Stream(items)[|b|..|b| + |ItemBytes(items[k])|] == ItemBytes(items[k])
    decreases |items|
  {
    hide ItemBytes;
    var front := items[..|items| - 1];
    if k < |items| - 1 {
      StreamSplit(front, k);
      assert front[..k] == items[..k];
    }
  }

  lemma StreamNonEmpty(items: seq<Item>)
    requires items != [] && GoodItems(items)
    ensures |Stream(items)| >= 4
  {
    ItemLength(items[|items| - 1]);
    hide ItemBytes, GoodItem;
  }

  /**
   * Where the patch lands in general: the Duration payload gets the value exactly when the header
   * was written to an empty file; written later, the header keeps its zero Duration.
   */
  lemma DurationPatched(s: State, k: nat, bits: Octets)
    requires s.timescale != 0 && s.header.Some? && GoodItems(Finish(s).items) && |bits| == 4
    requires k < |Finish(s).items| && Finish(s).items[k] == HeaderItem(s.header.value, ZERO_DURATION)
    ensures var at := |Stream(Finish(s).items[..k])| + DurationOffset(s.header.value);
            && at + 4 <= |FileOf(s, bits)| == |Stream(Finish(s).items)|
            && FileOf(s, bits)[at..at + 4] == (if k == 0 then bits else ZERO_DURATION)
  {
    hide Finish, Stream, DurationOffset, HeaderBytes, GoodItem, Overwrite;
    var items, h := Finish(s).items, s.header.value;
    var file, before, off := Stream(items), |Stream(items[..k])|, DurationOffset(h);
    StreamSplit(items, k);
    HeaderBytesLength(h);
    PayloadIn(file, before, HeaderBytes(h, ZERO_DURATION), off);
    if k == 0 { StreamNone(items[..k]); } else { StreamNonEmpty(items[..k]); }
    OverwriteAt(file, off, bits, before + off);
  }

  lemma StreamNone(items: seq<Item>)
    requires items == []
    ensures Stream(items) == []
  {}

  lemma PayloadIn(file: Octets, before: nat, header: Octets, off: nat)
    requires before + |header| <= |file| && file[before..before + |header|] == header && off + 4 <= |header|
    ensures file[before + off..before + off + 4] == header[off..off + 4]
  {
    var x, y := file[before + off..before + off + 4], header[off..off + 4];
    forall i | 0 <= i < 4 ensures x[i] == y[i] {
      assert y[i] == header[off + i] == file[before + (off + i)];
    }
  }

  lemma OverwriteAt(file: Octets, off: nat, bits: Octets, at: nat)
    requires |bits| == 4 && off + 4 <= |file| && at + 4 <= |file| && (at == off || at >= off + 4)
    ensures |Overwrite(file, off, bits)| == |file|
    ensures Overwrite(file, off, bits)[at..at + 4] == if at == off then bits else file[at..at + 4]
  {}
}
