/**
 * Which frames open clusters, told from the frames alone: their times, sizes and key flags. The writer's
 * clusters are the ones placed this way.
 */
module MatroskaPlacing {
  import opened Bytes
  import opened Ebml
  import opened MatroskaFormat
  import opened MatroskaMuxing

  /** Times at which clusters were opened, time and size of the open one, and the time of the frame before. */
  datatype Placing = Placing(times: seq<int>, open: Option<(int, nat)>, prev: int)

  /** Octets that a frame of n octets takes in its cluster. */
  function GroupLength(n: nat, ref: Option<int>): nat {
    var body := n + 4 + EbmlSizeSize((n + 4) % SIZE_LIMIT) + 1 + (if ref.None? then 0 else 2 + SIntLen(ref.value));
    1 + EbmlSizeSize(body % SIZE_LIMIT) + body
  }

  /** A frame opens a cluster when none is open or the open one is more than 16 bits away; one of over a mebibyte is closed. */
  function Place(p: Placing, f: Frame): Placing {
    var opens := p.open.None? || f.time - p.open.value.0 > 32767 || f.time - p.open.value.0 < -32768;
    var (time, size) := if opens then (f.time, 2 + UIntLen(AsUInt64(f.time))) else p.open.value;
    var grown := size + GroupLength(|f.payload|, if f.key then None else Some(p.prev - f.time));
    Placing(p.times + (if opens then [f.time] else []), if grown > 1048576 then None else Some((time, grown)), f.time)
  }

  function PlaceAll(fs: seq<Frame>): Placing {
    if fs == [] then Placing([], None, 0) else Place(PlaceAll(fs[..|fs| - 1]), fs[|fs| - 1])
  }

  function TimesOf(cs: seq<Cluster>): (ts: seq<int>)
    ensures |ts| == |cs| && forall i | 0 <= i < |cs| :: ts[i] == cs[i].time
  {
    seq(|cs|, i requires 0 <= i < |cs| => cs[i].time)
  }

  /** The writer's clusters and the placing agree. */
  predicate Placed(s: State, p: Placing) {
    && TimesOf(AllClusters(s)) == p.times && s.prev == p.prev && s.open.Some? == p.open.Some?
    && (s.open.Some? ==> p.open.value == (s.open.value.time, |ClusterBody(s.open.value)|))
  }

  lemma BlockFits(b: Block)
    requires ValidBlock(b)
    ensures (|b.payload| + 4) % SIZE_LIMIT == |b.payload| + 4
  {}

  lemma GroupLengthIs(b: Block)
    requires ValidBlock(b)
    ensures |Element(GroupElem(b))| == GroupLength(|b.payload|, b.ref)
  {
    hide ValidBlock, EbmlSizeSize, SIntLen, Element, GroupElem;
    BlockFits(b);
    GroupSize(b);
    GroupId(b);
    ElementLength(GroupElem(b));
  }

  lemma GroupId(b: Block)
    ensures GroupElem(b).id == ID_BLOCKGROUP
  {
    hide GroupElems, Flatten;
  }

  lemma ShortId(id: nat)
    requires id == ID_BLOCKGROUP || id == ID_TIMECODE
    ensures |EncId(id)| == 1
  {}

  lemma ElementLength(e: Elem)
    requires e.id == ID_BLOCKGROUP || e.id == ID_TIMECODE
    ensures |Element(e)| == 1 + EbmlSizeSize(|e.body| % SIZE_LIMIT) + |e.body|
  {
    hide EncId, EbmlSizeSize, BE;
    ShortId(e.id);
  }

  lemma SmallSize(n: nat)
    requires n <= 8
    ensures EbmlSizeSize(n % SIZE_LIMIT) == 1
  {
    hide Pow;
  }

  lemma StampLength(t: int)
    ensures UInt(ID_TIMECODE, t).id == ID_TIMECODE && |UInt(ID_TIMECODE, t).body| == UIntLen(AsUInt64(t)) <= 8
  {
    hide BE, AsUInt64, UIntLen;
    UIntRoundTrip(t);
  }

  lemma EmptyLength(t: int)
    ensures |ClusterBody(Cluster(t, []))| == 2 + UIntLen(AsUInt64(t))
  {
    hide Element, ClusterBody, UInt, UIntLen, AsUInt64, EbmlSizeSize;
    EmptyClusterBody(t);
    StampLength(t);
    SmallSize(|UInt(ID_TIMECODE, t).body|);
    ElementLength(UInt(ID_TIMECODE, t));
  }

  lemma TimesAppend(cs: seq<Cluster>, c: Cluster)
    ensures TimesOf(cs + [c]) == TimesOf(cs) + [c.time]
  {}

  /** The cluster of the pending frame: opened at its time exactly when the placing opens one. */
  lemma ReadyPlaced(s: State, p: Placing)
    requires Inv(s) && Placed(s, p)
    ensures var opens := p.open.None? || !IsInt16(Time(s) - p.open.value.0);
      var c := Ready(s).open.value;
      && TimesOf(AllClusters(Ready(s))) == p.times + (if opens then [Time(s)] else [])
      && (c.time, |ClusterBody(c)|) == if opens then (Time(s), 2 + UIntLen(AsUInt64(Time(s)))) else p.open.value
  {
    hide ClusterBody, GoodItems, GoodCluster, ClustersOf, TimesOf, UIntLen, AsUInt64, IsInt16, TruncDiv;
    CloseKeepsClusters(s);
    var t := Time(s);
    EmptyLength(t);
    var s1 := if s.open.Some? && !IsInt16(t - s.open.value.time) then CloseCluster(s) else s;
    if s1.open.None? {
      assert AllClusters(s1) == ClustersOf(s1.items);
      TimesAppend(ClustersOf(s1.items), Cluster(t, []));
    }
  }

  lemma AddedTimes(s: State, c: Cluster, d: Cluster)
    requires s.open == Some(c) && d.time == c.time
    ensures TimesOf(AllClusters(s.(open := Some(d)))) == TimesOf(AllClusters(s))
  {
    hide TimesOf, ClustersOf;
    TimesAppend(ClustersOf(s.items), c);
    TimesAppend(ClustersOf(s.items), d);
  }

  /** One flush places the pending frame. */
  lemma FlushPlaced(s: State, p: Placing)
    requires Inv(s) && s.inFrame && Placed(s, p)
    ensures Placed(FlushFrame(s), Place(p, Frame(s.payload, Time(s), s.key)))
  {
    hide ClusterBody, GoodItems, GoodCluster, AllClusters, TimesOf, UIntLen, AsUInt64, TruncDiv, Ready, GroupLength, GroupElem, Element, ValidBlock, AddBlock, CloseCluster;
    var r := Ready(s);
    ReadyPlaced(s, p);
    ReadyShowsFields(s);
    PendingValid(s);
    var c, b := r.open.value, PendingBlock(r);
    GroupLengthIs(b);
    AddBlockBody(c, b);
    var d := AddBlock(c, b);
    AddKeepsTime(c, b);
    AddedTimes(r, c, d);
    CloseKeeps(s, r, d);
  }

  lemma AddKeepsTime(c: Cluster, b: Block)
    ensures AddBlock(c, b).time == c.time
  {}

  /** Closing a full cluster, or not, changes no times. */
  lemma CloseKeeps(s: State, r: State, d: Cluster)
    requires s.timescale != 0 && s.inFrame && r == Ready(s) && d == AddBlock(r.open.value, PendingBlock(r))
    ensures var f := FlushFrame(s);
      && AllClusters(f) == AllClusters(r.(open := Some(d))) && f.prev == Time(s)
      && f.open == if |ClusterBody(d)| > CLSIZE then None else Some(d)
  {
    hide ClusterBody, AllClusters, TruncDiv, Ready, AddBlock, PendingBlock;
    var done := r.(open := Some(d), inFrame := false, payload := [], prev := Time(s));
    CloseKeepsClusters(done);
    SameClusters(r.(open := Some(d)), done);
  }

  /** What the placing says of the frames recorded holds of the writer after every call. */
  lemma StepPlaced(s: State, call: Call, r: Recorder)
    requires Inv(s) && Rel(s, r) && ValidCall(r, call) && Placed(s, PlaceAll(r.frames))
    ensures Placed(Step(s, call), PlaceAll(Record(r, call).frames))
  {
    hide Show, Expect, FlushFrame, GoodCluster, ClusterBody, PrevTime, ClustersOf, GoodItem, ValidHeader, TimesOf, Place, PlaceAll, TruncDiv, Placed;
    match call
    case StartFrame =>
      FlushedPlaced(s, r);
      PlacedSame(FlushFrame(s), FlushFrame(s).(inFrame := true, key := false), PlaceAll(Frames(r)));
    case WriteHeader(h) =>
      if s.header.None? {
        HeaderShows(s, Step(s, call), h);
        PlacedSame(s, Step(s, call), PlaceAll(r.frames));
      }
    case SetFrameFlags(_, _) => PlacedSame(s, Step(s, call), PlaceAll(r.frames));
    case AddFrameData(_) => PlacedSame(s, Step(s, call), PlaceAll(r.frames));
  }

  lemma PlacedSame(s: State, t: State, p: Placing)
    requires Placed(s, p) && AllClusters(t) == AllClusters(s) && t.open == s.open && t.prev == s.prev
    ensures Placed(t, p)
  {
    hide ClusterBody, AllClusters, TimesOf;
  }

  lemma FlushedPlaced(s: State, r: Recorder)
    requires Inv(s) && Rel(s, r) && Placed(s, PlaceAll(r.frames))
    ensures Placed(FlushFrame(s), PlaceAll(Frames(r)))
  {
    hide Show, Expect, FlushFrame, GoodCluster, ClusterBody, PrevTime, ClustersOf, GoodItem, TimesOf, Place, TruncDiv, Placed;
    if s.inFrame {
      FlushPlaced(s, PlaceAll(r.frames));
      PlaceSnoc(r.frames, Frame(s.payload, Time(s), s.key));
    } else {
      FlushIdle(s);
    }
  }

  lemma PlaceSnoc(fs: seq<Frame>, f: Frame)
    ensures PlaceAll(fs + [f]) == Place(PlaceAll(fs), f)
  {
    hide Place;
    assert (fs + [f])[..|fs|] == fs;
  }

  lemma {:induction false} ExecPlaced(s: State, calls: seq<Call>, r: Recorder)
    requires Inv(s) && Rel(s, r) && ValidCalls(r, calls) && Placed(s, PlaceAll(r.frames))
    ensures Placed(Exec(s, calls, r), PlaceAll(RecordAll(r, calls).frames))
    decreases |calls|
  {
    hide Show, Expect, AllClusters, GoodItems, GoodCluster, ClusterBody, PrevTime, Step, Record, ValidCall, Placed, PlaceAll;
    if calls != [] {
      StepKeeps(s, calls[0], r);
      StepPlaced(s, calls[0], r);
      ExecPlaced(Step(s, calls[0]), calls[1..], Record(r, calls[0]));
    }
  }

  /** The clusters of a finished run open at the times told from its frames. */
  lemma FinishPlaced(s: State, r: Recorder)
    requires Inv(s) && Rel(s, r) && Placed(s, PlaceAll(r.frames))
    ensures TimesOf(ClustersOf(Finish(s).items)) == PlaceAll(Frames(r)).times
  {
    hide Show, Expect, FlushFrame, GoodCluster, ClusterBody, PrevTime, ClustersOf, GoodItem, TimesOf, PlaceAll, TruncDiv;
    FlushedPlaced(s, r);
    CloseKeepsClusters(FlushFrame(s));
    assert ClustersOf(Finish(s).items) + [] == ClustersOf(Finish(s).items);
  }
}
