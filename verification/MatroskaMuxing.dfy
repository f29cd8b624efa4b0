/**
 * What the writer's public calls mean, on structured data: frames go into blocks, blocks into
 * clusters, clusters and the header into the file. The class in MatroskaWriter refines this
 * machine; here it is shown that every run keeps the caller's frames.
 */
module MatroskaMuxing {
  import opened Bytes
  import opened Ebml
  import opened MatroskaFormat

  const CLSIZE := 1048576
  const MAX_FRAME := 0x7fe0_0000
  const TIME_LIMIT := 0x4000_0000_0000_0000

  /** What C asks of a quotient: the remainder is smaller than the divisor and has the sign of the dividend, or is 0. */
  predicate IsQuotient(a: int, b: int, q: int) {
    var r := a - q * b;
    (if b > 0 then -b < r < b else b < r < -b) && (a >= 0 ==> r >= 0) && (a <= 0 ==> r <= 0)
  }

  /** There is only one such quotient. */
  lemma QuotientUnique(a: int, b: int, p: int, q: int)
    requires b != 0 && IsQuotient(a, b, p) && IsQuotient(a, b, q)
    ensures p == q
  {
    var d := p - q;
    assert d * b == (a - q * b) - (a - p * b);
    if b > 0 { Between(d, b); } else { Between(d, -b); }
  }

  lemma Between(d: int, b: int)
    requires b > 0 && (-b < d * b < b || -b < d * -b < b)
    ensures d == 0
  {
    assert d * -b == -(d * b);
    assert (d >= 1 ==> d * b >= b) && (d <= -1 ==> d * b <= -b);
  }

  /** C division: the quotient is truncated toward zero. */
  function TruncDiv(a: int, b: int): (q: int)
    requires b != 0
    ensures IsQuotient(a, b, q)
  {
    QuotientIs(a, b);
    if a >= 0 then (if b > 0 then a / b else -(a / -b))
    else if b > 0 then -(-a / b) else -a / -b
  }

  lemma DivLaw(a: nat, b: nat)
    requires b > 0
    ensures 0 <= a - a / b * b < b
  {}

  lemma QuotientIs(a: int, b: int)
    requires b != 0
    ensures IsQuotient(a, b, if a >= 0 then (if b > 0 then a / b else -(a / -b)) else if b > 0 then -(-a / b) else -a / -b)
  {
    var m, n := if a >= 0 then a else -a, if b > 0 then b else -b;
    var q := m / n;
    DivLaw(m, n);
    assert -q * b == -(q * b) && q * -b == -(q * b) && -q * -b == q * b;
    SignedQuotient(a, b, m, n, q);
  }

  lemma SignedQuotient(a: int, b: int, m: nat, n: nat, q: int)
    requires b != 0 && m == (if a >= 0 then a else -a) && n == (if b > 0 then b else -b) && 0 <= m - q * n < n
    ensures IsQuotient(a, b, if (a >= 0) == (b > 0) then q else -q)
  {
    assert -q * b == -(q * b) && q * -b == -(q * b);
  }

  lemma DivBound(a: nat, b: nat)
    requires b != 0
    ensures 0 <= a / b <= a
  {
    MulMonotone(1, b, a / b);
  }

  lemma TruncDivBound(a: int, b: int, m: int)
    requires b != 0 && -m < a < m
    ensures -m < TruncDiv(a, b) < m
  {
    DivBound(if a < 0 then -a else a, if b < 0 then -b else b);
  }

  datatype Item = HeaderItem(h: Header, duration: Octets) | ClusterItem(c: Cluster)

  datatype State = State(
    items: seq<Item>,        // written to the file, in order
    open: Option<Cluster>,   // the cluster being filled
    header: Option<Header>, timescale: int,
    inFrame: bool, payload: Octets, key: bool, tc: int, prev: int, maxTc: int)

  const ZERO_DURATION: Octets := [0, 0, 0, 0]

  function Init(): State { State([], None, None, 1000000, false, [], false, 0, 0, 0) }

  function CloseCluster(s: State): State {
    if s.open.None? then s else s.(items := s.items + [ClusterItem(s.open.value)], open := None)
  }

  function Time(s: State): int
    requires s.timescale != 0
  {
    TruncDiv(s.tc, s.timescale)
  }

  /** The cluster the pending frame goes into: the open one unless the 16-bit distance is exceeded. */
  function Ready(s: State): (r: State)
    requires s.timescale != 0
    ensures r.open.Some?
  {
    var s1 := if s.open.Some? && !IsInt16(Time(s) - s.open.value.time) then CloseCluster(s) else s;
    if s1.open.None? then s1.(open := Some(Cluster(Time(s), []))) else s1
  }

  function PendingBlock(s: State): Block
    requires s.timescale != 0 && s.open.Some?
  {
    Block(Time(s) - s.open.value.time, s.payload, if s.key then None else Some(s.prev - Time(s)))
  }

  function AddBlock(c: Cluster, b: Block): Cluster { c.(blocks := c.blocks + [b]) }

  function FlushFrame(s: State): State
    requires s.timescale != 0
  {
    if !s.inFrame then s else
    var r := Ready(s);
    var c := AddBlock(r.open.value, PendingBlock(r));
    var done := r.(open := Some(c), inFrame := false, payload := [], prev := Time(s));
    if |ClusterBody(c)| > CLSIZE then CloseCluster(done) else done
  }

  datatype Call =
    | WriteHeader(h: Header)
    | StartFrame
    | SetFrameFlags(timestamp: int, keyframe: bool)
    | AddFrameData(data: Octets)

  function Step(s: State, call: Call): State
    requires s.timescale != 0
  {
    match call
    case WriteHeader(h) =>
      if s.header.Some? then s
      else s.(items := s.items + [HeaderItem(h, ZERO_DURATION)], header := Some(h), timescale := h.timescale)
    case StartFrame => FlushFrame(s).(inFrame := true, key := false)
    case SetFrameFlags(ts, k) =>
      if !s.inFrame then s else s.(tc := ts, key := k, maxTc := if s.maxTc < ts then ts else s.maxTc)
    case AddFrameData(d) =>
      if !s.inFrame then s else s.(payload := s.payload + d)
  }

  function Finish(s: State): State
    requires s.timescale != 0
  {
    CloseCluster(FlushFrame(s))
  }

  function ItemBytes(i: Item): Octets {
    match i
    case HeaderItem(h, d) => HeaderBytes(h, d)
    case ClusterItem(c) => Element(ClusterElem(c))
  }

  function Stream(items: seq<Item>): Octets {
    if items == [] then [] else Stream(items[..|items| - 1]) + ItemBytes(items[|items| - 1])
  }

  // ---------------------------------------------------------------- what the caller wrote

  datatype Frame = Frame(payload: Octets, time: int, key: bool)

  /** A plain recording of the calls: no clusters, no sizes, no bytes. */
  datatype Recorder = Recorder(frames: seq<Frame>, current: Option<Octets>, tc: int, key: bool, header: Option<Header>)

  const NOTHING := Recorder([], None, 0, false, None)

  function Scale(r: Recorder): int { if r.header.Some? then r.header.value.timescale else 1000000 }

  function Frames(r: Recorder): seq<Frame>
    requires Scale(r) != 0
  {
    if r.current.None? then r.frames
    else r.frames + [Frame(r.current.value, TruncDiv(r.tc, Scale(r)), r.key)]
  }

  function Record(r: Recorder, call: Call): Recorder
    requires Scale(r) != 0
  {
    match call
    case WriteHeader(h) => if r.header.Some? then r else r.(header := Some(h))
    case StartFrame => Recorder(Frames(r), Some([]), r.tc, false, r.header)
    case SetFrameFlags(ts, k) => if r.current.None? then r else r.(tc := ts, key := k)
    case AddFrameData(d) => if r.current.None? then r else r.(current := Some(r.current.value + d))
  }

  /** What the caller must respect: 62-bit timestamps, a non-zero scale, bounded frames. */
  predicate ValidCall(r: Recorder, call: Call) {
    match call
    case WriteHeader(h) => ValidHeader(h) && h.timescale != 0
    case StartFrame => true
    case SetFrameFlags(ts, _) => -TIME_LIMIT < ts < TIME_LIMIT
    case AddFrameData(d) => r.current.Some? ==> |r.current.value| + |d| <= MAX_FRAME
  }

  predicate ValidCalls(r: Recorder, calls: seq<Call>)
    requires Scale(r) != 0
    decreases |calls|
  {
    calls == [] || (ValidCall(r, calls[0]) && ValidCalls(Record(r, calls[0]), calls[1..]))
  }

  function RecordAll(r: Recorder, calls: seq<Call>): (r': Recorder)
    requires Scale(r) != 0 && ValidCalls(r, calls)
    ensures Scale(r') != 0
    decreases |calls|
  {
    if calls == [] then r else RecordAll(Record(r, calls[0]), calls[1..])
  }

  function Exec(s: State, calls: seq<Call>, r: Recorder): (s': State)
    requires s.timescale == Scale(r) != 0 && s.header == r.header && ValidCalls(r, calls)
    ensures s'.timescale != 0
    decreases |calls|
  {
    if calls == [] then s else Exec(Step(s, calls[0]), calls[1..], Record(r, calls[0]))
  }

  /** The blocks a reader must find: a non-key frame points back at the frame before it. */
  function PrevTime(fs: seq<Frame>, i: nat): int
    requires i <= |fs|
  {
    if i == 0 then 0 else fs[i - 1].time
  }

  function Expect(fs: seq<Frame>): (r: seq<Shown>)
    ensures |r| == |fs|
  {
    seq(|fs|, i requires 0 <= i < |fs| =>
      Shown(fs[i].payload, fs[i].time, if fs[i].key then None else Some(PrevTime(fs, i) - fs[i].time)))
  }

  // ---------------------------------------------------------------- invariant

  predicate GoodCluster(c: Cluster) {
    ValidCluster(c) && c.blocks != [] && c.blocks[0].delta == 0 && -TIME_LIMIT < c.time < TIME_LIMIT
  }

  predicate GoodItem(i: Item) {
    match i
    case HeaderItem(h, d) => ValidHeader(h) && |d| == 4
    case ClusterItem(c) => GoodCluster(c)
  }

  predicate Inv(s: State) {
    && s.timescale != 0
    && -TIME_LIMIT < s.tc < TIME_LIMIT && -TIME_LIMIT < s.prev < TIME_LIMIT
    && |s.payload| <= MAX_FRAME && (!s.inFrame ==> s.payload == [])
    && GoodItems(s.items)
    && (s.open.Some? ==> GoodCluster(s.open.value) && |ClusterBody(s.open.value)| <= CLSIZE)
  }

  lemma AddBlockBody(c: Cluster, b: Block)
    ensures ClusterBody(AddBlock(c, b)) == ClusterBody(c) + Element(GroupElem(b))
  {
    hide UInt, GroupElem, Element, Flatten;
    assert ClusterElems(AddBlock(c, b)) == ClusterElems(c) + [GroupElem(b)];
    FlattenAppend(ClusterElems(c), [GroupElem(b)]);
    FlattenOne(GroupElem(b), [GroupElem(b)]);
  }

  lemma FlattenOne(e: Elem, es: seq<Elem>)
    requires es == [e]
    ensures Flatten(es) == Element(e)
  {
    hide Element;
    var none := es[1..];
    assert Flatten(none) == [];
  }

  lemma EmptyClusterBody(t: int)
    ensures ClusterBody(Cluster(t, [])) == Element(UInt(ID_TIMECODE, t))
    ensures |ClusterBody(Cluster(t, []))| <= 17
  {
    hide UInt, Element, Flatten;
    FlattenOne(UInt(ID_TIMECODE, t), ClusterElems(Cluster(t, [])));
    ElementSize(UInt(ID_TIMECODE, t));
  }

  /** The size a block group announces before its parts are written is the size of its parts. */
  lemma GroupSize(b: Block)
    requires ValidBlock(b)
    ensures |GroupElem(b).body| == |b.payload| + 4 + EbmlSizeSize(|b.payload| + 4) + 1
                                 + (if b.ref.Some? then 2 + SIntLen(b.ref.value) else 0)
  {
    hide BlockBody, SIntBody;
    GroupParts(b);
    var e := Elem(ID_BLOCK, BlockBody(b));
    BlockElement(b, e);
    if b.ref.None? {
      FlattenOne(e, GroupElems(b));
    } else {
      var f := Elem(ID_REFERENCE, SIntBody(b.ref.value));
      FlattenAppend([e], [f]);
      assert GroupElems(b) == [e] + [f];
      FlattenOne(e, [e]);
      FlattenOne(f, [f]);
      ReferenceElement(b.ref.value, f);
    }
  }

  lemma BlockElement(b: Block, e: Elem)
    requires e == Elem(ID_BLOCK, BlockBody(b)) && ValidBlock(b)
    ensures |Element(e)| == 1 + EbmlSizeSize(|b.payload| + 4) + |b.payload| + 4
  {
    GroupParts(b);
    hide BlockBody;
    assert |EncId(ID_BLOCK)| == 1;
    assert |e.body| % SIZE_LIMIT == |e.body|;
  }

  lemma ReferenceElement(ref: int, f: Elem)
    requires f == Elem(ID_REFERENCE, SIntBody(ref)) && IsInt64(ref)
    ensures |Element(f)| == 2 + SIntLen(ref)
  {
    SIntLenInt64(ref);
    assert |EncId(ID_REFERENCE)| == 1;
    assert |f.body| % SIZE_LIMIT == |f.body|;
    assert |EncSize(|f.body|)| == 1;
  }

  lemma GroupElementSize(b: Block)
    requires ValidBlock(b) && |b.payload| <= MAX_FRAME
    ensures |b.payload| < |GroupElem(b).body| && |Element(GroupElem(b))| <= |b.payload| + 40
  {
    GroupSize(b);
    if b.ref.Some? { SIntLenInt64(b.ref.value); }
    ElementSize(GroupElem(b));
    hide GroupElem, Element;
  }

  // ---------------------------------------------------------------- one flush

  function ClustersOf(items: seq<Item>): seq<Cluster> {
    if items == [] then [] else
    var last := items[|items| - 1];
    ClustersOf(items[..|items| - 1]) + (if last.ClusterItem? then [last.c] else [])
  }

  function AllClusters(s: State): seq<Cluster> {
    ClustersOf(s.items) + (if s.open.Some? then [s.open.value] else [])
  }

  lemma {:induction false} ShowAppend(a: seq<Cluster>, b: seq<Cluster>)
    ensures Show(a + b) == Show(a) + Show(b)
  {
    hide ShowBlocks, Show;
    ShowFirst(a);
    if a == [] {
      assert a + b == b;
    } else {
      ShowAppend(a[1..], b);
      assert (a + b)[0] == a[0] && (a + b)[1..] == a[1..] + b;
      ShowFirst(a + b);
      ShownJoined(ShowBlocks(a[0].time, a[0].blocks), Show(a[1..]), Show(b));
    }
  }

  lemma ShowFirst(cs: seq<Cluster>)
    ensures Show(cs) == if cs == [] then [] else ShowBlocks(cs[0].time, cs[0].blocks) + Show(cs[1..])
  {}

  lemma ShownJoined(a: seq<Shown>, b: seq<Shown>, c: seq<Shown>)
    ensures a + b + c == a + (b + c)
  {}

  lemma ShowOne(c: Cluster, cs: seq<Cluster>)
    requires cs == [c]
    ensures Show(cs) == ShowBlocks(c.time, c.blocks)
  {
    hide ShowBlocks;
    assert Show(cs[1..]) == [];
  }

  lemma CloseKeepsClusters(s: State)
    ensures AllClusters(CloseCluster(s)) == AllClusters(s)
  {
    if s.open.Some? {
      var items := CloseCluster(s).items;
      assert items[..|items| - 1] == s.items;
    }
  }

  /** Opening a cluster shows nothing new, and the pending frame is within 16 bits of it. */
  lemma ReadyShows(s: State)
    requires Inv(s)
    ensures Show(AllClusters(Ready(s))) == Show(AllClusters(s))
    ensures IsInt16(Time(s) - Ready(s).open.value.time)
    ensures Ready(s) == s.(items := Ready(s).items, open := Ready(s).open)
  {
    hide Show, ShowBlocks, GoodItem, GoodCluster, ClusterBody, ClustersOf;
    CloseKeepsClusters(s);
    var s1 := if s.open.Some? && !IsInt16(Time(s) - s.open.value.time) then CloseCluster(s) else s;
    var c := Cluster(Time(s), []);
    if s1.open.None? {
      assert AllClusters(s1) == ClustersOf(s1.items);
      ShowAppend(ClustersOf(s1.items), [c]);
      ShowEmpty(c, [c]);
    }
  }

  lemma ShowEmpty(c: Cluster, cs: seq<Cluster>)
    requires c.blocks == [] && cs == [c]
    ensures Show(cs) == []
  {
    ShowOne(c, cs);
  }

  lemma AddBlockShows(s: State, b: Block)
    requires s.open.Some?
    ensures Show(AllClusters(s.(open := Some(AddBlock(s.open.value, b)))))
         == Show(AllClusters(s)) + [Shown(b.payload, s.open.value.time + b.delta, b.ref)]
  {
    hide Show, ClustersOf;
    var c := s.open.value;
    var d := AddBlock(c, b);
    ShowAppend(ClustersOf(s.items), [c]);
    ShowAppend(ClustersOf(s.items), [d]);
    ShowOne(c, [c]);
    ShowOne(d, [d]);
    assert ShowBlocks(d.time, d.blocks) == ShowBlocks(c.time, c.blocks) + [Shown(b.payload, c.time + b.delta, b.ref)];
  }

  /** Flushing shows exactly the pending frame after everything already shown. */
  lemma FlushShows(s: State)
    requires Inv(s) && s.inFrame
    ensures Show(AllClusters(FlushFrame(s)))
         == Show(AllClusters(s)) + [Shown(s.payload, Time(s), if s.key then None else Some(s.prev - Time(s)))]
    ensures IsQuotient(s.tc, s.timescale, Time(s))
  {
    hide Show, AllClusters, ClusterBody, Ready, GoodItem, GoodCluster, TruncDiv;
    ReadyShows(s);
    var r := Ready(s);
    AddBlockShows(r, PendingBlock(r));
    var done := r.(open := Some(AddBlock(r.open.value, PendingBlock(r))));
    SameClusters(done, FlushFrame(s));
  }

  lemma SameClusters(a: State, b: State)
    requires (b.items == a.items && b.open == a.open) || (a.open.Some? && b.items == CloseCluster(a).items && b.open.None?)
    ensures AllClusters(a) == AllClusters(b)
  {
    CloseKeepsClusters(a);
  }

  lemma AddGood(c: Cluster, b: Block)
    requires GoodCluster(c) || (c.blocks == [] && b.delta == 0 && -TIME_LIMIT < c.time < TIME_LIMIT)
    requires |ClusterBody(c)| <= CLSIZE && ValidBlock(b) && |b.payload| <= MAX_FRAME
    ensures GoodCluster(AddBlock(c, b)) && |ClusterBody(AddBlock(c, b))| <= CLSIZE + MAX_FRAME + 40
  {
    hide ClusterBody, GroupElem, Element, ValidBlock;
    AddBlockBody(c, b);
    GroupElementSize(b);
  }

  predicate GoodItems(items: seq<Item>) { forall i | 0 <= i < |items| :: GoodItem(items[i]) }

  lemma CloseGood(s: State)
    requires GoodItems(s.items) && (s.open.Some? ==> GoodCluster(s.open.value))
    ensures GoodItems(CloseCluster(s).items)
  {
    hide GoodCluster;
  }

  lemma PendingValid(s: State)
    requires Inv(s)
    ensures ValidBlock(PendingBlock(Ready(s))) && PendingBlock(Ready(s)).payload == s.payload
    ensures -TIME_LIMIT < Time(s) < TIME_LIMIT
  {
    hide ClusterBody, GoodItem, GoodCluster, Show, AllClusters;
    ReadyShows(s);
    TruncDivBound(s.tc, s.timescale, TIME_LIMIT);
    hide TruncDiv;
  }

  lemma ReadyGood(s: State)
    requires Inv(s)
    ensures var c, b := Ready(s).open.value, PendingBlock(Ready(s));
            GoodCluster(c) || (c.blocks == [] && b.delta == 0 && -TIME_LIMIT < c.time < TIME_LIMIT)
    ensures |ClusterBody(Ready(s).open.value)| <= CLSIZE
    ensures GoodItems(Ready(s).items)
  {
    hide ClusterBody, GoodCluster, TruncDiv;
    TruncDivBound(s.tc, s.timescale, TIME_LIMIT);
    EmptyClusterBody(Time(s));
    CloseGood(s);
    hide GoodItem;
  }

  lemma FlushInv(s: State)
    requires Inv(s)
    ensures Inv(FlushFrame(s))
  {
    hide ClusterBody, GoodCluster, Ready, GoodItem, TruncDiv, ValidBlock, AddBlock;
    if s.inFrame {
      ReadyShowsFields(s);
      var r := Ready(s);
      var b := PendingBlock(r);
      ReadyGood(s);
      PendingValid(s);
      hide PendingBlock;
      AddGood(r.open.value, b);
      var c := AddBlock(r.open.value, b);
      CloseGood(r.(open := Some(c)));
    }
  }

  lemma ReadyShowsFields(s: State)
    requires Inv(s)
    ensures Ready(s) == s.(items := Ready(s).items, open := Ready(s).open)
  {
    ReadyShows(s);
  }

  // ---------------------------------------------------------------- runs

  /** The writer's state and the recording of the same calls agree. */
  predicate Rel(s: State, r: Recorder) {
    && s.header == r.header && s.timescale == Scale(r) && s.tc == r.tc
    && s.inFrame == r.current.Some? && (s.inFrame ==> s.payload == r.current.value && s.key == r.key)
    && s.prev == PrevTime(r.frames, |r.frames|)
    && Show(AllClusters(s)) == Expect(r.frames)
  }

  lemma ExpectAppend(fs: seq<Frame>, f: Frame)
    ensures Expect(fs + [f])
         == Expect(fs) + [Shown(f.payload, f.time, if f.key then None else Some(PrevTime(fs, |fs|) - f.time))]
    ensures PrevTime(fs + [f], |fs| + 1) == f.time
  {}

  lemma FlushRel(s: State, r: Recorder)
    requires Inv(s) && Rel(s, r)
    ensures Rel(FlushFrame(s), Recorder(Frames(r), None, r.tc, r.key, r.header))
  {
    hide Show, AllClusters, Expect, GoodItems, GoodCluster, ClusterBody, FlushFrame, PrevTime, TruncDiv;
    FlushFields(s);
    if s.inFrame {
      FlushShows(s);
      ExpectAppend(r.frames, Frame(s.payload, Time(s), s.key));
    } else {
      FlushIdle(s);
    }
  }

  lemma FlushIdle(s: State)
    requires s.timescale != 0 && !s.inFrame
    ensures FlushFrame(s) == s
  {}

  lemma FlushFields(s: State)
    requires Inv(s)
    ensures var f := FlushFrame(s);
      f.header == s.header && f.timescale == s.timescale && f.tc == s.tc && f.maxTc == s.maxTc && !f.inFrame
      && f.payload == [] && (s.inFrame ==> f.prev == Time(s)) && f.items[..|s.items|] == s.items
      && |s.items| <= |f.items|
  {
    hide ClusterBody, PendingBlock, GoodItems, GoodCluster, Ready;
    if s.inFrame { ReadyFields(s); }
  }

  lemma ReadyFields(s: State)
    requires s.timescale != 0
    ensures Ready(s) == s.(items := Ready(s).items, open := Ready(s).open)
    ensures |s.items| <= |Ready(s).items| && Ready(s).items[..|s.items|] == s.items
  {
    hide TruncDiv;
  }

  lemma HeaderShows(s: State, s': State, h: Header)
    requires s'.items == s.items + [HeaderItem(h, ZERO_DURATION)] && s'.open == s.open
    ensures AllClusters(s') == AllClusters(s)
  {
    assert s'.items[..|s'.items| - 1] == s.items;
  }

  lemma StartKeeps(s: State, r: Recorder)
    requires Inv(s) && Rel(s, r)
    ensures Inv(Step(s, StartFrame)) && Rel(Step(s, StartFrame), Record(r, StartFrame))
  {
    hide Show, Expect, FlushFrame, GoodCluster, ClusterBody, PrevTime, ClustersOf, GoodItem, TruncDiv;
    FlushInv(s);
    FlushFields(s);
    FlushRel(s, r);
  }

  lemma HeaderKeeps(s: State, h: Header, r: Recorder)
    requires Inv(s) && Rel(s, r) && ValidCall(r, WriteHeader(h))
    ensures Inv(Step(s, WriteHeader(h))) && Rel(Step(s, WriteHeader(h)), Record(r, WriteHeader(h)))
  {
    hide Show, Expect, GoodCluster, ClusterBody, PrevTime, ClustersOf, AllClusters, ValidHeader;
    if s.header.None? { HeaderShows(s, Step(s, WriteHeader(h)), h); }
  }

  lemma StepKeeps(s: State, call: Call, r: Recorder)
    requires Inv(s) && Rel(s, r) && ValidCall(r, call)
    ensures Inv(Step(s, call)) && Rel(Step(s, call), Record(r, call))
  {
    hide Show, Expect, FlushFrame, GoodCluster, ClusterBody, PrevTime, ClustersOf, GoodItem, ValidHeader, Frames;
    match call
    case StartFrame => StartKeeps(s, r);
    case WriteHeader(h) => HeaderKeeps(s, h, r);
    case SetFrameFlags(_, _) =>
    case AddFrameData(_) =>
  }

  lemma {:induction false} ExecKeeps(s: State, calls: seq<Call>, r: Recorder)
    requires Inv(s) && Rel(s, r) && ValidCalls(r, calls)
    ensures Inv(Exec(s, calls, r)) && Rel(Exec(s, calls, r), RecordAll(r, calls))
    decreases |calls|
  {
    hide Show, Expect, AllClusters, GoodItems, GoodCluster, ClusterBody, PrevTime, Step, Record, ValidCall;
    if calls != [] {
      StepKeeps(s, calls[0], r);
      ExecKeeps(Step(s, calls[0]), calls[1..], Record(r, calls[0]));
    }
  }
}
