/**
 * The Matroska layout the writer produces, as structured data with its octet rendering, and a
 * reader for that layout built on the EBML parser only.
 */
module MatroskaFormat {
  import opened Bytes
  import opened Ebml

  const ID_EBML := 0x1a45dfa3
  const ID_SEGMENT := 0x18538067
  const ID_INFO := 0x1549a966
  const ID_TRACKS := 0x1654ae6b
  const ID_CLUSTER := 0x1f43b675
  const ID_TIMECODE := 0xe7
  const ID_BLOCKGROUP := 0xa0
  const ID_BLOCK := 0xa1
  const ID_REFERENCE := 0xfb
  const ID_DURATION := 0x4489
  const ID_TIMESCALE := 0x2ad7b1
  const ID_WRITINGAPP := 0x5741
  const ID_TRACKENTRY := 0xae
  const ID_CODECID := 0x86
  const ID_CODECPRIVATE := 0x63a2
  const ID_DEFAULTDURATION := 0x23e383
  const ID_VIDEO := 0xe0
  const ID_WIDTH := 0xb0
  const ID_HEIGHT := 0xba
  const ID_DISPLAYWIDTH := 0x54b0
  const ID_DISPLAYHEIGHT := 0x54ba

  /** A block: time relative to its cluster, payload, and the ReferenceBlock of a non-key frame. */
  datatype Block = Block(delta: int, payload: Octets, ref: Option<int>)

  datatype Cluster = Cluster(time: int, blocks: seq<Block>)

  datatype Header = Header(
    writingApp: Octets, codecId: Octets, codecPrivate: Octets, defaultDuration: int, timescale: int,
    width: nat, height: nat, dWidth: nat, dHeight: nat)

  /** One written frame as a reader sees it. */
  datatype Shown = Shown(payload: Octets, time: int, ref: Option<int>)

  function Ascii(s: string): (r: Octets)
    requires forall i | 0 <= i < |s| :: s[i] < 128 as char
    ensures |r| == |s| && forall i | 0 <= i < |s| :: r[i] == s[i] as int
  {
    seq(|s|, i requires 0 <= i < |s| => s[i] as int)
  }

  predicate IsUInt32(v: int) { 0 <= v < SIZE_LIMIT }

  predicate ValidHeader(h: Header) {
    && |h.writingApp| + |h.codecId| + |h.codecPrivate| < 0x1000_0000
    && IsInt64(h.defaultDuration) && IsInt64(h.timescale)
    && IsUInt32(h.width) && IsUInt32(h.height) && IsUInt32(h.dWidth) && IsUInt32(h.dHeight)
  }

  // ---------------------------------------------------------------- rendering

  /** An unsigned integer element. */
  function UInt(id: nat, v: int): (e: Elem)
    ensures e.id == id && 1 <= |e.body| <= 8
  {
    UIntRoundTrip(v);
    Elem(id, UIntBody(v))
  }

  function DocType(): (r: Octets)
    ensures |r| == 8
  {
    Ascii("matroska")
  }

  function MuxingApp(): (r: Octets)
    ensures |r| == 24
  {
    Ascii("Haali Matroska Writer b0")
  }

  function EbmlElems(): seq<Elem> {
    [UInt(0x4286, 1), UInt(0x42f7, 1), UInt(0x42f2, 4), UInt(0x42f3, 8)]
    + [Elem(0x4282, DocType()), UInt(0x4287, 1), UInt(0x4285, 1)]
  }

  function InfoElems(h: Header, duration: Octets): seq<Elem> {
    [Elem(0x4d80, MuxingApp()), Elem(ID_WRITINGAPP, h.writingApp),
     UInt(ID_TIMESCALE, h.timescale), Elem(ID_DURATION, duration)]
  }

  function VideoElems(h: Header): seq<Elem> {
    [UInt(ID_WIDTH, h.width), UInt(ID_HEIGHT, h.height),
     UInt(ID_DISPLAYWIDTH, h.dWidth), UInt(ID_DISPLAYHEIGHT, h.dHeight)]
  }

  function TrackBase(h: Header): seq<Elem> {
    [UInt(0xd7, 1), UInt(0x73c5, 1), UInt(0x83, 1), UInt(0x9c, 0), Elem(ID_CODECID, h.codecId)]
  }

  function TrackOptions(h: Header): seq<Elem> {
    (if h.codecPrivate == [] then [] else [Elem(ID_CODECPRIVATE, h.codecPrivate)])
    + (if h.defaultDuration == 0 then [] else [UInt(ID_DEFAULTDURATION, h.defaultDuration)])
  }

  function VideoElem(h: Header): Elem { Elem(ID_VIDEO, Flatten(VideoElems(h))) }

  function TrackElems(h: Header): seq<Elem> { TrackBase(h) + (TrackOptions(h) + [VideoElem(h)]) }

  function InfoElem(h: Header, duration: Octets): Elem {
    Elem(ID_INFO, Flatten(InfoElems(h, duration)))
  }

  function TracksElem(h: Header): Elem {
    Elem(ID_TRACKS, Element(Elem(ID_TRACKENTRY, Flatten(TrackElems(h)))))
  }

  /** EBML header and the opening of a Segment of unknown size. */
  function Opening(): Octets { Element(Elem(ID_EBML, Flatten(EbmlElems()))) + EncId(ID_SEGMENT) + [0xff] }

  function HeaderBytes(h: Header, duration: Octets): Octets {
    Opening() + Element(InfoElem(h, duration)) + Element(TracksElem(h))
  }

  /** Track number 1, signed 16-bit relative time, flags 0, payload (section 10.1 of RFC 9559). */
  function BlockBody(b: Block): Octets { EncSize(1) + BE(b.delta, 2) + [0] + b.payload }

  function GroupElems(b: Block): seq<Elem> {
    [Elem(ID_BLOCK, BlockBody(b))]
    + (if b.ref.None? then [] else [Elem(ID_REFERENCE, SIntBody(b.ref.value))])
  }

  function GroupElem(b: Block): Elem { Elem(ID_BLOCKGROUP, Flatten(GroupElems(b))) }

  function Groups(bs: seq<Block>): (es: seq<Elem>)
    ensures |es| == |bs| && forall i | 0 <= i < |bs| :: es[i] == GroupElem(bs[i])
  {
    seq(|bs|, i requires 0 <= i < |bs| => GroupElem(bs[i]))
  }

  function ClusterElems(c: Cluster): seq<Elem> {
    [UInt(ID_TIMECODE, c.time)] + Groups(c.blocks)
  }

  function ClusterBody(c: Cluster): Octets {
    Flatten(ClusterElems(c))
  }

  function ClusterElem(c: Cluster): Elem {
    Elem(ID_CLUSTER, ClusterBody(c))
  }

  // ---------------------------------------------------------------- reading back

  // The reader knows elements by the IDs that RFC 9559 gives them, and not by the writer's names.

  /** A visible block of the track, without lacing: its relative time and payload (section 10.1 of RFC 9559). */
  function ParseBlock(body: Octets, track: nat): Option<(int, Octets)> {
    var number := ParseSize(body);
    if number.None? || number.value.value != Known(track) || |body| < number.value.len + 3 then None else
    var k := number.value.len;
    if body[k + 2] != 0 then None else Some((Signed(body[k..k + 2]), body[k + 3..]))
  }

  /** A BlockGroup: its Block, and the ReferenceBlock of a frame that needs another. */
  function ParseGroup(body: Octets, track: nat): Option<Block> {
    var es := ParseElems(body);
    if es.None? || !(1 <= |es.value| <= 2) || es.value[0].id != 0xa1 then None else
    var b := ParseBlock(es.value[0].body, track);
    if b.None? then None
    else if |es.value| == 1 then Some(Block(b.value.0, b.value.1, None))
    else if es.value[1].id != 0xfb then None
    else Some(Block(b.value.0, b.value.1, Some(Signed(es.value[1].body))))
  }

  function ParseGroups(es: seq<Elem>, track: nat): Option<seq<Block>> {
    if es == [] then Some([]) else
    if es[0].id != 0xa0 then None else
    var b := ParseGroup(es[0].body, track);
    var rest := ParseGroups(es[1..], track);
    if b.None? || rest.None? then None else Some([b.value] + rest.value)
  }

  /** A Cluster: its Timestamp, then its groups. */
  function ParseCluster(body: Octets, track: nat): Option<Cluster> {
    var es := ParseElems(body);
    if es.None? || es.value == [] || es.value[0].id != 0xe7 then None else
    var bs := ParseGroups(es.value[1..], track);
    if bs.None? then None else Some(Cluster(Unsigned(es.value[0].body), bs.value))
  }

  function ParseClusters(es: seq<Elem>, track: nat): Option<seq<Cluster>> {
    if es == [] then Some([]) else
    if es[0].id != 0x1f43b675 then None else
    var c := ParseCluster(es[0].body, track);
    var rest := ParseClusters(es[1..], track);
    if c.None? || rest.None? then None else Some([c.value] + rest.value)
  }

  /** Body of the first element with the given ID. */
  function Find(es: seq<Elem>, id: nat): Option<Octets> {
    if es == [] then None else if es[0].id == id then Some(es[0].body) else Find(es[1..], id)
  }

  function FindUInt(es: seq<Elem>, id: nat): nat {
    if Find(es, id).None? then 0 else Unsigned(Find(es, id).value)
  }

  function FindBytes(es: seq<Elem>, id: nat): Octets {
    if Find(es, id).None? then [] else Find(es, id).value
  }

  /** WritingApp, CodecID, CodecPrivate, DefaultDuration, TimestampScale, PixelWidth, PixelHeight, DisplayWidth, DisplayHeight. */
  function ReadHeader(info: seq<Elem>, track: seq<Elem>, video: seq<Elem>): Header {
    Header(FindBytes(info, 0x5741), FindBytes(track, 0x86), FindBytes(track, 0x63a2),
           FindUInt(track, 0x23e383), FindUInt(info, 0x2ad7b1),
           FindUInt(video, 0xb0), FindUInt(video, 0xba), FindUInt(video, 0x54b0), FindUInt(video, 0x54ba))
  }

  /** TrackNumber, TrackUID, TrackType (1 is video) and FlagLacing. */
  datatype Track = Track(number: nat, uid: nat, kind: nat, lacing: nat)

  function ReadTrack(track: seq<Elem>): Track {
    Track(FindUInt(track, 0xd7), FindUInt(track, 0x73c5), FindUInt(track, 0x83), FindUInt(track, 0x9c))
  }

  datatype Movie = Movie(track: Track, muxingApp: Octets, header: Header, duration: Octets, clusters: seq<Cluster>)

  /** "Haali Matroska Writer b0" */
  const HAALI: Octets := [
    0x48, 0x61, 0x61, 0x6c, 0x69, 0x20, 0x4d, 0x61, 0x74, 0x72, 0x6f, 0x73,
    0x6b, 0x61, 0x20, 0x57, 0x72, 0x69, 0x74, 0x65, 0x72, 0x20, 0x62, 0x30]

  /** Segment children: Info, Tracks with one entry and its Video settings, then Clusters with blocks of that track. */
  function ParseSegment(es: seq<Elem>): Option<Movie> {
    if |es| < 2 || es[0].id != 0x1549a966 || es[1].id != 0x1654ae6b then None else
    var info := ParseElems(es[0].body);
    var tracks := ParseElems(es[1].body);
    if info.None? || tracks.None? || |tracks.value| != 1 || tracks.value[0].id != 0xae then None else
    var track := ParseElems(tracks.value[0].body);
    if track.None? || Find(track.value, 0xe0).None? then None else
    var video := ParseElems(Find(track.value, 0xe0).value);
    var clusters := ParseClusters(es[2..], ReadTrack(track.value).number);
    if video.None? || clusters.None? then None else
    Some(Movie(ReadTrack(track.value), FindBytes(info.value, 0x4d80),
               ReadHeader(info.value, track.value, video.value), FindBytes(info.value, 0x4489), clusters.value))
  }

  /**
   * What a reader asks of the EBML header: EBMLVersion and EBMLReadVersion 1, IDs of at most four octets and
   * sizes of at most eight, DocType "matroska", DocTypeVersion and DocTypeReadVersion 1.
   */
  predicate Readable(es: seq<Elem>) {
    && FindUInt(es, 0x4286) == 1 && FindUInt(es, 0x42f7) == 1 && FindUInt(es, 0x42f2) == 4 && FindUInt(es, 0x42f3) == 8
    && FindBytes(es, 0x4282) == [0x6d, 0x61, 0x74, 0x72, 0x6f, 0x73, 0x6b, 0x61]
    && FindUInt(es, 0x4287) == 1 && FindUInt(es, 0x4285) == 1
  }

  /** EBML header, then a Segment of unknown size up to the end of the file. */
  function ParseFile(s: Octets): Option<Movie> {
    var h := ParseElemHead(s);
    if h.None? || h.value.id != 0x1a45dfa3 || h.value.size.Unknown? || h.value.len + h.value.size.n > |s| then None else
    var k := h.value.len + h.value.size.n;
    var es := ParseElems(s[h.value.len..k]);
    if es.None? || !Readable(es.value) then None else
    var seg := ParseElemHead(s[k..]);
    if seg.None? || seg.value.id != 0x18538067 || seg.value.size.Known? then None else
    var children := ParseElems(s[k + seg.value.len..]);
    if children.None? then None else ParseSegment(children.value)
  }

  /** The frames a reader gets from a cluster list. */
  function ShowBlocks(time: int, bs: seq<Block>): (r: seq<Shown>)
    ensures |r| == |bs|
  {
    seq(|bs|, i requires 0 <= i < |bs| => Shown(bs[i].payload, time + bs[i].delta, bs[i].ref))
  }

  function Show(cs: seq<Cluster>): seq<Shown> {
    if cs == [] then [] else ShowBlocks(cs[0].time, cs[0].blocks) + Show(cs[1..])
  }

  // ---------------------------------------------------------------- round trips

  predicate IsInt16(v: int) { -32768 <= v <= 32767 }

  predicate ValidBlock(b: Block) {
    IsInt16(b.delta) && |b.payload| < 0x8000_0000 && (b.ref.Some? ==> IsInt64(b.ref.value))
  }

  predicate ValidCluster(c: Cluster) {
    && IsInt64(c.time) && |ClusterBody(c)| < SIZE_LIMIT
    && forall i | 0 <= i < |c.blocks| :: ValidBlock(c.blocks[i])
  }

  lemma BlockRoundTrip(b: Block)
    requires IsInt16(b.delta)
    ensures ParseBlock(BlockBody(b), 1) == Some((b.delta, b.payload))
  {
    SizeRoundTrip(1, BE(b.delta, 2) + [0] + b.payload);
    var s := BlockBody(b);
    assert s == EncSize(1) + (BE(b.delta, 2) + [0] + b.payload);
    assert s[1..3] == BE(b.delta, 2);
    assert s[4..] == b.payload;
    assert Pow(256, 1) == 256;
    SignedBE(b.delta, 2);
  }

  /** Size of a block body and of a reference body, as the writer predicts them. */
  lemma GroupParts(b: Block)
    requires ValidBlock(b)
    ensures |BlockBody(b)| == |b.payload| + 4
    ensures Fits(GroupElems(b)) && ValidIds(GroupElems(b))
  {
    if b.ref.Some? { SIntLenInt64(b.ref.value); }
  }

  lemma GroupRoundTrip(b: Block)
    requires ValidBlock(b)
    ensures GroupElem(b).id == 0xa0 && ParseGroup(GroupElem(b).body, 1) == Some(b)
  {
    hide BlockBody, ParseElems, ParseBlock, Flatten, SIntBody;
    GroupParts(b);
    ParseFlatten(GroupElems(b));
    BlockRoundTrip(b);
    if b.ref.Some? { SIntRoundTrip(b.ref.value); }
  }

  lemma {:induction false} GroupsRoundTrip(bs: seq<Block>)
    requires forall i | 0 <= i < |bs| :: ValidBlock(bs[i])
    ensures ParseGroups(Groups(bs), 1) == Some(bs)
  {
    hide Groups, GroupElem, ParseGroup, ValidBlock;
    if bs != [] {
      var tail := bs[1..];
      assert Groups(bs)[1..] == Groups(tail);
      assert bs == [bs[0]] + tail;
      GroupRoundTrip(bs[0]);
      GroupsRoundTrip(tail);
    }
  }

  lemma {:induction false} FlattenPart(es: seq<Elem>, i: nat)
    requires i < |es|
    ensures |es[i].body| <= |Flatten(es)|
  {
    hide EncId, EncSize;
    if i > 0 { FlattenPart(es[1..], i - 1); }
  }

  /** A cluster as read: the timestamp is an unsigned integer. */
  function AsRead(c: Cluster): Cluster { c.(time := AsUInt64(c.time)) }

  lemma ClusterRoundTrip(c: Cluster)
    requires ValidCluster(c)
    ensures ParseCluster(ClusterBody(c), 1) == Some(AsRead(c))
  {
    hide ParseElems, ParseGroups, Flatten, ClusterElems, ValidBlock, Sound, UInt;
    var es := ClusterElems(c);
    ClusterParts(c);
    ClusterSound(c);
    ParseSound(es);
    UIntValue(ID_TIMECODE, c.time);
    GroupsRoundTrip(c.blocks);
  }

  lemma ClusterParts(c: Cluster)
    ensures |ClusterElems(c)| == |c.blocks| + 1
    ensures ClusterElems(c)[0] == UInt(ID_TIMECODE, c.time) && ClusterElems(c)[1..] == Groups(c.blocks)
  {
    hide UInt, GroupElem;
  }

  predicate Sound(es: seq<Elem>) { Fits(es) && ValidIds(es) }

  lemma ParseSound(es: seq<Elem>)
    requires Sound(es)
    ensures ParseElems(Flatten(es)) == Some(es)
  {
    ParseFlatten(es);
  }

  lemma ClusterSound(c: Cluster)
    requires |ClusterBody(c)| < SIZE_LIMIT
    ensures Sound(ClusterElems(c))
  {
    hide Flatten, ClusterElems;
    var es := ClusterElems(c);
    forall i | 0 <= i < |es| ensures |es[i].body| < SIZE_LIMIT { FlattenPart(es, i); }
    ClusterIds(c);
  }

  lemma ClusterIds(c: Cluster)
    ensures ValidIds(ClusterElems(c))
  {
    hide Flatten, GroupElems, UInt;
  }

  predicate ValidClusters(cs: seq<Cluster>) { forall i | 0 <= i < |cs| :: ValidCluster(cs[i]) }

  function Clusters(cs: seq<Cluster>): (es: seq<Elem>)
    ensures |es| == |cs| && forall i | 0 <= i < |cs| :: es[i] == ClusterElem(cs[i])
  {
    seq(|cs|, i requires 0 <= i < |cs| => ClusterElem(cs[i]))
  }

  function AllAsRead(cs: seq<Cluster>): (r: seq<Cluster>)
    ensures |r| == |cs| && forall i | 0 <= i < |cs| :: r[i] == AsRead(cs[i])
  {
    seq(|cs|, i requires 0 <= i < |cs| => AsRead(cs[i]))
  }

  lemma {:induction false} ClustersRoundTrip(cs: seq<Cluster>)
    requires ValidClusters(cs)
    ensures ParseClusters(Clusters(cs), 1) == Some(AllAsRead(cs))
  {
    hide ClusterBody, ParseCluster, ValidCluster, AsRead, Clusters, AllAsRead;
    if cs != [] {
      var tail := cs[1..];
      assert Clusters(cs)[1..] == Clusters(tail);
      assert AllAsRead(cs) == [AsRead(cs[0])] + AllAsRead(tail);
      ClusterRoundTrip(cs[0]);
      ClustersRoundTrip(tail);
    }
  }

  /** Looking an ID up finds the first element that carries it. */
  lemma {:induction false} FindAt(es: seq<Elem>, i: nat)
    requires i < |es| && forall j | 0 <= j < i :: es[j].id != es[i].id
    ensures Find(es, es[i].id) == Some(es[i].body)
  {
    if i > 0 { FindAt(es[1..], i - 1); }
  }

  lemma {:induction false} FindNone(es: seq<Elem>, id: nat)
    requires forall j | 0 <= j < |es| :: es[j].id != id
    ensures Find(es, id) == None
  {
    if es != [] { FindNone(es[1..], id); }
  }

  /** The body of an unsigned integer element decodes to the value as 64 unsigned bits. */
  lemma UIntValue(id: nat, v: int)
    ensures Unsigned(UInt(id, v).body) == AsUInt64(v)
  {
    UIntRoundTrip(v);
  }

  lemma ParseEbmlElems(es: seq<Elem>)
    requires es == EbmlElems()
    ensures ParseElems(Flatten(es)) == Some(es) && Readable(es)
  {
    hide UInt, DocType, Find, ParseElems, Flatten, ValidId, EbmlElems, AsUInt64;
    EbmlIds(es);
    ParseFlatten(es);
    FindAt(es, 0); FindAt(es, 1); FindAt(es, 2); FindAt(es, 3); FindAt(es, 4); FindAt(es, 5); FindAt(es, 6);
    UIntSmall(0x4286, 1);
    UIntSmall(0x42f7, 1);
    UIntSmall(0x42f2, 4);
    UIntSmall(0x42f3, 8);
    UIntSmall(0x4287, 1);
    UIntSmall(0x4285, 1);
    DocTypeIs();
  }

  lemma UIntSmall(id: nat, v: nat)
    requires v < 256
    ensures Unsigned(UInt(id, v).body) == v
  {
    hide UInt;
    UIntValue(id, v);
  }

  lemma DocTypeIs()
    ensures DocType() == [0x6d, 0x61, 0x74, 0x72, 0x6f, 0x73, 0x6b, 0x61]
  {}

  lemma EbmlIds(es: seq<Elem>)
    requires es == EbmlElems()
    ensures Fits(es) && ValidIds(es) && |es| == 7 && es[4] == Elem(0x4282, DocType())
    ensures es[0] == UInt(0x4286, 1) && es[1] == UInt(0x42f7, 1) && es[2] == UInt(0x42f2, 4) && es[3] == UInt(0x42f3, 8)
    ensures es[5] == UInt(0x4287, 1) && es[6] == UInt(0x4285, 1)
  {
    hide UInt, DocType;
  }

  lemma ParseInfo(h: Header, duration: Octets)
    requires ValidHeader(h) && |duration| == 4
    ensures ParseElems(Flatten(InfoElems(h, duration))) == Some(InfoElems(h, duration))
    ensures FindBytes(InfoElems(h, duration), 0x4d80) == HAALI
    ensures FindBytes(InfoElems(h, duration), 0x5741) == h.writingApp
    ensures FindUInt(InfoElems(h, duration), 0x2ad7b1) == AsUInt64(h.timescale)
    ensures FindBytes(InfoElems(h, duration), 0x4489) == duration
  {
    hide UInt, MuxingApp, Find, AsUInt64, Flatten, ParseElems;
    UIntValue(0x2ad7b1, h.timescale);
    MuxingAppIs();
    var es := InfoElems(h, duration);
    InfoSound(h, duration);
    FindAt(es, 0); FindAt(es, 1); FindAt(es, 2); FindAt(es, 3);
  }

  lemma InfoSound(h: Header, duration: Octets)
    requires ValidHeader(h) && |duration| == 4
    ensures ParseElems(Flatten(InfoElems(h, duration))) == Some(InfoElems(h, duration))
  {
    hide UInt, MuxingApp, Flatten, ParseElems;
    ParseFlatten(InfoElems(h, duration));
  }

  lemma MuxingAppIs()
    ensures MuxingApp() == HAALI
  {}

  lemma ParseVideo(h: Header)
    requires ValidHeader(h)
    ensures ParseElems(Flatten(VideoElems(h))) == Some(VideoElems(h))
    ensures FindUInt(VideoElems(h), 0xb0) == h.width && FindUInt(VideoElems(h), 0xba) == h.height
    ensures FindUInt(VideoElems(h), 0x54b0) == h.dWidth && FindUInt(VideoElems(h), 0x54ba) == h.dHeight
  {
    hide UInt, Find, AsUInt64, Flatten, ParseElems;
    UIntValue(0xb0, h.width);
    UIntValue(0xba, h.height);
    UIntValue(0x54b0, h.dWidth);
    UIntValue(0x54ba, h.dHeight);
    var es := VideoElems(h);
    ParseFlatten(es);
    FindAt(es, 0); FindAt(es, 1); FindAt(es, 2); FindAt(es, 3);
  }

  /** A track header as read: nanosecond fields are unsigned integers. */
  function HeaderAsRead(h: Header): Header {
    h.(timescale := AsUInt64(h.timescale), defaultDuration := AsUInt64(h.defaultDuration))
  }

  /** What a reader finds: video track 1 without lacing, and all that the caller gave. */
  function MovieOf(h: Header, duration: Octets, cs: seq<Cluster>): Movie {
    Movie(Track(1, 1, 1, 0), HAALI, HeaderAsRead(h), duration, AllAsRead(cs))
  }

  lemma {:induction false} FindConcat(a: seq<Elem>, b: seq<Elem>, id: nat)
    ensures Find(a + b, id) == if Find(a, id).Some? then Find(a, id) else Find(b, id)
  {
    if a == [] {
      assert a + b == b;
    } else {
      FindConcat(a[1..], b, id);
      assert (a + b)[1..] == a[1..] + b;
    }
  }

  lemma FindInTrack(h: Header, id: nat)
    ensures Find(TrackElems(h), id) ==
      if Find(TrackBase(h), id).Some? then Find(TrackBase(h), id)
      else if Find(TrackOptions(h), id).Some? then Find(TrackOptions(h), id)
      else if id == ID_VIDEO then Some(VideoElem(h).body) else None
  {
    FindConcat(TrackBase(h), TrackOptions(h) + [VideoElem(h)], id);
    FindConcat(TrackOptions(h), [VideoElem(h)], id);
    hide TrackBase, TrackOptions, VideoElems, Flatten;
  }

  lemma FindInBase(h: Header)
    ensures Find(TrackBase(h), 0x86) == Some(h.codecId) && ReadTrack(TrackBase(h)) == Track(1, 1, 1, 0)
    ensures forall id :: id in {0xd7, 0x73c5, 0x83, 0x9c} ==> Find(TrackBase(h), id).Some?
    ensures forall id :: id in {0xe0, 0x63a2, 0x23e383} ==> Find(TrackBase(h), id) == None
  {
    hide UInt, Find;
    var es := TrackBase(h);
    FindAt(es, 0); FindAt(es, 1); FindAt(es, 2); FindAt(es, 3); FindAt(es, 4);
    UIntSmall(0xd7, 1);
    UIntSmall(0x73c5, 1);
    UIntSmall(0x83, 1);
    UIntSmall(0x9c, 0);
    FindNone(es, 0xe0);
    FindNone(es, 0x63a2);
    FindNone(es, 0x23e383);
  }

  lemma FindInOptions(h: Header)
    ensures Find(TrackOptions(h), ID_VIDEO) == None
    ensures Find(TrackOptions(h), ID_CODECPRIVATE) == if h.codecPrivate == [] then None else Some(h.codecPrivate)
    ensures Find(TrackOptions(h), ID_DEFAULTDURATION)
         == if h.defaultDuration == 0 then None else Some(UInt(ID_DEFAULTDURATION, h.defaultDuration).body)
  {
    hide UInt;
    var a := if h.codecPrivate == [] then [] else [Elem(ID_CODECPRIVATE, h.codecPrivate)];
    var b := if h.defaultDuration == 0 then [] else [UInt(ID_DEFAULTDURATION, h.defaultDuration)];
    FindConcat(a, b, ID_VIDEO);
    FindConcat(a, b, ID_CODECPRIVATE);
    FindConcat(a, b, ID_DEFAULTDURATION);
  }

  lemma ParseTrack(h: Header)
    requires ValidHeader(h)
    ensures ParseElems(Flatten(TrackElems(h))) == Some(TrackElems(h))
    ensures ReadTrack(TrackElems(h)) == Track(1, 1, 1, 0) && FindBytes(TrackElems(h), 0x86) == h.codecId
    ensures FindBytes(TrackElems(h), 0x63a2) == h.codecPrivate
    ensures FindUInt(TrackElems(h), 0x23e383) == AsUInt64(h.defaultDuration)
    ensures Find(TrackElems(h), 0xe0) == Some(Flatten(VideoElems(h)))
  {
    TrackSound(h);
    UIntValue(ID_DEFAULTDURATION, h.defaultDuration);
    ParseFlatten(TrackElems(h));
    hide TrackElems, TrackBase, TrackOptions, Find, Flatten, UInt, VideoElems, ParseElems;
    FindInBase(h);
    FindInOptions(h);
    FindInTrack(h, 0xd7);
    FindInTrack(h, 0x73c5);
    FindInTrack(h, 0x83);
    FindInTrack(h, 0x9c);
    FindInTrack(h, 0x86);
    FindInTrack(h, 0x63a2);
    FindInTrack(h, 0x23e383);
    FindInTrack(h, 0xe0);
  }

  lemma SoundConcat(a: seq<Elem>, b: seq<Elem>)
    requires Sound(a) && Sound(b)
    ensures Sound(a + b)
  {}

  lemma TrackSound(h: Header)
    requires ValidHeader(h)
    ensures Sound(TrackElems(h))
  {
    VideoSize(h);
    hide UInt, Flatten, VideoElems;
    assert Sound(TrackBase(h));
    assert Sound(TrackOptions(h));
    assert Sound([VideoElem(h)]);
    hide TrackBase, TrackOptions, VideoElem, Sound;
    SoundConcat(TrackOptions(h), [VideoElem(h)]);
    SoundConcat(TrackBase(h), TrackOptions(h) + [VideoElem(h)]);
  }

  lemma VideoSize(h: Header)
    requires ValidHeader(h)
    ensures |Flatten(VideoElems(h))| <= 100
  {
    hide UInt;
    FlattenSize(VideoElems(h), 8);
  }

  lemma ElementSize(e: Elem)
    ensures |e.body| < |Element(e)| <= 9 + |e.body|
  {}

  /** Each element costs at most nine octets beside its body. */
  lemma {:induction false} FlattenSize(es: seq<Elem>, m: nat)
    requires forall i | 0 <= i < |es| :: |es[i].body| <= m
    ensures |Flatten(es)| <= |es| * (9 + m)
  {
    if es != [] {
      ElementSize(es[0]);
      hide Element;
      FlattenSize(es[1..], m);
      assert |es| * (9 + m) == (9 + m) + (|es| - 1) * (9 + m);
    }
  }

  lemma InfoSize(h: Header, duration: Octets)
    requires ValidHeader(h) && |duration| == 4
    ensures |InfoElem(h, duration).body| < 0x4400_0000
  {
    hide UInt, MuxingApp, Flatten;
    FlattenSize(InfoElems(h, duration), 0x1000_0000);
  }

  lemma TracksSize(h: Header)
    requires ValidHeader(h)
    ensures |Flatten(TrackElems(h))| < 0x9000_0000 && |TracksElem(h).body| < SIZE_LIMIT
  {
    VideoSize(h);
    hide UInt, Flatten, VideoElems;
    FlattenSize(TrackElems(h), 0x1000_0000);
    ElementSize(Elem(ID_TRACKENTRY, Flatten(TrackElems(h))));
    hide Element;
  }

  lemma ParseTracks(h: Header)
    requires ValidHeader(h)
    ensures ParseElems(TracksElem(h).body) == Some([Elem(ID_TRACKENTRY, Flatten(TrackElems(h)))])
  {
    TracksSize(h);
    hide TrackElems, Element, Flatten, ParseElems;
    ParseLast(Elem(ID_TRACKENTRY, Flatten(TrackElems(h))), []);
  }

  /** The children of a Segment read back as the header and the clusters. */
  lemma SegmentRoundTrip(h: Header, duration: Octets, cs: seq<Cluster>)
    requires ValidHeader(h) && |duration| == 4 && ValidClusters(cs)
    ensures ParseSegment([InfoElem(h, duration), TracksElem(h)] + Clusters(cs))
         == Some(MovieOf(h, duration, cs))
  {
    hide InfoElems, TrackElems, VideoElems, Clusters, AllAsRead, ParseElems, Flatten, Find, FindBytes, FindUInt, ParseClusters, Element, ReadHeader, ReadTrack, HeaderAsRead;
    var es := [InfoElem(h, duration), TracksElem(h)] + Clusters(cs);
    assert es[2..] == Clusters(cs);
    ParseInfo(h, duration);
    ParseTracks(h);
    ParseTrack(h);
    ParseVideo(h);
    HeaderReads(h, duration);
    ClustersRoundTrip(cs);
  }

  lemma HeaderReads(h: Header, duration: Octets)
    requires ValidHeader(h) && |duration| == 4
    ensures ReadHeader(InfoElems(h, duration), TrackElems(h), VideoElems(h)) == HeaderAsRead(h)
  {
    hide InfoElems, TrackElems, VideoElems, FindBytes, FindUInt, ParseElems, Flatten;
    ParseInfo(h, duration);
    ParseTrack(h);
    ParseVideo(h);
  }

  lemma ParsePair(i: Elem, t: Elem, rest: Octets, es: seq<Elem>)
    requires ValidId(i.id) && ValidId(t.id) && |i.body| < SIZE_LIMIT && |t.body| < SIZE_LIMIT
    requires ParseElems(rest) == Some(es)
    ensures ParseElems(Element(i) + Element(t) + rest) == Some([i, t] + es)
  {
    hide Element, ParseElems;
    assert Element(i) + Element(t) + rest == Element(i) + (Element(t) + rest);
    ParseOne(t, rest);
    ParseOne(i, Element(t) + rest);
    assert [i] + ([t] + es) == [i, t] + es;
  }

  lemma ClustersSound(cs: seq<Cluster>)
    requires ValidClusters(cs)
    ensures ParseElems(Flatten(Clusters(cs))) == Some(Clusters(cs))
  {
    hide ClusterBody, ParseElems, Flatten;
    ParseFlatten(Clusters(cs));
  }

  lemma SegmentElems(h: Header, duration: Octets, cs: seq<Cluster>)
    requires ValidHeader(h) && |duration| == 4 && ValidClusters(cs)
    ensures ParseElems(Element(InfoElem(h, duration)) + Element(TracksElem(h)) + Flatten(Clusters(cs)))
         == Some([InfoElem(h, duration), TracksElem(h)] + Clusters(cs))
  {
    InfoSize(h, duration);
    TracksSize(h);
    hide InfoElems, TrackElems, Element, Flatten, Clusters, ParseElems;
    ClustersSound(cs);
    ParsePair(InfoElem(h, duration), TracksElem(h), Flatten(Clusters(cs)), Clusters(cs));
  }

  lemma SegmentHead(rest: Octets)
    ensures ParseElemHead(EncId(ID_SEGMENT) + [0xff] + rest) == Some(ElemHead(ID_SEGMENT, Unknown, 5))
  {
    var s := EncId(ID_SEGMENT) + [0xff] + rest;
    assert s == EncId(ID_SEGMENT) + ([0xff] + rest);
    IdRoundTrip(ID_SEGMENT, [0xff] + rest);
    var t := s[4..];
    assert t == [0xff] + rest;
    assert t[..1] == [0xff];
    hide EncId, ParseId;
    assert Unsigned([0xff]) == 0xff;
  }

  lemma OpeningRoundTrip(e: Elem, es: seq<Elem>, rest: Octets)
    requires e.id == 0x1a45dfa3 && |e.body| < SIZE_LIMIT
    requires ParseElems(e.body) == Some(es) && Readable(es)
    ensures ParseFile(Element(e) + (EncId(ID_SEGMENT) + [0xff] + rest))
         == (if ParseElems(rest).None? then None else ParseSegment(ParseElems(rest).value))
  {
    hide ParseFile, ParseElemHead, Element, EncId, EncSize;
    var tail := EncId(ID_SEGMENT) + [0xff] + rest;
    HeadRoundTrip(e, tail);
    ElementAt(e, tail);
    SegmentHead(rest);
    SegmentIdLen();
    var s := Element(e) + tail;
    var n := |EncId(e.id)| + |EncSize(|e.body|)|;
    Tails(s, n + |e.body|, EncId(ID_SEGMENT) + [0xff], rest);
    OpeningParses(s, n, e.body, es, rest);
  }

  /** What the reader does behind an opening it accepts. */
  lemma OpeningParses(s: Octets, n: nat, body: Octets, es: seq<Elem>, rest: Octets)
    requires ParseElemHead(s) == Some(ElemHead(ID_EBML, Known(|body|), n)) && n + |body| <= |s| && s[n..n + |body|] == body
    requires ParseElems(body) == Some(es) && Readable(es)
    requires ParseElemHead(s[n + |body|..]) == Some(ElemHead(ID_SEGMENT, Unknown, 5))
    requires n + |body| + 5 <= |s| && s[n + |body| + 5..] == rest
    ensures ParseFile(s) == (if ParseElems(rest).None? then None else ParseSegment(ParseElems(rest).value))
  {
    hide ParseElems, ParseElemHead, ParseSegment, Readable;
  }

  lemma Tails(s: Octets, k: nat, mark: Octets, rest: Octets)
    requires k <= |s| && s[k..] == mark + rest
    ensures k + |mark| <= |s| && s[k + |mark|..] == rest
  {
    assert s[k..][|mark|..] == rest;
  }

  lemma SegmentIdLen()
    ensures |EncId(ID_SEGMENT)| == 4
  {}

  lemma EbmlSize(es: seq<Elem>)
    requires es == EbmlElems()
    ensures |Flatten(es)| < 200
  {
    hide UInt, DocType, Flatten;
    FlattenSize(es, 8);
  }

  lemma Regroup(a: Octets, b: Octets, c: Octets, i: Octets, t: Octets, f: Octets)
    ensures (((a + b) + c) + i + t) + f == a + ((b + c) + ((i + t) + f))
  {}

  /** A complete file reads back as the movie it was rendered from. */
  lemma FileRoundTrip(h: Header, duration: Octets, cs: seq<Cluster>)
    requires ValidHeader(h) && |duration| == 4 && ValidClusters(cs)
    ensures ParseFile(HeaderBytes(h, duration) + Flatten(Clusters(cs)))
         == Some(MovieOf(h, duration, cs))
  {
    hide InfoElem, TracksElem, Element, Flatten, Clusters, AllAsRead, ParseElems, ParseSegment, ParseFile, EbmlElems, EncId, HeaderAsRead;
    var i, t, f := Element(InfoElem(h, duration)), Element(TracksElem(h)), Flatten(Clusters(cs));
    var es := EbmlElems();
    SegmentElems(h, duration, cs);
    SegmentRoundTrip(h, duration, cs);
    EbmlSize(es);
    ParseEbmlElems(es);
    OpeningRoundTrip(Elem(ID_EBML, Flatten(es)), es, i + t + f);
    Regroup(Element(Elem(ID_EBML, Flatten(es))), EncId(ID_SEGMENT), [0xff], i, t, f);
  }
}
