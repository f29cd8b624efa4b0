/**
 * The writer itself: a file, a pool of reusable contexts on a linked free list, and the frame and
 * cluster being filled. Every public call refines one step of the machine in MatroskaMuxing.
 */
module MatroskaWriter {
  import opened Bytes
  import opened Ebml
  import opened MatroskaFormat
  import opened MatroskaMuxing
  import opened MatroskaContext
  import opened MatroskaRuns

  /** The contexts reachable from head are exactly list, without repetition, and all are empty. */
  ghost predicate FreeList(head: Context?, list: seq<Context>)
    reads list
  {
    if list == [] then head == null
    else head == list[0] && list[0].Valid() && list[0].dCur == 0 && list[0] !in list[1..] && FreeList(list[0].next, list[1..])
  }

  class Writer {
    // the file behind fp
    var file: Octets
    var pos: nat

    var durationPtr: nat
    var root: Context
    var cluster: Context?
    var frame: Context?
    var freelist: Context?
    var actlist: Context?
    var defDuration: int
    var timescale: int
    var clusterTc: int
    var frameTc: int
    var prevTc: int
    var maxTc: int
    var wroteHeader: bool
    var inFrame: bool
    var keyframe: bool

    ghost var free: seq<Context>   // the free list, from freelist on
    ghost var live: set<Context>   // contexts handed out and not closed
    ghost var st: State            // what has been written, as structured data

    /** The free list is acyclic, holds empty contexts only, and is disjoint from those in use. */
    ghost predicate Pool()
      reads this`actlist, this`freelist, this`free, this`live, live, free
    {
      && actlist == null
      && FreeList(freelist, free)
      && (forall c | c in live :: c !in free && c.Valid() && c.next == null)
    }

    ghost function FreeSet(): (s: set<object>)
      reads this`free
      ensures this !in s
    {
      set c | c in free
    }

    /** Everything the writer owns. */
    ghost function Repr(): set<object>
      reads this`live, this`free
    {
      {this} + live + FreeSet()
    }

    /** The concrete fields stand for st, and nothing but the open cluster and frame is buffered. */
    ghost predicate Valid()
      reads this, live, free
    {
      Inv(st) && Sim()
    }

    ghost predicate Sim()
      reads this, live, free
    {
      && Pool() && Shape() && RootEmpty() && FileIs(st.items)
      && ClusterIs(st.open) && FrameIs(st.payload) && Scalars(st)
    }

    /** The contexts in use are the root, the open cluster and the frame, all distinct. */
    ghost predicate Shape()
      reads this`root, this`cluster, this`frame, this`live
    {
      && live == {root} + (if cluster == null then {} else {cluster}) + (if frame == null then {} else {frame})
      && cluster != root && frame != root && (cluster != null ==> cluster != frame)
    }

    ghost predicate RootEmpty()
      reads this`root, root
    {
      root.parent == null && root.id == 0 && root.Contents() == []
    }

    ghost predicate FileIs(items: seq<Item>)
      reads this`file, this`pos
    {
      pos == |file| && file == Stream(items)
    }

    ghost predicate ClusterIs(open: Option<Cluster>)
      reads this`cluster, this`clusterTc, this`root, cluster
    {
      && (cluster == null <==> open.None?)
      && (cluster != null ==>
            && cluster.parent == root && cluster.id == ID_CLUSTER
            && cluster.Contents() == ClusterBody(open.value) && clusterTc == open.value.time)
    }

    ghost predicate FrameIs(payload: Octets)
      reads this`frame, frame
    {
      if frame == null then payload == [] else frame.Contents() == payload
    }

    ghost predicate Scalars(s: State)
      reads this`timescale, this`frameTc, this`prevTc, this`maxTc, this`inFrame, this`keyframe, this`wroteHeader, this`durationPtr, this`defDuration
    {
      && timescale == s.timescale && frameTc == s.tc && prevTc == s.prev && maxTc == s.maxTc
      && inFrame == s.inFrame && keyframe == s.key && wroteHeader == s.header.Some?
      && (wroteHeader ==> durationPtr == DurationOffset(s.header.value) && defDuration == s.header.value.defaultDuration)
    }

    /** mk_createWriter */
    constructor ()
      ensures Valid() && fresh(Repr()) && st == Init()
    {
      hide Inv, Rel, DurationOffset, ClusterBody, Init, Stream, IsCapacity;
      root := new Context();
      file, pos, durationPtr := [], 0, 0;
      cluster, frame, freelist, actlist := null, null, null, null;
      defDuration, timescale, clusterTc, frameTc, prevTc, maxTc := 0, 1000000, 0, 0, 0, 0;
      wroteHeader, inFrame, keyframe := false, false, false;
      free, st := [], Init();
      new;
      live := {root};
      StartState();
      InitIs();
      StreamNone(st.items);
    }

    /** mk_createContext: always an empty context nobody else holds. */
    method CreateContext(parent: Context?, id: nat) returns (c: Context)
      requires Pool()
      modifies this`freelist, this`free, this`live, freelist
      ensures Pool() && c !in old(live) && live == old(live) + {c}
      ensures c.Contents() == [] && c.parent == parent && c.id == id
      ensures FreeSet() <= old(FreeSet()) && (fresh(c) || c in old(FreeSet()))
      ensures (fresh(c) && old(freelist) == null && free == old(free)) || (old(free) != [] && c == old(freelist) == old(free)[0] && free == old(free)[1..])
    {
      hide IsCapacity;
      if freelist != null {
        c := freelist;
        freelist := freelist.next;
        free := free[1..];
      } else {
        c := new Context();
      }
      c.parent := parent;
      c.id := id;
      c.next := actlist;
      live := live + {c};
    }

    lemma Owned()
      requires Shape()
      ensures this in Repr() && root in Repr() && (cluster != null ==> cluster in Repr()) && (frame != null ==> frame in Repr())
    {}

    lemma FreeHead()
      requires Pool()
      ensures freelist != null ==> freelist in free && freelist in FreeSet() && freelist in Repr()
    {
      if freelist != null { assert freelist == free[0]; }
    }

    /** fwrite at the current position. */
    method FWrite(d: Octets)
      modifies this`file, this`pos
      ensures file == Overwrite(old(file), old(pos), d) && pos == old(pos) + |d|
    {
      file := Overwrite(file, pos, d);
      pos := pos + |d|;
    }

    /** mk_flushContextData */
    method FlushContextData(c: Context)
      requires c.Valid() && c.parent != c
      requires c.parent != null ==> c.parent.Valid() && c.parent.dCur + c.dCur <= MAX_BUFFER
      modifies this`file, this`pos, c`dCur, c.parent
      ensures c.Valid() && c.Contents() == []
      ensures c.parent == null ==>
                file == (if old(c.Contents()) == [] then old(file) else Overwrite(old(file), old(pos), old(c.Contents())))
      ensures c.parent == null ==> pos == old(pos) + |old(c.Contents())|
      ensures c.parent != null ==> file == old(file) && pos == old(pos)
      ensures c.parent != null ==> c.parent.Valid() && c.parent.Contents() == old(c.parent.Contents()) + old(c.Contents())
      ensures c.parent != null ==> c.parent.next == old(c.parent.next) && c.parent.parent == old(c.parent.parent) && c.parent.id == old(c.parent.id)
    {
      hide IsCapacity;
      if c.dCur == 0 { return; }
      if c.parent != null {
        c.parent.Append(c.data[..c.dCur]);
      } else {
        FWrite(c.data[..c.dCur]);
      }
      c.dCur := 0;
    }

    /** mk_closeContext: the element goes to the parent, the context back to the pool. */
    method CloseContext(c: Context, off: nat) returns (off': nat)
      requires Pool() && c in live && c.parent != null && c.parent in live && c.parent != c
      requires c.id < SIZE_LIMIT && c.parent.dCur + c.dCur + 9 <= MAX_BUFFER
      modifies this`freelist, this`free, this`live, this`actlist, this`file, this`pos, c, c.parent
      ensures Pool() && live == old(live) - {c} && free == [c] + old(free) && FreeSet() == old(FreeSet()) + {c}
      ensures file == old(file) && pos == old(pos)
      ensures old(c.parent).Contents() == old(c.parent.Contents())
                + (if old(c.id) == 0 then old(c.Contents()) else Element(Elem(old(c.id), old(c.Contents()))))
      ensures off' == off + |old(c.parent).Contents()| - |old(c.Contents())|
      ensures old(c.parent).parent == old(c.parent.parent) && old(c.parent).id == old(c.parent.id)
    {
      hide FreeList;
      off' := CloseData(c, off);
      Recycle(c);
    }

    /** Id, size and contents go to the parent. */
    method CloseData(c: Context, off: nat) returns (off': nat)
      requires c.Valid() && c.parent != null && c.parent.Valid() && c.parent != c
      requires c.id < SIZE_LIMIT && c.parent.dCur + c.dCur + 9 <= MAX_BUFFER
      modifies this`file, this`pos, c`dCur, c.parent
      ensures c.Valid() && c.dCur == 0 && c.parent.Valid() && file == old(file) && pos == old(pos)
      ensures c.parent.Contents() == old(c.parent.Contents())
                + (if c.id == 0 then old(c.Contents()) else Element(Elem(c.id, old(c.Contents()))))
      ensures off' == off + |c.parent.Contents()| - |old(c.Contents())|
      ensures c.parent.parent == old(c.parent.parent) && c.parent.id == old(c.parent.id) && c.parent.next == old(c.parent.next)
    {
      hide IsCapacity, EncId, EncSize;
      ghost var p, was, body := c.parent, c.parent.Contents(), c.Contents();
      HeadBound(c.id, c.dCur);
      off' := off;
      if c.id != 0 {
        c.parent.WriteId(c.id);
        c.parent.WriteSize(c.dCur);
      }
      off' := off' + c.parent.dCur;
      FlushContextData(c);
      assert c.id != 0 ==> p.Contents() == was + Element(Elem(c.id, body)) by {
        assert |body| % SIZE_LIMIT == |body|;
      }
    }

    /** Close a child of the empty root and write it through to the end of the file. */
    method CloseToFile(c: Context)
      requires Pool() && c in live && root in live && c != root && c.parent == root && root.parent == null && root.Contents() == []
      requires pos == |file| && 0 != c.id < SIZE_LIMIT && c.dCur + 9 <= MAX_BUFFER
      modifies this`freelist, this`free, this`live, this`actlist, this`file, this`pos, c, root
      ensures Pool() && live == old(live) - {c} && free == [c] + old(free)
      ensures pos == |file| && file == old(file) + Element(Elem(old(c.id), old(c.Contents())))
      ensures root.parent == null && root.id == old(root.id) && root.Contents() == []
    {
      hide FreeList, IsCapacity, Element;
      var off := CloseContext(c, 0);
      hide Pool;
      FlushContextData(root);
      AppendAtEnd(old(file), root.Contents());
    }

    method EmitCluster(ghost items: seq<Item>, ghost c: Cluster, ghost payload: Octets)
      requires FrameIs(payload) && Pool() && Shape() && RootEmpty() && FileIs(items) && ClusterIs(Some(c)) && cluster.dCur + 9 <= MAX_BUFFER
      modifies this`freelist, this`free, this`live, this`actlist, this`file, this`pos, this`cluster, root, cluster
      ensures Pool() && Shape() && RootEmpty() && FileIs(items + [ClusterItem(c)]) && cluster == null && ClusterIs(None) && FrameIs(payload)
      ensures Repr() <= old(Repr())
    {
      hide FreeList, IsCapacity, Stream, ClusterBody, Element, Pool, FrameIs;
      StreamAppend(items, ClusterItem(c));
      CloseToFile(cluster);
      cluster := null;
    }

    /** mk_closeCluster */
    method CloseCluster()
      requires Sim() && (cluster != null ==> cluster.dCur + 9 <= MAX_BUFFER)
      modifies Repr()
      ensures Sim() && st == MatroskaMuxing.CloseCluster(old(st)) && cluster == null
      ensures fresh(Repr() - old(Repr()))
    {
      hide Sim, FrameIs, Pool, Shape, RootEmpty, FileIs, Scalars, ClusterIs, ClusterBody, Repr, MatroskaMuxing.CloseCluster;
      SimGives();
      ClosedState(st);
      if cluster == null { return; }
      Parts();
      Owned();
      EmitCluster(st.items, st.open.value, st.payload);
      SameScalars(st, MatroskaMuxing.CloseCluster(st));
      Become(MatroskaMuxing.CloseCluster(st));
    }

    lemma ClosedState(s: State)
      ensures MatroskaMuxing.CloseCluster(s) ==
        if s.open.None? then s else s.(items := s.items + [ClusterItem(s.open.value)], open := None)
    {}

    lemma Parts()
      requires Sim()
      ensures Pool() && Shape() && RootEmpty() && FileIs(st.items) && ClusterIs(st.open) && FrameIs(st.payload) && Scalars(st)
    {}

    /** The concrete fields have come to stand for another state. */
    ghost method Become(s: State)
      requires Pool() && Shape() && RootEmpty() && FileIs(s.items) && ClusterIs(s.open) && FrameIs(s.payload) && Scalars(s)
      modifies this`st
      ensures Sim() && st == s && Repr() == old(Repr())
    {
      hide FrameIs, Pool, Shape, RootEmpty, FileIs, Scalars, ClusterIs, FreeSet;
      st := s;
    }

    lemma Holds()
      ensures this in Repr()
    {}

    lemma SameScalars(s: State, t: State)
      requires Scalars(s) && t == s.(items := t.items, open := t.open, payload := t.payload)
      ensures Scalars(t)
    {}

    method BeginCluster(tc: int, ghost payload: Octets)
      requires Pool() && Shape() && RootEmpty() && FrameIs(payload) && cluster == null && IsInt64(tc)
      modifies this`freelist, this`free, this`live, this`cluster, this`clusterTc, freelist
      ensures Pool() && Shape() && RootEmpty() && FrameIs(payload) && ClusterIs(Some(Cluster(tc, []))) && cluster != null
      ensures fresh(Repr() - old(Repr()))
    {
      hide Pool, FreeList, IsCapacity, ClusterBody;
      FreeHead();
      clusterTc := tc;
      cluster := CreateContext(root, ID_CLUSTER);
      StampCluster(cluster, clusterTc);
    }

    /** Start a cluster at the pending frame's time: the second test of mk_flushFrame. */
    method OpenCluster()
      requires Sim() && cluster == null && timescale != 0 && IsInt64(Time(st))
      modifies Repr()
      ensures Sim() && st == old(st).(open := Some(Cluster(Time(old(st)), []))) && cluster != null
      ensures fresh(Repr() - old(Repr()))
    {
      hide Pool, FreeList, IsCapacity, ClusterBody, DurationOffset, TruncDiv, FrameIs, FileIs, RootEmpty, ClusterIs, Shape;
      FreeHead();
      var tc := TruncDiv(frameTc, timescale);
      BeginCluster(tc, st.payload);
      st := st.(open := Some(Cluster(tc, [])));
    }

    method StampCluster(c: Context, tc: int)
      requires Pool() && c in live && c.Contents() == [] && IsInt64(tc)
      modifies c`data, c`dCur
      ensures Pool() && c.Contents() == ClusterBody(Cluster(tc, []))
    {
      hide FreeList, IsCapacity, ClusterBody, UInt, Element;
      EmptyClusterBody(tc);
      c.WriteUInt(ID_TIMECODE, tc);
    }

    /** The cluster decisions of mk_flushFrame; delta is the pending frame's relative time. */
    method ChooseCluster() returns (delta: int)
      requires Valid()
      modifies Repr()
      ensures Sim() && st == Ready(old(st)) && cluster != null && delta == Time(old(st)) - st.open.value.time
      ensures fresh(Repr() - old(Repr()))
    {
      hide Sim, TruncDiv, GoodItems, GoodCluster, ClusterBody;
      PendingValid(st);
      SimGives();
      delta := TruncDiv(frameTc, timescale) - clusterTc;
      if delta > 32767 || delta < -32768 {
        CloseCluster();
        SimGives();
      }
      if cluster == null {
        OpenCluster();
        delta := 0;
      }
    }

    method AppendBlock(delta: int, ref: int, ghost c: Cluster, ghost payload: Octets)
      requires Pool() && Shape() && RootEmpty() && ClusterIs(Some(c)) && FrameIs(payload)
      requires |payload| <= MAX_FRAME && cluster.dCur <= CLSIZE && IsInt16(delta) && IsInt64(ref)
      modifies cluster, frame
      ensures Pool() && Shape() && RootEmpty() && FrameIs([])
      ensures ClusterIs(Some(AddBlock(c, Block(delta, payload, if keyframe then None else Some(ref)))))
    {
      hide FreeList, IsCapacity, ClusterBody, GroupElem, Element;
      var data := if frame == null then [] else frame.data[..frame.dCur];
      AddBlockBody(c, Block(delta, payload, if keyframe then None else Some(ref)));
      cluster.WriteGroup(delta, data, keyframe, ref);
      if frame != null { frame.dCur := 0; }
    }

    /** The group-writing part of mk_flushFrame. */
    method WritePending(delta: int)
      requires Sim() && cluster != null && timescale != 0
      requires delta == Time(st) - st.open.value.time && IsInt16(delta)
      requires |st.payload| <= MAX_FRAME && cluster.dCur <= CLSIZE && IsInt64(st.prev - Time(st))
      modifies Repr()
      ensures Sim() && st == AfterBlock(old(st)) && fresh(Repr() - old(Repr()))
    {
      hide Pool, Shape, RootEmpty, FileIs, ClusterIs, FrameIs, TruncDiv, DurationOffset, Repr, ClusterBody, PendingBlock, AddBlock, Time;
      SimGives();
      Owned();
      var ref := 0;
      if !keyframe {
        ref := prevTc - clusterTc - delta;
      }
      PendingIs(st, delta, ref);
      ghost var after := AfterBlock(st);
      AppendBlock(delta, ref, st.open.value, st.payload);
      MarkWritten(delta, after);
    }

    method MarkWritten(delta: int, ghost after: State)
      requires Scalars(st) && st.timescale != 0 && st.open.Some? && after == AfterBlock(st) && Time(st) == clusterTc + delta
      modifies this`inFrame, this`prevTc, this`st
      ensures st == after && Scalars(st) && inFrame == false
    {
      hide DurationOffset, PendingBlock, AddBlock, Time;
      inFrame := false;
      prevTc := clusterTc + delta;
      st := after;
    }

    /** mk_flushFrame */
    method FlushFrame()
      requires Valid()
      modifies Repr()
      ensures Valid() && st == MatroskaMuxing.FlushFrame(old(st)) && fresh(Repr() - old(Repr()))
    {
      hide Sim, Inv, Ready, AfterBlock, ClusterBody, MatroskaMuxing.FlushFrame, MatroskaMuxing.CloseCluster;
      SimGives();
      FlushInv(st);
      NoFrame(st);
      if !inFrame { return; }
      FlushFacts(st);
      var delta := ChooseCluster();
      SimGives();
      WritePending(delta);
      SimGives();
      if cluster.dCur > CLSIZE {
        CloseCluster();
      }
    }

    /** mk_startFrame */
    method StartFrame()
      requires Valid()
      modifies Repr()
      ensures Valid() && st == Step(old(st), Call.StartFrame) && fresh(Repr() - old(Repr()))
    {
      hide Pool, Shape, RootEmpty, FileIs, ClusterIs, FrameIs, GoodItems, GoodCluster, ClusterBody, DurationOffset, MatroskaMuxing.FlushFrame;
      FlushFrame();
      inFrame := true;
      keyframe := false;
      st := st.(inFrame := true, key := false);
    }

    /** mk_setFrameFlags */
    method SetFrameFlags(timestamp: int, key: bool) returns (ok: bool)
      requires Valid() && -TIME_LIMIT < timestamp < TIME_LIMIT
      modifies Repr()
      ensures Valid() && st == Step(old(st), Call.SetFrameFlags(timestamp, key)) && ok == old(st.inFrame)
      ensures fresh(Repr() - old(Repr()))
    {
      hide Pool, Shape, RootEmpty, FileIs, ClusterIs, FrameIs, GoodItems, GoodCluster, ClusterBody, DurationOffset;
      if !inFrame { return false; }
      frameTc := timestamp;
      keyframe := key;
      if maxTc < timestamp { maxTc := timestamp; }
      st := st.(tc := timestamp, key := key, maxTc := if st.maxTc < timestamp then timestamp else st.maxTc);
      ok := true;
    }

    /** mk_addFrameData */
    method AddFrameData(d: Octets) returns (ok: bool)
      requires Valid() && |st.payload| + |d| <= MAX_FRAME
      modifies Repr()
      ensures Valid() && st == Step(old(st), Call.AddFrameData(d)) && ok == old(st.inFrame)
      ensures fresh(Repr() - old(Repr()))
    {
      hide Sim, Pool, Shape, RootEmpty, FileIs, ClusterIs, FrameIs, Scalars, GoodItems, GoodCluster, ClusterBody, Repr, FreeSet;
      SimGives();
      if !inFrame { return false; }
      Parts();
      Holds();
      AddToFrame(d, st.payload, st.open);
      SameScalars(st, st.(payload := st.payload + d));
      Become(st.(payload := st.payload + d));
      ok := true;
    }

    /** The data goes into the context of the frame, which is made for the first of it. */
    method AddToFrame(d: Octets, ghost payload: Octets, ghost open: Option<Cluster>)
      requires Pool() && Shape() && RootEmpty() && ClusterIs(open) && FrameIs(payload) && |payload| + |d| <= MAX_FRAME
      modifies Repr() - {this}, this`freelist, this`free, this`live, this`frame
      ensures Pool() && Shape() && RootEmpty() && ClusterIs(open) && FrameIs(payload + d)
      ensures fresh(Repr() - old(Repr()))
    {
      hide Pool, RootEmpty, ClusterIs, FrameIs, FreeSet;
      FreeHead();
      if frame == null {
        NoFrameYet(payload);
        BeginFrame(open);
      }
      Owned();
      GrowFrame(d, payload, open);
    }

    lemma NoFrameYet(payload: Octets)
      requires FrameIs(payload) && frame == null
      ensures payload == []
    {}

    method BeginFrame(ghost open: Option<Cluster>)
      requires Pool() && Shape() && RootEmpty() && ClusterIs(open) && frame == null
      modifies this`freelist, this`free, this`live, this`frame, freelist
      ensures Pool() && Shape() && RootEmpty() && ClusterIs(open) && FrameIs([]) && frame != null
      ensures fresh(Repr() - old(Repr()))
    {
      hide Pool, FreeList, IsCapacity, ClusterBody;
      FreeHead();
      frame := CreateContext(null, 0);
    }

    method GrowFrame(d: Octets, ghost payload: Octets, ghost open: Option<Cluster>)
      requires Pool() && Shape() && RootEmpty() && ClusterIs(open) && FrameIs(payload) && frame != null
      requires |payload| + |d| <= MAX_FRAME
      modifies frame
      ensures Pool() && Shape() && RootEmpty() && ClusterIs(open) && FrameIs(payload + d)
    {
      hide FreeList, IsCapacity, ClusterBody;
      frame.Append(d);
    }

    // -------------------------------------------------------------- mk_writeHeader

    /** What stays put while the header's contexts come and go. */
    ghost predicate Kept()
      reads this`root, this`cluster, this`frame, this`live, this`file, this`pos, this`clusterTc, this`st, root, cluster, frame
    {
      && root in live && root.parent == null && root.id == 0
      && (cluster != null ==> cluster in live && cluster != root && cluster != frame)
      && (frame != null ==> frame in live && frame != root)
      && FileIs(st.items) && ClusterIs(st.open) && FrameIs(st.payload)
    }

    /** A context of the header: in use, and neither the cluster nor the frame. */
    ghost predicate Mine(c: Context)
      reads this`cluster, this`frame, this`live
    {
      c in live && c != cluster && c != frame
    }

    method WriteVideo(ti: Context, h: Header, ghost es: seq<Elem>)
      requires Pool() && Mine(ti) && ti != root && Kept() && ValidHeader(h)
      requires ti.Contents() == Flatten(es) && ti.dCur + 200 <= MAX_BUFFER
      modifies this`freelist, this`free, this`live, this`actlist, this`file, this`pos, FreeSet(), ti
      ensures Pool() && live == old(live) && Kept() && Mine(ti)
      ensures ti.Contents() == Flatten(es + [VideoElem(h)]) && ti.dCur <= old(ti.dCur) + 109 && ti.parent == old(ti.parent) && ti.id == old(ti.id)
      ensures root.Contents() == old(root.Contents()) && fresh(FreeSet() - old(FreeSet()))
    {
      hide FreeSet, Pool, FreeList, IsCapacity, Flatten, UInt, Stream, ClusterIs, FrameIs;
      FreeHead();
      var v := CreateContext(ti, ID_VIDEO);
      FillVideo(v, h);
      PoolGives(v);
      PoolGives(ti);
      var off := CloseContext(v, 0);
      FlattenSnoc(es, VideoElem(h));
      VideoSize(h);
      ElementSize(VideoElem(h));
      PoolGives(ti);
    }

    /** An unsigned integer element at the end of a context in use. */
    method AddUInt(c: Context, id: nat, ui: int, ghost es: seq<Elem>) returns (ghost es': seq<Elem>)
      requires Pool() && c in live && id < SIZE_LIMIT && IsInt64(ui) && c.dCur + 17 <= MAX_BUFFER && c.Contents() == Flatten(es)
      modifies c`data, c`dCur
      ensures Pool() && es' == es + [UInt(id, ui)] && c.Contents() == Flatten(es') && c.dCur <= old(c.dCur) + 17
    {
      hide FreeList, IsCapacity, UInt, Flatten;
      es' := c.PutUInt(id, ui, es);
    }

    /** The same with octets. */
    method AddBin(c: Context, id: nat, d: Octets, ghost es: seq<Elem>) returns (ghost es': seq<Elem>)
      requires Pool() && c in live && id < SIZE_LIMIT && c.dCur + |d| + 9 <= MAX_BUFFER && c.Contents() == Flatten(es)
      modifies c`data, c`dCur
      ensures Pool() && es' == es + [Elem(id, d)] && c.Contents() == Flatten(es') && c.dCur <= old(c.dCur) + |d| + 9
    {
      hide FreeList, IsCapacity, Flatten;
      es' := c.PutBin(id, d, es);
    }

    method FillTrack(ti: Context, h: Header) returns (ghost es: seq<Elem>)
      requires Pool() && ti in live && ti.Contents() == [] && ValidHeader(h)
      modifies ti`data, ti`dCur
      ensures Pool() && ti.Contents() == Flatten(es) && es == TrackBase(h) + TrackOptions(h)
      ensures ti.dCur <= |h.codecId| + |h.codecPrivate| + 120
    {
      hide Pool, FreeList, IsCapacity, UInt, Flatten, TrackOptions;
      TrackOptionsIs(h);
      PoolGives(ti);
      es := [];
      FlattenNone(es);
      es := AddUInt(ti, 0xd7, 1, es);
      es := AddUInt(ti, 0x73c5, 1, es);
      es := AddUInt(ti, 0x83, 1, es);
      es := AddUInt(ti, 0x9c, 0, es);
      es := AddBin(ti, ID_CODECID, h.codecId, es);
      assert es == TrackBase(h) + [];
      if |h.codecPrivate| != 0 {
        es := AddBin(ti, ID_CODECPRIVATE, h.codecPrivate, es);
      }
      if h.defaultDuration != 0 {
        es := AddUInt(ti, ID_DEFAULTDURATION, h.defaultDuration, es);
      }
    }

    method WriteTracks(h: Header)
      requires Pool() && Mine(root) && Kept() && ValidHeader(h) && root.dCur <= 0x4500_0000
      modifies this`freelist, this`free, this`live, this`actlist, this`file, this`pos, FreeSet(), root
      ensures Pool() && live == old(live) && Kept()
      ensures root.Contents() == old(root.Contents()) + Element(TracksElem(h))
      ensures fresh(FreeSet() - old(FreeSet()))
    {
      hide Pool, FreeList, IsCapacity, Flatten, UInt, Stream, ClusterIs, FrameIs, TrackElems, VideoElem, Element;
      FreeHead();
      var c := CreateContext(root, ID_TRACKS);
      PoolGives(root);
      WriteTrackEntry(c, h);
      PoolGives(c);
      PoolGives(root);
      var off := CloseContext(c, 0);
    }

    /** The track entry in a context of its own. */
    method FillTrackEntry(c: Context, h: Header) returns (ti: Context)
      requires Pool() && Mine(c) && c != root && Kept() && ValidHeader(h)
      modifies this`freelist, this`free, this`live, this`actlist, this`file, this`pos, FreeSet()
      ensures Pool() && Kept() && Mine(c) && Mine(ti) && ti != c && live == old(live) + {ti} && ti !in old(live)
      ensures ti.Contents() == Flatten(TrackElems(h)) && ti.dCur <= 0x1000_0000 + 300 && ti.parent == c && ti.id == ID_TRACKENTRY
      ensures fresh(FreeSet() - old(FreeSet())) && (fresh(ti) || ti in old(FreeSet())) && c !in FreeSet() && root !in FreeSet()
    {
      hide Pool, FreeList, IsCapacity, Flatten, UInt, Stream, ClusterIs, FrameIs, TrackBase, TrackOptions, TrackElems, VideoElem, Element, RootEmpty, FileIs, Scalars;
      FreeHead();
      ti := CreateContext(c, ID_TRACKENTRY);
      ghost var es := FillTrack(ti, h);
      PoolGives(c);
      WriteVideo(ti, h, es);
      PoolGives(c);
      PoolGives(root);
      TrackElemsIs(es, h);
    }

    method WriteTrackEntry(c: Context, h: Header)
      requires Pool() && Mine(c) && c != root && Kept() && ValidHeader(h) && c.Contents() == []
      modifies this`freelist, this`free, this`live, this`actlist, this`file, this`pos, FreeSet(), c
      ensures Pool() && live == old(live) && Kept() && Mine(c)
      ensures c.Contents() == TracksElem(h).body && c.dCur <= 0x1100_0000 && c.parent == old(c.parent) && c.id == old(c.id)
      ensures root.Contents() == old(root.Contents()) && fresh(FreeSet() - old(FreeSet()))
    {
      hide Pool, FreeList, IsCapacity, Flatten, UInt, Stream, ClusterIs, FrameIs, TrackElems, VideoElem, Element, RootEmpty, FileIs, Scalars;
      PoolGives(c);
      PoolGives(root);
      var ti := FillTrackEntry(c, h);
      PoolGives(c);
      PoolGives(ti);
      var off := CloseContext(ti, 0);
      PoolGives(c);
      ElementSize(Elem(ID_TRACKENTRY, Flatten(TrackElems(h))));
    }

    lemma TrackElemsIs(es: seq<Elem>, h: Header)
      requires es == TrackBase(h) + TrackOptions(h)
      ensures es + [VideoElem(h)] == TrackElems(h)
    {}

    method WriteEbml()
      requires Pool() && Mine(root) && Kept() && root.Contents() == []
      modifies this`freelist, this`free, this`live, this`actlist, this`file, this`pos, FreeSet(), root
      ensures Pool() && live == old(live) && Kept()
      ensures root.Contents() == Element(Elem(ID_EBML, Flatten(EbmlElems()))) && root.dCur <= 200
      ensures fresh(FreeSet() - old(FreeSet()))
    {
      hide FreeSet, Pool, FreeList, IsCapacity, Flatten, UInt, Stream, ClusterIs, FrameIs, EbmlElems, Element;
      FreeHead();
      PoolGives(root);
      var c := CreateContext(root, ID_EBML);
      FillEbml(c);
      PoolGives(c);
      var off := CloseContext(c, 0);
      PoolGives(root);
      ElementSize(Elem(ID_EBML, Flatten(EbmlElems())));
    }

    method FillEbml(c: Context)
      requires Pool() && c in live && c.Contents() == []
      modifies c`data, c`dCur
      ensures Pool() && c.Contents() == Flatten(EbmlElems()) && c.dCur <= 119
    {
      hide Pool, FreeList, IsCapacity, UInt, Flatten, DocType;
      PoolGives(c);
      ghost var es := [];
      FlattenNone(es);
      es := AddUInt(c, 0x4286, 1, es);
      es := AddUInt(c, 0x42f7, 1, es);
      es := AddUInt(c, 0x42f2, 4, es);
      es := AddUInt(c, 0x42f3, 8, es);
      es := AddBin(c, 0x4282, DocType(), es);
      es := AddUInt(c, 0x4287, 1, es);
      es := AddUInt(c, 0x4285, 1, es);
      EbmlElemsIs(es);
    }

    /** mk_flushContextID: the ID with an unknown size goes out at once. */
    method FlushContextId(c: Context)
      requires c.parent != null && c.parent != c && c.parent.Valid() && c.parent.dCur + 5 <= MAX_BUFFER && c.id < SIZE_LIMIT
      modifies c`id, c.parent`data, c.parent`dCur
      ensures c.id == 0 && c.parent.Valid()
      ensures c.parent.Contents() == old(c.parent.Contents()) + (if old(c.id) == 0 then [] else EncId(old(c.id)) + [0xff])
    {
      hide EncId, IsCapacity;
      if c.id == 0 { return; }
      HeadBound(c.id, 0);
      c.parent.WriteId(c.id);
      c.parent.Append([0xff]);
      c.id := 0;
    }

    method WriteSegment()
      requires Pool() && Mine(root) && Kept() && root.dCur <= 200
      modifies this`freelist, this`free, this`live, this`actlist, this`file, this`pos, FreeSet(), root
      ensures Pool() && live == old(live) && Kept()
      ensures root.Contents() == old(root.Contents()) + EncId(ID_SEGMENT) + [0xff] && root.dCur <= 205
      ensures fresh(FreeSet() - old(FreeSet()))
    {
      hide FreeSet, Pool, FreeList, IsCapacity, Stream, ClusterIs, FrameIs, RootEmpty, FileIs, Scalars, EncId, Element;
      PoolGives(root);
      var c := OpenSegment();
      PoolGives(c);
      PoolGives(root);
      var off := CloseContext(c, 0);
      PoolGives(root);
    }

    /** The segment's id and unknown size go out at once; its context is empty and has no id any more. */
    method OpenSegment() returns (c: Context)
      requires Pool() && Mine(root) && Kept() && root.dCur <= 200
      modifies this`freelist, this`free, this`live, FreeSet(), root
      ensures Pool() && Kept() && Mine(root) && Mine(c) && c != root && live == old(live) + {c} && c !in old(live)
      ensures c.Contents() == [] && c.parent == root && c.id == 0
      ensures root.Contents() == old(root.Contents()) + EncId(ID_SEGMENT) + [0xff] && root.dCur <= 205
      ensures fresh(FreeSet() - old(FreeSet())) && (fresh(c) || c in old(FreeSet())) && root !in FreeSet()
    {
      hide FreeList, IsCapacity, Stream, ClusterIs, FrameIs, RootEmpty, FileIs, Scalars, EncId, Element;
      FreeHead();
      HeadBound(ID_SEGMENT, 0);
      PoolGives(root);
      c := CreateContext(root, ID_SEGMENT);
      FlushContextId(c);
      PoolGives(root);
    }

    method WriteInfo(h: Header)
      requires Pool() && Mine(root) && Kept() && root.dCur <= 205 && ValidHeader(h)
      modifies this`freelist, this`free, this`live, this`actlist, this`file, this`pos, this`durationPtr, FreeSet(), root
      ensures Pool() && live == old(live) && Kept()
      ensures root.Contents() == old(root.Contents()) + Element(InfoElem(h, ZERO_DURATION))
      ensures durationPtr == |root.Contents()| - 4 && root.dCur <= 0x1100_0000
      ensures fresh(FreeSet() - old(FreeSet()))
    {
      hide FreeSet, Pool, FreeList, IsCapacity, Flatten, Stream, ClusterIs, FrameIs, InfoElems, Element, RootEmpty, FileIs, Scalars;
      PoolGives(root);
      var c := OpenInfo(h);
      PoolGives(c);
      PoolGives(root);
      durationPtr := c.dCur - 4;
      durationPtr := CloseContext(c, durationPtr);
      PoolGives(root);
      ElementSize(InfoElem(h, ZERO_DURATION));
    }

    /** The segment information in a context of its own. */
    method OpenInfo(h: Header) returns (c: Context)
      requires Pool() && Mine(root) && Kept() && ValidHeader(h)
      modifies this`freelist, this`free, this`live, FreeSet()
      ensures Pool() && Kept() && Mine(root) && Mine(c) && c != root && live == old(live) + {c} && c !in old(live)
      ensures c.Contents() == InfoElem(h, ZERO_DURATION).body && 4 <= c.dCur <= |h.writingApp| + 72
      ensures c.parent == root && c.id == ID_INFO && root.Contents() == old(root.Contents())
      ensures fresh(FreeSet() - old(FreeSet())) && (fresh(c) || c in old(FreeSet())) && root !in FreeSet()
    {
      hide Pool, FreeList, IsCapacity, Flatten, Stream, ClusterIs, FrameIs, InfoElems, Element, RootEmpty, FileIs, Scalars;
      FreeHead();
      PoolGives(root);
      c := CreateContext(root, ID_INFO);
      FillInfo(c, h);
      PoolGives(root);
    }

    method FillInfo(c: Context, h: Header)
      requires Pool() && c in live && c.Contents() == [] && ValidHeader(h)
      modifies c`data, c`dCur
      ensures Pool() && c.Contents() == InfoElem(h, ZERO_DURATION).body && 4 <= c.dCur <= |h.writingApp| + 72
    {
      hide Pool, FreeList, IsCapacity, UInt, Flatten, MuxingApp;
      PoolGives(c);
      ghost var es := [];
      FlattenNone(es);
      es := AddBin(c, 0x4d80, MuxingApp(), es);
      es := AddBin(c, ID_WRITINGAPP, h.writingApp, es);
      es := AddUInt(c, ID_TIMESCALE, h.timescale, es);
      ghost var was := c.dCur;
      es := AddBin(c, ID_DURATION, ZERO_DURATION, es);
      assert es == InfoElems(h, ZERO_DURATION);
      InfoAtLeast(h);
    }

    /** mk_writeHeader */
    method WriteHeader(h: Header) returns (ok: bool)
      requires Valid() && ValidHeader(h) && h.timescale != 0
      modifies Repr()
      ensures Valid() && st == Step(old(st), Call.WriteHeader(h)) && ok == old(st.header.None?)
      ensures fresh(Repr() - old(Repr()))
    {
      hide Pool, Shape, RootEmpty, FileIs, ClusterIs, FrameIs, Scalars, GoodItems, GoodCluster, ClusterBody, ValidHeader, Step;
      HeaderStepIs(st, h);
      SimGives();
      if wroteHeader { return false; }
      HeaderGood(st.items, h);
      Owned();
      SetHeader(h);
      ok := true;
    }

    method SetHeader(h: Header)
      requires Pool() && Shape() && RootEmpty() && FileIs(st.items) && ClusterIs(st.open) && FrameIs(st.payload) && ValidHeader(h)
      requires Scalars(st) && st.header.None?
      modifies this`freelist, this`free, this`live, this`actlist, this`file, this`pos, this`durationPtr, FreeSet(), root
      modifies this`timescale, this`defDuration, this`wroteHeader, this`st
      ensures Pool() && Shape() && RootEmpty() && FileIs(st.items) && ClusterIs(st.open) && FrameIs(st.payload) && Scalars(st)
      ensures st == old(st).(items := old(st).items + [HeaderItem(h, ZERO_DURATION)], header := Some(h), timescale := h.timescale)
      ensures fresh(Repr() - old(Repr()))
    {
      hide Pool, Shape, RootEmpty, FileIs, ClusterIs, FrameIs, DurationOffset, ValidHeader, Scalars;
      PutHeader(h);
      ScalarsKept(st);
      NoteHeader(h);
    }

    twostate lemma ScalarsKept(s: State)
      requires old(Scalars(s)) && s.header.None?
      requires unchanged(this`timescale, this`frameTc, this`prevTc, this`maxTc, this`inFrame, this`keyframe, this`wroteHeader, this`defDuration)
      ensures Scalars(s)
    {}

    /** The rest of what a written header leaves in the writer. */
    method NoteHeader(h: Header)
      requires Scalars(st) && st.header.None? && durationPtr == DurationOffset(h)
      modifies this`timescale, this`defDuration, this`wroteHeader, this`st
      ensures Scalars(st)
      ensures st == old(st).(items := old(st).items + [HeaderItem(h, ZERO_DURATION)], header := Some(h), timescale := h.timescale)
    {
      hide DurationOffset;
      timescale := h.timescale;
      defDuration := h.defaultDuration;
      wroteHeader := true;
      st := st.(items := st.items + [HeaderItem(h, ZERO_DURATION)], header := Some(h), timescale := h.timescale);
    }

    method PutHeader(h: Header)
      requires Pool() && Shape() && RootEmpty() && FileIs(st.items) && ClusterIs(st.open) && FrameIs(st.payload) && ValidHeader(h)
      modifies this`freelist, this`free, this`live, this`actlist, this`file, this`pos, this`durationPtr, FreeSet(), root
      ensures Pool() && Shape() && RootEmpty() && ClusterIs(st.open) && FrameIs(st.payload)
      ensures FileIs(st.items + [HeaderItem(h, ZERO_DURATION)]) && durationPtr == DurationOffset(h)
      ensures fresh(Repr() - old(Repr()))
    {
      hide Pool, Shape, RootEmpty, Kept, Mine, FileIs, ClusterIs, FrameIs, EncId, Element, InfoElem, TracksElem, Flatten, ValidHeader, DurationOffset, HeaderBytes;
      KeptStart();
      WriteEbml();
      WriteSegment();
      WriteInfo(h);
      WriteTracks(h);
      HeaderWritten(h);
      FinishHeader(h);
    }

    lemma KeptStart()
      requires Pool() && Shape() && RootEmpty() && FileIs(st.items) && ClusterIs(st.open) && FrameIs(st.payload)
      ensures Kept() && Mine(root) && root.Contents() == [] && this in Repr() && root in Repr() && root.Valid()
    {
      hide FreeList, IsCapacity, Stream, ClusterBody;
    }

    lemma HeaderWritten(h: Header)
      ensures HeaderBytes(h, ZERO_DURATION) == Element(Elem(ID_EBML, Flatten(EbmlElems()))) + EncId(ID_SEGMENT) + [0xff]
        + Element(InfoElem(h, ZERO_DURATION)) + Element(TracksElem(h))
      ensures DurationOffset(h) == |Element(Elem(ID_EBML, Flatten(EbmlElems()))) + EncId(ID_SEGMENT) + [0xff]
        + Element(InfoElem(h, ZERO_DURATION))| - 4
    {
      hide EbmlElems, EncId, Element, InfoElem, TracksElem, Flatten;
    }

    method FinishHeader(h: Header)
      requires Pool() && Kept() && root.Contents() == HeaderBytes(h, ZERO_DURATION)
      modifies this`file, this`pos, root`dCur
      ensures Pool() && RootEmpty() && ClusterIs(st.open) && FrameIs(st.payload) && FileIs(st.items + [HeaderItem(h, ZERO_DURATION)])
    {
      hide FreeList, IsCapacity, Stream, HeaderBytes, ClusterBody;
      FlushContextData(root);
      StreamAppend(st.items, HeaderItem(h, ZERO_DURATION));
    }

    lemma PoolGives(c: Context)
      requires Pool() && c in live
      ensures c.Valid() && c !in free && c !in FreeSet() && c.dCur == |c.Contents()|
    {}

    method FillVideo(v: Context, h: Header)
      requires Pool() && v in live && v.Contents() == [] && ValidHeader(h)
      modifies v`data, v`dCur
      ensures Pool() && v.Contents() == Flatten(VideoElems(h)) && v.dCur <= 68
    {
      hide Pool, FreeList, IsCapacity, UInt, Flatten;
      PoolGives(v);
      ghost var es := [];
      FlattenNone(es);
      es := AddUInt(v, ID_WIDTH, h.width, es);
      es := AddUInt(v, ID_HEIGHT, h.height, es);
      es := AddUInt(v, ID_DISPLAYWIDTH, h.dWidth, es);
      es := AddUInt(v, ID_DISPLAYHEIGHT, h.dHeight, es);
      assert es == VideoElems(h);
    }

    /** mk_close: flush what is pending, then patch the Duration; encode gives the octets of a float. */
    method Close(encode: real -> Octets)
      requires Valid() && forall x :: |encode(x)| == 4
      modifies Repr()
      ensures file == FileOf(old(st), encode(DurationOf(old(st))))
    {
      hide Sim, Inv, Repr, Overwrite, DurationOffset, MatroskaMuxing.Finish, Stream;
      Holds();
      NoFrame(st);
      FinishFields(st);
      FinishRun();
      SimGives();
      ClosedFile();
      DurationFields();
      Patch(encode((maxTc + defDuration) as real / timescale as real));
    }

    /** The pending frame and the open cluster go to the file. */
    method FinishRun()
      requires Valid()
      modifies Repr()
      ensures Sim() && st == Finish(old(st)) && st.maxTc == old(st).maxTc && fresh(Repr() - old(Repr()))
    {
      hide Sim, Inv, MatroskaMuxing.FlushFrame, ClusterBody;
      NoFrame(st);
      StampsKept(st);
      FlushFrame();
      SimGives();
      OpenBound(st);
      CloseCluster();
    }

    lemma DurationFields()
      requires Sim() && timescale != 0
      ensures st.header.Some? ==> (maxTc + defDuration) as real / timescale as real == DurationOf(st)
    {
      hide DurationOffset, Pool, Shape, RootEmpty, FileIs, ClusterIs, FrameIs;
    }

    lemma ClosedFile()
      requires Sim()
      ensures file == Stream(st.items) && Pool() && Shape() && RootEmpty() && root.Valid()
      ensures root in Repr() && (st.header.Some? ==> durationPtr == DurationOffset(st.header.value))
    {
      hide FreeList, IsCapacity, Stream, DurationOffset, ClusterIs, FrameIs;
    }

    method Patch(bits: Octets)
      requires |bits| == 4 && root.Valid() && RootEmpty()
      modifies this`file, this`pos, root
      ensures file == if wroteHeader then Overwrite(old(file), durationPtr, bits) else old(file)
    {
      hide IsCapacity, Overwrite;
      if wroteHeader {
        pos := durationPtr;
        root.Append(bits);
        assert root.Contents() == bits;
        FlushContextData(root);
      }
    }

    /** Facts about the fields that the correspondence gives. */
    lemma SimGives()
      requires Sim()
      ensures timescale == st.timescale && frameTc == st.tc && prevTc == st.prev && maxTc == st.maxTc
      ensures inFrame == st.inFrame && keyframe == st.key && wroteHeader == st.header.Some?
      ensures cluster == null <==> st.open.None?
      ensures cluster != null ==> clusterTc == st.open.value.time && cluster.Valid() && cluster.dCur == |ClusterBody(st.open.value)|
    {
      hide ClusterBody, FreeList, IsCapacity, Stream, DurationOffset;
    }

    /** The end of mk_closeContext: take c out of use and put it first on the free list. */
    method Recycle(c: Context)
      requires Pool() && c in live && c.dCur == 0
      modifies this`freelist, this`free, this`live, this`actlist, c`next
      ensures Pool() && live == old(live) - {c} && free == [c] + old(free)
    {
      hide IsCapacity;
      actlist := c.next;
      c.next := freelist;
      freelist := c;
      free := [c] + free;
      live := live - {c};
      assert free[1..] == old(free);
    }
  }

  lemma StreamAppend(items: seq<Item>, i: Item)
    ensures Stream(items + [i]) == Stream(items) + ItemBytes(i)
    ensures Overwrite(Stream(items), |Stream(items)|, ItemBytes(i)) == Stream(items + [i])
  {
    hide ItemBytes, Overwrite;
    assert (items + [i])[..|items|] == items;
    AppendAtEnd(Stream(items), ItemBytes(i));
  }

  lemma AppendAtEnd(file: Octets, d: Octets)
    ensures Overwrite(file, |file|, d) == file + d
  {}

  lemma PendingIs(s: State, delta: int, ref: int)
    requires s.timescale != 0 && s.open.Some? && delta == Time(s) - s.open.value.time
    requires !s.key ==> ref == s.prev - s.open.value.time - delta
    ensures PendingBlock(s) == Block(delta, s.payload, if s.key then None else Some(ref))
  {
    hide TruncDiv;
  }

  /** The machine's state once the pending block is in the open cluster. */
  function AfterBlock(s: State): State
    requires s.timescale != 0 && s.open.Some?
  {
    s.(open := Some(AddBlock(s.open.value, PendingBlock(s))), inFrame := false, payload := [], prev := Time(s))
  }

  lemma NoFrame(s: State)
    requires Inv(s)
    ensures s.timescale != 0 && (!s.inFrame ==> MatroskaMuxing.FlushFrame(s) == s)
  {}

  /** The bounds and the composition that mk_flushFrame relies on. */
  lemma FlushFacts(s: State)
    requires Inv(s) && s.inFrame
    ensures var r := Ready(s);
      && r.timescale == s.timescale != 0 && Time(r) == Time(s) && r.payload == s.payload && r.prev == s.prev
      && IsInt16(Time(s) - r.open.value.time) && IsInt64(s.prev - Time(s))
      && |s.payload| <= MAX_FRAME && |ClusterBody(r.open.value)| <= CLSIZE
      && AfterBlock(r).open.Some? && |ClusterBody(AfterBlock(r).open.value)| <= CLSIZE + MAX_FRAME + 40
      && MatroskaMuxing.FlushFrame(s) == (if |ClusterBody(AfterBlock(r).open.value)| > CLSIZE
                                          then MatroskaMuxing.CloseCluster(AfterBlock(r)) else AfterBlock(r))
  {
    hide ClusterBody, GoodCluster, GoodItems, ValidBlock, TruncDiv, Ready, Show, AllClusters;
    ReadyShows(s);
    ReadyGood(s);
    PendingValid(s);
    AddGood(Ready(s).open.value, PendingBlock(Ready(s)));
  }

  lemma FlattenNone(es: seq<Elem>)
    requires es == []
    ensures Flatten(es) == []
  {}

  lemma TrackOptionsIs(h: Header)
    ensures TrackOptions(h) == (if h.codecPrivate == [] then [] else [Elem(ID_CODECPRIVATE, h.codecPrivate)])
                             + (if h.defaultDuration == 0 then [] else [UInt(ID_DEFAULTDURATION, h.defaultDuration)])
  {}

  lemma EbmlElemsIs(es: seq<Elem>)
    requires es == [] + [UInt(0x4286, 1)] + [UInt(0x42f7, 1)] + [UInt(0x42f2, 4)] + [UInt(0x42f3, 8)]
                   + [Elem(0x4282, DocType())] + [UInt(0x4287, 1)] + [UInt(0x4285, 1)]
    ensures es == EbmlElems()
  {
    hide UInt, DocType;
  }

  lemma InfoAtLeast(h: Header)
    ensures |InfoElem(h, ZERO_DURATION).body| >= 4
  {
    hide InfoElem, InfoPrefix;
    InfoBody(h, ZERO_DURATION);
  }

  lemma HeaderGood(items: seq<Item>, h: Header)
    requires GoodItems(items) && ValidHeader(h)
    ensures GoodItems(items + [HeaderItem(h, ZERO_DURATION)])
  {
    hide ValidHeader, GoodCluster;
  }

  lemma InitIs()
    ensures Init() == State([], None, None, 1000000, false, [], false, 0, 0, 0)
  {}

  lemma OpenBound(s: State)
    requires Inv(s)
    ensures s.timescale != 0 && (s.open.Some? ==> |ClusterBody(s.open.value)| <= CLSIZE)
  {}

  lemma HeaderStepIs(s: State, h: Header)
    requires s.timescale != 0
    ensures Step(s, Call.WriteHeader(h)) == if s.header.Some? then s
      else s.(items := s.items + [HeaderItem(h, ZERO_DURATION)], header := Some(h), timescale := h.timescale)
  {}
}
