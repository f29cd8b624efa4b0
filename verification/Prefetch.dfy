/**
 * Reading raw 4:2:0 video through one prefetching thread: the caller and the worker as interleaved
 * small steps over the shared reader and the shared picture.
 */
module Prefetch {
  import opened Bytes

  datatype Pic = Pic(y: Octets, u: Octets, v: Octets)

  /** The file, the pixels of a frame, and the frame count found at opening, 0 when it is unknown. */
  datatype Config = Config(file: Octets, pixels: nat, total: nat)

  /** The reader: position in the file and the frame that would come next. */
  datatype Reader = Reader(pos: nat, next: nat)

  // ---------------------------------------------------------------- frames in the file

  /** Where a seek to a frame goes. */
  function Offset(pixels: nat, i: nat): nat { i * pixels * 3 / 2 }

  /** Bytes that reading one frame consumes. */
  function Consumed(pixels: nat): nat { pixels + pixels / 4 + pixels / 4 }

  function FrameCount(size: nat, pixels: nat): nat
    requires pixels > 0
  {
    size / (pixels * 3 / 2)
  }

  predicate Full(c: Config, i: nat) { Offset(c.pixels, i) + Consumed(c.pixels) <= |c.file| }

  /** The picture that stands in the file. */
  function Direct(c: Config, i: nat): Pic
    requires Full(c, i)
  {
    var o, n, q := Offset(c.pixels, i), c.pixels, c.pixels / 4;
    Pic(c.file[o..o + n], c.file[o + n..o + n + q], c.file[o + n + q..o + n + q + q])
  }

  predicate Shaped(c: Config, p: Pic) { |p.y| == c.pixels && |p.u| == c.pixels / 4 && |p.v| == c.pixels / 4 }

  /** One frame on from the start of one frame is the start of the next, for every frame, exactly when four divides the pixels. */
  lemma SequentialIsSeek(pixels: nat)
    ensures (forall i: nat :: Offset(pixels, i) + Consumed(pixels) == Offset(pixels, i + 1)) <==> pixels % 4 == 0
  {
    if pixels % 4 == 0 {
      forall i: nat ensures Offset(pixels, i) + Consumed(pixels) == Offset(pixels, i + 1) { NextOffset(pixels, i); }
    } else {
      assert Offset(pixels, 0) == 0 && Offset(pixels, 1) == pixels * 3 / 2 && Offset(pixels, 2) == pixels * 3;
      assert Offset(pixels, 0 + 1) == Offset(pixels, 1) && Offset(pixels, 1 + 1) == Offset(pixels, 2);
      assert 2 * Consumed(pixels) != pixels * 3;
    }
  }

  lemma NextOffset(pixels: nat, i: nat)
    requires pixels % 4 == 0
    ensures Offset(pixels, i) + Consumed(pixels) == Offset(pixels, i + 1)
  {
    var m := pixels / 4;
    Multiple(pixels, m, i);
    Multiple(pixels, m, i + 1);
    assert (i + 1) * m == i * m + m;
  }

  lemma Multiple(pixels: nat, m: nat, i: nat)
    requires pixels == 4 * m
    ensures Offset(pixels, i) == 6 * (i * m)
  {
    assert i * pixels == 4 * (i * m);
    assert 4 * (i * m) * 3 == 2 * (6 * (i * m));
  }

  /** The count is exact: a frame is counted if and only if it is all in the file. */
  lemma CountedIsFull(c: Config, i: nat)
    requires c.pixels % 4 == 0 && c.pixels > 0
    ensures i < FrameCount(|c.file|, c.pixels) <==> Full(c, i)
  {
    var m := c.pixels / 4;
    var total := FrameCount(|c.file|, c.pixels);
    Multiple(c.pixels, m, i);
    assert c.pixels * 3 / 2 == 6 * m;
    assert (i + 1) * (6 * m) == 6 * (i * m) + 6 * m;
    assert total * (6 * m) <= |c.file| < (total + 1) * (6 * m);
    if i < total { MulMonotone(i + 1, total, 6 * m); } else { MulMonotone(total + 1, i + 1, 6 * m); }
  }

  // ---------------------------------------------------------------- one frame in small steps

  datatype Phase = Seek | PlaneY | PlaneU | PlaneV | Done(status: int)

  /** fread: what there is of n bytes; the rest of the plane stays. */
  function Fread(file: Octets, pos: nat, n: nat, plane: Octets): (r: (Octets, nat))
    ensures r.1 <= n
  {
    var from := if pos <= |file| then pos else |file|;
    var got := if |file| - from < n then |file| - from else n;
    (file[from..from + got] + (if got <= |plane| then plane[got..] else []), got)
  }

  /** One step of read_frame_yuv for frame i into p. */
  function ReadStep(c: Config, r: Reader, p: Pic, i: nat, ph: Phase): (Reader, Pic, Phase) {
    match ph
    case Seek => (if i != r.next then r.(pos := Offset(c.pixels, i)) else r, p, PlaneY)
    case PlaneY =>
      var (y, got) := Fread(c.file, r.pos, c.pixels, p.y);
      (r.(pos := r.pos + got), p.(y := y), if got == 0 then Done(-1) else PlaneU)
    case PlaneU =>
      var (u, got) := Fread(c.file, r.pos, c.pixels / 4, p.u);
      (r.(pos := r.pos + got), p.(u := u), if got == 0 then Done(-1) else PlaneV)
    case PlaneV =>
      var (v, got) := Fread(c.file, r.pos, c.pixels / 4, p.v);
      if got == 0 then (r, p.(v := v), Done(-1))
      else (Reader(r.pos + got, i + 1), p.(v := v), Done(0))
    case Done(_) => (r, p, ph)
  }

  predicate AtFrame(c: Config, r: Reader) { r.pos == Offset(c.pixels, r.next) }

  /** Where reading frame i leaves the reader. */
  function Past(c: Config, i: nat): Reader { Reader(Offset(c.pixels, i + 1), i + 1) }

  /** At the start of the frame that comes next, or that frame is not there. */
  predicate Aligned(c: Config, r: Reader) { AtFrame(c, r) || !Full(c, r.next) }

  /** How far a read of a full frame has come. */
  predicate Midway(c: Config, r: Reader, p: Pic, i: nat, ph: Phase) {
    && Full(c, i) && Shaped(c, p)
    && match ph
       case Seek => Aligned(c, r)
       case PlaneY => r.pos == Offset(c.pixels, i)
       case PlaneU => r.pos == Offset(c.pixels, i) + c.pixels && p.y == Direct(c, i).y
       case PlaneV => r.pos == Offset(c.pixels, i) + c.pixels + c.pixels / 4 && p.y == Direct(c, i).y && p.u == Direct(c, i).u
       case Done(status) => status == 0 && r == Past(c, i) && p == Direct(c, i)
  }

  /** At least one byte of the last plane is there: what read_frame_yuv takes for success. */
  predicate Arrives(c: Config, i: nat) { |c.file| > Offset(c.pixels, i) + c.pixels + c.pixels / 4 }

  function Status(c: Config, i: nat): int { if Arrives(c, i) then 0 else -1 }

  function Min(a: nat, b: nat): nat { if a <= b then a else b }

  /** How far reading on into a frame that is not all there has come. */
  predicate Short(c: Config, r: Reader, p: Pic, i: nat, ph: Phase) {
    var o, n, q := Offset(c.pixels, i), c.pixels, c.pixels / 4;
    && !Full(c, i) && o <= |c.file| && Shaped(c, p)
    && match ph
       case Seek => r == Reader(o, i)
       case PlaneY => r == Reader(o, i)
       case PlaneU => r == Reader(Min(|c.file|, o + n), i) && |c.file| > o
       case PlaneV => r == Reader(Min(|c.file|, o + n + q), i) && |c.file| > o + n
       case Done(status) => status == Status(c, i) && !Full(c, r.next)
  }

  predicate Underway(c: Config, r: Reader, p: Pic, i: nat, ph: Phase) { Midway(c, r, p, i, ph) || Short(c, r, p, i, ph) }

  lemma FreadFull(file: Octets, pos: nat, n: nat, plane: Octets)
    requires pos + n <= |file| && |plane| == n && n > 0
    ensures Fread(file, pos, n, plane) == (file[pos..pos + n], n)
  {
    assert plane[n..] == [] && file[pos..pos + n] + [] == file[pos..pos + n];
  }

  lemma FreadShort(file: Octets, pos: nat, n: nat, plane: Octets)
    requires pos <= |file| && |plane| == n
    ensures var (p, got) := Fread(file, pos, n, plane);
      |p| == n && pos + got == Min(|file|, pos + n) && (got == 0 <==> n == 0 || pos == |file|)
  {}

  lemma StepMidway(c: Config, r: Reader, p: Pic, i: nat, ph: Phase)
    requires c.pixels % 4 == 0 && c.pixels > 0 && Midway(c, r, p, i, ph)
    ensures var (r', p', ph') := ReadStep(c, r, p, i, ph); Midway(c, r', p', i, ph')
  {
    hide Offset, Fread;
    var o, n, q := Offset(c.pixels, i), c.pixels, c.pixels / 4;
    match ph
    case PlaneY => FreadFull(c.file, r.pos, n, p.y);
    case PlaneU => FreadFull(c.file, r.pos, q, p.u);
    case PlaneV =>
      FreadFull(c.file, r.pos, q, p.v);
      NextOffset(c.pixels, i);
    case _ =>
  }

  /** Past the end of the file there is no full frame either. */
  lemma NoneBehind(c: Config, i: nat)
    requires c.pixels % 4 == 0 && !Full(c, i)
    ensures !Full(c, i + 1)
  {
    hide Offset;
    NextOffset(c.pixels, i);
  }

  lemma StepShort(c: Config, r: Reader, p: Pic, i: nat, ph: Phase)
    requires c.pixels % 4 == 0 && c.pixels > 0 && Short(c, r, p, i, ph)
    ensures var (r', p', ph') := ReadStep(c, r, p, i, ph); Short(c, r', p', i, ph')
  {
    hide Offset, Fread;
    var n, q := c.pixels, c.pixels / 4;
    match ph
    case PlaneY => FreadShort(c.file, r.pos, n, p.y);
    case PlaneU => FreadShort(c.file, r.pos, q, p.u);
    case PlaneV =>
      FreadShort(c.file, r.pos, q, p.v);
      NoneBehind(c, i);
    case _ =>
  }

  lemma StepUnderway(c: Config, r: Reader, p: Pic, i: nat, ph: Phase)
    requires c.pixels % 4 == 0 && c.pixels > 0 && Underway(c, r, p, i, ph)
    ensures var (r', p', ph') := ReadStep(c, r, p, i, ph); Underway(c, r', p', i, ph')
  {
    hide Midway, Short, ReadStep;
    if Midway(c, r, p, i, ph) { StepMidway(c, r, p, i, ph); } else { StepShort(c, r, p, i, ph); }
  }

  // ---------------------------------------------------------------- two threads

  /** Where the caller stands inside read_frame_thread. */
  datatype Caller = Idle | Joining(i: nat) | Choosing(i: nat) | Swapping(i: nat) | Reading(i: nat, phase: Phase) | Starting(i: nat)

  datatype Worker = NoWorker | Working(i: nat, phase: Phase)

  /** h->pic, *p_pic, h->next_frame (-1 for none), the result so far, and what has been returned. */
  datatype State = State(
    reader: Reader, pic: Pic, mine: Pic, next: int, ret: int, caller: Caller, worker: Worker, log: seq<(nat, Pic, int)>)

  datatype Event = Call(i: nat, buffer: Pic) | CallerRuns | WorkerRuns

  /** The bitwise or of statuses, which are 0 or -1. */
  function Or(a: int, b: int): (r: int)
    ensures r == 0 <==> a == 0 && b == 0
    ensures (a == 0 || a == -1) && (b == 0 || b == -1) ==> -1 <= r <= 0
  {
    if a == 0 then b else if b == 0 then a else -1
  }

  function CallerStep(c: Config, s: State): State {
    match s.caller
    case Idle => s
    case Joining(i) =>
      if s.worker.Working? && s.worker.phase.Done? then
        s.(worker := NoWorker, ret := Or(s.ret, s.worker.phase.status), caller := Choosing(i))
      else s
    case Choosing(i) => s.(caller := if s.next == i then Swapping(i) else Reading(i, Seek))
    case Swapping(i) => s.(mine := s.pic, pic := s.mine, caller := Starting(i))
    case Reading(i, ph) =>
      var (r, p, ph') := ReadStep(c, s.reader, s.mine, i, ph);
      if ph.Done? then s.(ret := Or(s.ret, ph.status), caller := Starting(i))
      else s.(reader := r, mine := p, caller := Reading(i, ph'))
    case Starting(i) =>
      var t := s.(caller := Idle, log := s.log + [(i, s.mine, s.ret)]);
      if c.total == 0 || i + 1 < c.total then t.(next := i + 1, worker := Working(i + 1, Seek)) else t.(next := -1)
  }

  function Step(c: Config, s: State, ev: Event): State {
    match ev
    case Call(i, buffer) =>
      if !s.caller.Idle? then s
      else s.(mine := buffer, ret := 0, caller := if s.next >= 0 then Joining(i) else Choosing(i))
    case CallerRuns => CallerStep(c, s)
    case WorkerRuns =>
      if s.worker.NoWorker? then s
      else
        var (r, p, ph) := ReadStep(c, s.reader, s.pic, s.worker.i, s.worker.phase);
        s.(reader := r, pic := p, worker := Working(s.worker.i, ph))
  }

  function Run(c: Config, s: State, evs: seq<Event>): State
    decreases |evs|
  {
    if evs == [] then s else Step(c, Run(c, s, evs[..|evs| - 1]), evs[|evs| - 1])
  }

  /** open_file_thread: nothing is being read, the reader stands at the start. */
  function Opened(pic: Pic): State {
    State(Reader(0, 0), pic, pic, -1, 0, Idle, NoWorker, [])
  }

  // ---------------------------------------------------------------- what holds in every reachable state

  /** Frame data is whole samples, and the count, when known, is the file's. */
  predicate Usable(c: Config) {
    c.pixels > 0 && c.pixels % 4 == 0 && (c.total == 0 || c.total == FrameCount(|c.file|, c.pixels))
  }

  /** Requests name frames of the file. */
  predicate Asks(c: Config, ev: Event) { ev.Call? ==> Shaped(c, ev.buffer) && Full(c, ev.i) }

  predicate Permitted(c: Config, evs: seq<Event>) { forall k | 0 <= k < |evs| :: Asks(c, evs[k]) }

  /** The caller touches the shared picture or the shared reader now. */
  predicate CallerUses(s: State) { s.caller.Swapping? || s.caller.Reading? }

  predicate WorkerUses(s: State) { s.worker.Working? && !s.worker.phase.Done? }

  /** A worker has been started and not joined. */
  predicate Outstanding(s: State) { s.worker.Working? }

  /** The frame read ahead after frame i has been returned, -1 for none. */
  function Ahead(c: Config, i: nat): int { if c.total == 0 || i + 1 < c.total then i + 1 else -1 }

  /** What the read ahead of a frame adds to the status of the call after it. */
  function Owed(c: Config, next: int): int { if next >= 0 then Status(c, next) else 0 }

  function LastAhead(c: Config, log: seq<(nat, Pic, int)>): int {
    if log == [] then -1 else Ahead(c, log[|log| - 1].0)
  }

  /** The read ahead has been joined: its picture is there if the frame is. */
  predicate Joined(c: Config, s: State) {
    if s.next >= 0 && Full(c, s.next) then s.pic == Direct(c, s.next) && s.reader == Past(c, s.next) else Aligned(c, s.reader)
  }

  /** The read ahead goes on. */
  predicate Fetching(c: Config, s: State) {
    s.next >= 0 && s.worker.Working? && s.worker.i == s.next && Underway(c, s.reader, s.pic, s.worker.i, s.worker.phase)
  }

  predicate CallerAt(c: Config, s: State) {
    match s.caller
    case Idle => if s.next >= 0 then Fetching(c, s) else !Outstanding(s) && Aligned(c, s.reader)
    case Joining(i) => Full(c, i) && Fetching(c, s) && s.ret == 0
    case Choosing(i) => Full(c, i) && !Outstanding(s) && Joined(c, s) && s.ret == Owed(c, s.next)
    case Swapping(i) => Full(c, i) && !Outstanding(s) && Joined(c, s) && s.ret == Owed(c, s.next) && s.next == i
    case Reading(i, ph) => Full(c, i) && !Outstanding(s) && Midway(c, s.reader, s.mine, i, ph) && s.ret == Owed(c, s.next)
    case Starting(i) => Full(c, i) && !Outstanding(s) && s.reader == Past(c, i) && s.mine == Direct(c, i) && s.ret == Owed(c, s.next)
  }

  predicate Inv(c: Config, s: State) {
    && Shaped(c, s.pic) && Shaped(c, s.mine) && s.next == LastAhead(c, s.log) && CallerAt(c, s) && AllGood(c, s.log)
  }

  /** One picture returned: the one in the file, with the status that the read ahead before it owed. */
  predicate Good(c: Config, log: seq<(nat, Pic, int)>, k: nat)
    requires k < |log|
  {
    Full(c, log[k].0) && log[k].1 == Direct(c, log[k].0) && log[k].2 == Owed(c, LastAhead(c, log[..k]))
  }

  predicate AllGood(c: Config, log: seq<(nat, Pic, int)>) { forall k | 0 <= k < |log| :: Good(c, log, k) }

  lemma GoodSnoc(c: Config, log: seq<(nat, Pic, int)>, e: (nat, Pic, int))
    requires AllGood(c, log) && Full(c, e.0) && e.1 == Direct(c, e.0) && e.2 == Owed(c, LastAhead(c, log))
    ensures AllGood(c, log + [e])
  {
    hide Direct, Full, Owed, LastAhead;
    var all := log + [e];
    forall k | 0 <= k < |all| ensures Good(c, all, k) {
      assert all[..k] == log[..k];
      if k == |log| { assert log[..k] == log; } else { assert Good(c, log, k); }
    }
  }

  /** The frame after a returned one is all there, or reading on into it starts where it would. */
  lemma StartsAhead(c: Config, i: nat, p: Pic)
    requires Usable(c) && Full(c, i) && Shaped(c, p)
    ensures Underway(c, Past(c, i), p, i + 1, Seek) && Aligned(c, Past(c, i))
  {
    hide Offset;
    NextOffset(c.pixels, i);
  }

  lemma UnderwayDone(c: Config, r: Reader, p: Pic, i: nat, ph: Phase)
    requires Usable(c) && Underway(c, r, p, i, ph) && ph.Done?
    ensures ph.status == Status(c, i)
    ensures if Full(c, i) then p == Direct(c, i) && r == Past(c, i) else Aligned(c, r)
  {
    hide Offset, Direct;
  }

  lemma CallerKeeps(c: Config, s: State)
    requires Usable(c) && Inv(c, s)
    ensures Inv(c, CallerStep(c, s))
  {
    hide Offset, ReadStep, Direct, Full, Underway, Midway, Aligned, AllGood, Status, FrameCount;
    match s.caller
    case Joining(i) =>
      if s.worker.phase.Done? { UnderwayDone(c, s.reader, s.pic, s.worker.i, s.worker.phase); }
    case Choosing(i) => ReadsFrom(c, s, i);
    case Swapping(i) => SwapGives(c, i, s.pic);
    case Reading(i, ph) =>
      StepMidway(c, s.reader, s.mine, i, ph);
      ReadShaped(c, s.reader, s.mine, i, ph);
    case Starting(i) =>
      StartsAhead(c, i, s.pic);
      LastIs(c, s.log, (i, s.mine, s.ret));
      GoodSnoc(c, s.log, (i, s.mine, s.ret));
    case _ =>
  }

  lemma LastIs(c: Config, log: seq<(nat, Pic, int)>, e: (nat, Pic, int))
    ensures LastAhead(c, log + [e]) == Ahead(c, e.0)
  {}

  lemma ReadsFrom(c: Config, s: State, i: nat)
    requires Full(c, i) && Joined(c, s) && Shaped(c, s.mine)
    ensures Midway(c, s.reader, s.mine, i, Seek)
  {
    hide Offset, Direct;
  }

  lemma SwapGives(c: Config, i: nat, p: Pic)
    requires Full(c, i) && p == Direct(c, i)
    ensures Shaped(c, p)
  {}

  lemma ReadShaped(c: Config, r: Reader, p: Pic, i: nat, ph: Phase)
    requires c.pixels % 4 == 0 && c.pixels > 0 && Midway(c, r, p, i, ph)
    ensures Shaped(c, ReadStep(c, r, p, i, ph).1)
    ensures ph.Done? ==> ph.status == 0 && r == Past(c, i) && p == Direct(c, i)
  {
    hide Offset, ReadStep, Direct;
    StepMidway(c, r, p, i, ph);
  }

  lemma UnderwayShaped(c: Config, r: Reader, p: Pic, i: nat, ph: Phase)
    requires Underway(c, r, p, i, ph)
    ensures Shaped(c, p)
  {
    hide Offset, Direct;
  }

  lemma WorkerKeeps(c: Config, s: State)
    requires Usable(c) && Inv(c, s) && s.worker.Working?
    ensures Inv(c, Step(c, s, WorkerRuns))
  {
    hide Offset, ReadStep, Direct, Full, Underway, Midway, Aligned, AllGood, Status, FrameCount, Shaped;
    StepUnderway(c, s.reader, s.pic, s.worker.i, s.worker.phase);
    var (r, p, ph) := ReadStep(c, s.reader, s.pic, s.worker.i, s.worker.phase);
    UnderwayShaped(c, r, p, s.worker.i, ph);
  }

  lemma StepKeeps(c: Config, s: State, ev: Event)
    requires Usable(c) && Inv(c, s) && Asks(c, ev)
    ensures Inv(c, Step(c, s, ev))
  {
    hide Offset, ReadStep, Direct, CallerStep, AllGood, Underway, Full, Aligned, Midway, Status;
    match ev
    case Call(i, buffer) =>
    case CallerRuns => CallerKeeps(c, s);
    case WorkerRuns => if s.worker.Working? { WorkerKeeps(c, s); }
  }

  lemma {:induction false} RunKeeps(c: Config, pic: Pic, evs: seq<Event>)
    requires Usable(c) && Shaped(c, pic) && Permitted(c, evs)
    ensures Inv(c, Run(c, Opened(pic), evs))
    decreases |evs|
  {
    hide Step, Inv, Asks;
    if evs == [] {
      StartsWell(c, pic);
    } else {
      RunKeeps(c, pic, evs[..|evs| - 1]);
      StepKeeps(c, Run(c, Opened(pic), evs[..|evs| - 1]), evs[|evs| - 1]);
    }
  }

  lemma StartsWell(c: Config, pic: Pic)
    requires Usable(c) && Shaped(c, pic)
    ensures Inv(c, Opened(pic))
  {}

  /**
   * The picture that stands in the file; the status is 0 unless the count is unknown and the frame read ahead
   * after the request before was not there.
   */
  predicate Delivered(c: Config, log: seq<(nat, Pic, int)>, k: nat)
    requires k < |log|
  {
    && Full(c, log[k].0) && log[k].1 == Direct(c, log[k].0)
    && log[k].2 == if k == 0 || c.total != 0 || Arrives(c, log[k - 1].0 + 1) then 0 else -1
  }

  /** Over every interleaving of caller and worker, and every sequence of requests for frames of the file. */
  lemma Transparent(c: Config, pic: Pic, evs: seq<Event>)
    requires Usable(c) && Shaped(c, pic) && Permitted(c, evs)
    ensures var log := Run(c, Opened(pic), evs).log; forall k | 0 <= k < |log| :: Delivered(c, log, k)
  {
    hide Run, Direct, Full, Arrives, Usable;
    RunKeeps(c, pic, evs);
    var log := Run(c, Opened(pic), evs).log;
    forall k | 0 <= k < |log| ensures Delivered(c, log, k) {
      assert Good(c, log, k);
      if k > 0 { AheadArrives(c, log, k - 1); } else { assert log[..0] == []; }
    }
  }

  lemma AheadArrives(c: Config, log: seq<(nat, Pic, int)>, j: nat)
    requires Usable(c) && j < |log|
    ensures Owed(c, LastAhead(c, log[..j + 1])) == if c.total != 0 || Arrives(c, log[j].0 + 1) then 0 else -1
  {
    hide Arrives, FrameCount;
    var i := log[j].0;
    if c.total != 0 && i + 1 < c.total {
      CountedIsFull(c, i + 1);
      FullArrives(c, i + 1);
    }
  }

  lemma FullArrives(c: Config, i: nat)
    requires Full(c, i) && c.pixels >= 4
    ensures Arrives(c, i)
  {
    hide Offset;
  }

  // ---------------------------------------------------------------- control, whatever the file holds

  /** Which threads can be where; nothing about files or pictures. */
  predicate Control(s: State) {
    && (s.caller.Idle? || s.caller.Joining? ==> (Outstanding(s) <==> s.next >= 0))
    && (s.caller.Joining? ==> Outstanding(s))
    && (!s.caller.Idle? && !s.caller.Joining? ==> !Outstanding(s))
  }

  lemma {:induction false} RunControl(c: Config, pic: Pic, evs: seq<Event>)
    ensures Control(Run(c, Opened(pic), evs))
    decreases |evs|
  {
    hide ReadStep;
    if evs != [] { RunControl(c, pic, evs[..|evs| - 1]); }
  }

  /**
   * For every file and every request, short and failing reads included: in no reachable state do both threads
   * use the picture or the reader, and between calls a worker is out exactly when next_frame is not negative.
   */
  lemma Exclusive(c: Config, pic: Pic, evs: seq<Event>)
    ensures var s := Run(c, Opened(pic), evs);
      && !(CallerUses(s) && WorkerUses(s))
      && (s.caller.Idle? || s.caller.Joining? ==> (Outstanding(s) <==> s.next >= 0))
  {
    hide Run;
    RunControl(c, pic, evs);
  }

  /** Small steps left until the call in progress returns. */
  function Remaining(s: State): nat {
    PhaseLeft(if s.worker.Working? && s.caller.Joining? then s.worker.phase else Done(0)) +
    match s.caller
    case Idle => 0
    case Joining(_) => 9
    case Choosing(_) => 8
    case Swapping(_) => 2
    case Reading(_, ph) => 2 + PhaseLeft(ph)
    case Starting(_) => 1
  }

  function PhaseLeft(ph: Phase): nat {
    match ph case Seek => 4 case PlaneY => 3 case PlaneU => 2 case PlaneV => 1 case Done(_) => 0
  }

  /** A call never hangs: for every file and every run, one of the threads brings it closer to its return. */
  lemma NeverStuck(c: Config, pic: Pic, evs: seq<Event>)
    ensures var s := Run(c, Opened(pic), evs);
      !s.caller.Idle? ==> Remaining(Step(c, s, CallerRuns)) < Remaining(s) || Remaining(Step(c, s, WorkerRuns)) < Remaining(s)
  {
    hide Run, ReadStep;
    RunControl(c, pic, evs);
    var s := Run(c, Opened(pic), evs);
    if s.caller.Reading? && !s.caller.phase.Done? { StepLeft(c, s.reader, s.mine, s.caller.i, s.caller.phase); }
    if s.worker.Working? && !s.worker.phase.Done? { StepLeft(c, s.reader, s.pic, s.worker.i, s.worker.phase); }
  }

  // ---------------------------------------------------------------- requests and answers

  /** The frames asked for, in order; a request while another is in progress is none. */
  function Asked(c: Config, s: State, evs: seq<Event>): seq<nat>
    decreases |evs|
  {
    if evs == [] then []
    else
      var front, last := evs[..|evs| - 1], evs[|evs| - 1];
      Asked(c, s, front) + (if last.Call? && Run(c, s, front).caller.Idle? then [last.i] else [])
  }

  function Answered(log: seq<(nat, Pic, int)>): (r: seq<nat>)
    ensures |r| == |log| && forall k | 0 <= k < |log| :: r[k] == log[k].0
  {
    seq(|log|, k requires 0 <= k < |log| => log[k].0)
  }

  /** Over every run the pictures returned answer the requests made, one each and in order; one may be in progress. */
  lemma {:induction false} AnswersRequests(c: Config, pic: Pic, evs: seq<Event>)
    ensures var s := Run(c, Opened(pic), evs);
      Asked(c, Opened(pic), evs) == Answered(s.log) + (if s.caller.Idle? then [] else [s.caller.i])
    decreases |evs|
  {
    hide ReadStep;
    if evs == [] {
      assert Answered([]) == [];
    } else {
      var front, last := evs[..|evs| - 1], evs[|evs| - 1];
      AnswersRequests(c, pic, front);
      var s := Run(c, Opened(pic), front);
      if last == CallerRuns && s.caller.Starting? {
        AnswersSnoc(s.log, (s.caller.i, s.mine, s.ret));
      }
    }
  }

  lemma AnswersSnoc(log: seq<(nat, Pic, int)>, e: (nat, Pic, int))
    ensures Answered(log + [e]) == Answered(log) + [e.0]
  {}

  // ---------------------------------------------------------------- the reader itself

  /** read_frame_yuv in one go. */
  function ReadFrom(c: Config, r: Reader, p: Pic, i: nat, ph: Phase): (Reader, Pic, int)
    decreases PhaseLeft(ph)
  {
    if ph.Done? then (r, p, ph.status)
    else var (r', p', ph') := ReadStep(c, r, p, i, ph); ReadFrom(c, r', p', i, ph')
  }

  /** Frames of the file are read as they stand there, in any order, and the reader ends at the next one. */
  lemma {:induction false} ReadsDirect(c: Config, r: Reader, p: Pic, i: nat, ph: Phase)
    requires c.pixels > 0 && c.pixels % 4 == 0 && Midway(c, r, p, i, ph)
    ensures var (r', p', status) := ReadFrom(c, r, p, i, ph); status == 0 && p' == Direct(c, i) && r' == Past(c, i)
    decreases PhaseLeft(ph)
  {
    hide ReadStep, Midway, Direct;
    if ph.Done? {
      MidwayDone(c, r, p, i, ph);
    } else {
      StepMidway(c, r, p, i, ph);
      StepLeft(c, r, p, i, ph);
      var (r', p', ph') := ReadStep(c, r, p, i, ph);
      ReadsDirect(c, r', p', i, ph');
    }
  }

  lemma MidwayDone(c: Config, r: Reader, p: Pic, i: nat, ph: Phase)
    requires Midway(c, r, p, i, ph) && ph.Done?
    ensures ph.status == 0 && Full(c, i) && p == Direct(c, i) && r == Past(c, i)
  {}

  lemma StepLeft(c: Config, r: Reader, p: Pic, i: nat, ph: Phase)
    requires !ph.Done?
    ensures PhaseLeft(ReadStep(c, r, p, i, ph).2) < PhaseLeft(ph)
  {}

  /** The steps of a whole read, in order. */
  lemma ReadWhole(c: Config, r: Reader, p: Pic, i: nat)
    ensures ReadFrom(c, r, p, i, Seek) ==
      var r0 := if i != r.next then r.(pos := Offset(c.pixels, i)) else r;
      var (y, n0) := Fread(c.file, r0.pos, c.pixels, p.y);
      var (r1, p1) := (r0.(pos := r0.pos + n0), p.(y := y));
      if n0 == 0 then (r1, p1, -1)
      else
        var (u, n1) := Fread(c.file, r1.pos, c.pixels / 4, p1.u);
        var (r2, p2) := (r1.(pos := r1.pos + n1), p1.(u := u));
        if n1 == 0 then (r2, p2, -1)
        else
          var (v, n2) := Fread(c.file, r2.pos, c.pixels / 4, p2.v);
          if n2 == 0 then (r2, p2.(v := v), -1) else (Reader(r2.pos + n2, i + 1), p2.(v := v), 0)
  {
    hide Fread, Offset;
  }

  /** The file handle of one video: read_frame_yuv moves its position and its next frame. */
  class YuvInput {
    const c: Config
    var reader: Reader

    constructor (c: Config)
      ensures this.c == c && reader == Reader(0, 0)
    {
      this.c := c;
      reader := Reader(0, 0);
    }

    method ReadFrame(pic: Pic, i: nat) returns (p: Pic, status: int)
      modifies this
      ensures (reader, p, status) == ReadFrom(c, old(reader), pic, i, Seek)
    {
      hide Fread, Offset, ReadFrom;
      ReadWhole(c, reader, pic, i);
      p := pic;
      if i != reader.next { reader := reader.(pos := Offset(c.pixels, i)); }
      var (y, n0) := Fread(c.file, reader.pos, c.pixels, p.y);
      reader, p := reader.(pos := reader.pos + n0), p.(y := y);
      if n0 == 0 { return p, -1; }
      var (u, n1) := Fread(c.file, reader.pos, c.pixels / 4, p.u);
      reader, p := reader.(pos := reader.pos + n1), p.(u := u);
      if n1 == 0 { return p, -1; }
      var (v, n2) := Fread(c.file, reader.pos, c.pixels / 4, p.v);
      p := p.(v := v);
      if n2 == 0 { return p, -1; }
      reader := Reader(reader.pos + n2, i + 1);
      status := 0;
    }
  }
}
