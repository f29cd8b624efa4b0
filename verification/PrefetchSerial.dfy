/** The two threads do what one would do that made the same reads one after the other. */
module PrefetchSerial {
  import opened Bytes
  import opened Prefetch

  /** One thread: its reader and shared picture, the frame read ahead (-1 for none) with its status, and what it returned. */
  datatype Serial = Serial(reader: Reader, pic: Pic, next: int, owed: int, log: seq<(nat, Pic, int)>)

  /** The picture and status of one request, and the shared picture after it. */
  function Answer(c: Config, t: Serial, i: nat, buffer: Pic): (Reader, Pic, Pic, int) {
    if t.next == i then (t.reader, buffer, t.pic, t.owed)
    else var (r, p, status) := ReadFrom(c, t.reader, buffer, i, Seek); (r, t.pic, p, Or(t.owed, status))
  }

  /** A request is answered, and then the next frame is read ahead. */
  function Serve(c: Config, t: Serial, i: nat, buffer: Pic): Serial {
    var (r, shared, mine, ret) := Answer(c, t, i, buffer);
    var log := t.log + [(i, mine, ret)];
    if c.total == 0 || i + 1 < c.total then
      var (r', p, status) := ReadFrom(c, r, shared, i + 1, Seek);
      Serial(r', p, i + 1, status, log)
    else Serial(r, shared, -1, 0, log)
  }

  function ServeAll(c: Config, pic: Pic, rs: seq<(nat, Pic)>): Serial {
    if rs == [] then Serial(Reader(0, 0), pic, -1, 0, [])
    else var last := rs[|rs| - 1]; Serve(c, ServeAll(c, pic, rs[..|rs| - 1]), last.0, last.1)
  }

  /** The requests made, with the buffers handed over; a request while another is in progress is none. */
  function Requests(c: Config, s: State, evs: seq<Event>): seq<(nat, Pic)>
    decreases |evs|
  {
    if evs == [] then []
    else
      var front, last := evs[..|evs| - 1], evs[|evs| - 1];
      Requests(c, s, front) + (if last.Call? && Run(c, s, front).caller.Idle? then [(last.i, last.buffer)] else [])
  }

  // ---------------------------------------------------------------- the two threads against the one

  /** The read ahead will end as the one thread's did. */
  predicate AheadMatches(c: Config, s: State, t: Serial) {
    if s.next >= 0 then
      && s.worker.Working? && s.worker.i == s.next
      && ReadFrom(c, s.reader, s.pic, s.next, s.worker.phase) == (t.reader, t.pic, t.owed)
    else s.worker.NoWorker? && (s.reader, s.pic, 0) == (t.reader, t.pic, t.owed)
  }

  predicate JoinedMatches(s: State, t: Serial) { s.worker.NoWorker? && (s.reader, s.pic) == (t.reader, t.pic) && s.ret == t.owed }

  predicate Matches(c: Config, s: State, t: Serial, buffer: Pic) {
    && s.log == t.log && s.next == t.next
    && match s.caller
       case Idle => AheadMatches(c, s, t)
       case Joining(i) => AheadMatches(c, s, t) && s.next >= 0 && s.mine == buffer && s.ret == 0
       case Choosing(i) => JoinedMatches(s, t) && s.mine == buffer
       case Swapping(i) => JoinedMatches(s, t) && s.mine == buffer && s.next == i
       case Reading(i, ph) =>
         && s.worker.NoWorker? && s.pic == t.pic && s.ret == t.owed && s.next != i
         && ReadFrom(c, s.reader, s.mine, i, ph) == ReadFrom(c, t.reader, buffer, i, Seek)
       case Starting(i) => s.worker.NoWorker? && (s.reader, s.pic, s.mine, s.ret) == Answer(c, t, i, buffer)
  }

  lemma ReadOn(c: Config, r: Reader, p: Pic, i: nat, ph: Phase)
    ensures var (r', p', ph') := ReadStep(c, r, p, i, ph); ReadFrom(c, r', p', i, ph') == ReadFrom(c, r, p, i, ph)
    ensures ph.Done? ==> ReadFrom(c, r, p, i, ph) == (r, p, ph.status)
  {
    hide Fread, Offset;
  }

  lemma CallMatches(c: Config, s: State, t: Serial, buffer: Pic, i: nat, b: Pic)
    requires Matches(c, s, t, buffer)
    ensures Matches(c, Step(c, s, Call(i, b)), t, if s.caller.Idle? then b else buffer)
  {
    hide ReadFrom, Answer;
  }

  lemma WorkerMatches(c: Config, s: State, t: Serial, buffer: Pic)
    requires Matches(c, s, t, buffer)
    ensures Matches(c, Step(c, s, WorkerRuns), t, buffer)
  {
    hide ReadFrom, Answer, ReadStep;
    if s.worker.Working? { ReadOn(c, s.reader, s.pic, s.worker.i, s.worker.phase); }
  }

  /** A step of the caller: the same request goes on, or it is answered as the one thread answers it. */
  lemma CallerMatches(c: Config, s: State, t: Serial, buffer: Pic)
    requires Matches(c, s, t, buffer)
    ensures Matches(c, Step(c, s, CallerRuns), if s.caller.Starting? then Serve(c, t, s.caller.i, buffer) else t, buffer)
  {
    hide ReadFrom, ReadStep;
    match s.caller
    case Joining(i) => ReadOn(c, s.reader, s.pic, s.worker.i, s.worker.phase);
    case Reading(i, ph) => ReadOn(c, s.reader, s.mine, i, ph);
    case _ =>
  }

  /** The request in progress is the last one made, and the others have been answered. */
  lemma {:induction false} RunMatches(c: Config, pic: Pic, evs: seq<Event>)
    ensures var s, rs := Run(c, Opened(pic), evs), Requests(c, Opened(pic), evs);
      && |rs| == |s.log| + (if s.caller.Idle? then 0 else 1)
      && (!s.caller.Idle? ==> s.caller.i == rs[|s.log|].0)
      && Matches(c, s, ServeAll(c, pic, rs[..|s.log|]), if s.caller.Idle? then pic else rs[|s.log|].1)
    decreases |evs|
  {
    hide Serve, ReadStep;
    var none: seq<(nat, Pic)> := [];
    if evs == [] {
      assert none[..0] == none;
    } else {
      var front, ev := evs[..|evs| - 1], evs[|evs| - 1];
      RunMatches(c, pic, front);
      var s, rs := Run(c, Opened(pic), front), Requests(c, Opened(pic), front);
      var n := |s.log|;
      var t, buffer := ServeAll(c, pic, rs[..n]), if s.caller.Idle? then pic else rs[n].1;
      hide Matches;
      match ev
      case Call(i, b) =>
        CallMatches(c, s, t, buffer, i, b);
        if s.caller.Idle? { assert rs[..n] == rs && (rs + [(i, b)])[..n] == rs; } else { assert rs + none == rs; }
      case CallerRuns =>
        CallerMatches(c, s, t, buffer);
        assert rs + none == rs;
        if s.caller.Starting? {
          assert rs[..n + 1] == rs && rs[..|rs| - 1] == rs[..n];
          BufferFree(c, Step(c, s, ev), ServeAll(c, pic, rs), buffer, pic);
        }
        BufferFree(c, Step(c, s, ev), t, buffer, pic);
      case WorkerRuns =>
        WorkerMatches(c, s, t, buffer);
        assert rs + none == rs;
    }
  }

  /** Between requests there is no buffer to speak of. */
  lemma BufferFree(c: Config, s: State, t: Serial, b: Pic, d: Pic)
    ensures s.caller.Idle? && Matches(c, s, t, b) ==> Matches(c, s, t, d)
  {
    hide ReadFrom;
  }

  /**
   * For every file, every request and every interleaving, short and failing reads included: the pictures and
   * statuses returned are those of one thread that makes the same reads one after the other.
   */
  lemma Serialized(c: Config, pic: Pic, evs: seq<Event>)
    ensures var log, rs := Run(c, Opened(pic), evs).log, Requests(c, Opened(pic), evs);
      |log| <= |rs| <= |log| + 1 && log == ServeAll(c, pic, rs[..|log|]).log
  {
    hide Run, Requests, ServeAll;
    RunMatches(c, pic, evs);
  }

  /** So two runs in which the same requests were answered returned the same, however the threads took turns. */
  lemma ScheduleFree(c: Config, pic: Pic, xs: seq<Event>, ys: seq<Event>)
    ensures var a, b := Run(c, Opened(pic), xs).log, Run(c, Opened(pic), ys).log;
      var p, q := Requests(c, Opened(pic), xs), Requests(c, Opened(pic), ys);
      |a| <= |p| && |b| <= |q| && (p[..|a|] == q[..|b|] ==> a == b)
  {
    hide Run, Requests, ServeAll;
    Serialized(c, pic, xs);
    Serialized(c, pic, ys);
  }

  // ---------------------------------------------------------------- which frames of the file are read

  /** Where any sequence of reads leaves the reader: at the frame that would come next, or past the end. */
  predicate Positioned(c: Config, r: Reader) { r.pos == Offset(c.pixels, r.next) || r.pos >= |c.file| }

  lemma FreadPast(file: Octets, pos: nat, n: nat, plane: Octets)
    requires n > 0
    ensures var got := Fread(file, pos, n, plane).1;
      && (got == 0 <==> pos >= |file|) && (got < n ==> pos + got >= |file|)
      && (got == 0 && |plane| == n ==> Fread(file, pos, n, plane).0 == plane)
  {}

  lemma ReadPositions(c: Config, r: Reader, p: Pic, i: nat)
    requires c.pixels > 0 && c.pixels % 4 == 0 && Positioned(c, r)
    ensures Positioned(c, ReadFrom(c, r, p, i, Seek).0)
  {
    hide Fread, Offset, ReadFrom;
    ReadWhole(c, r, p, i);
    NextOffset(c.pixels, i);
    var q := c.pixels / 4;
    var r0 := if i != r.next then r.(pos := Offset(c.pixels, i)) else r;
    FreadPast(c.file, r0.pos, c.pixels, p.y);
    var n0 := Fread(c.file, r0.pos, c.pixels, p.y).1;
    FreadPast(c.file, r0.pos + n0, q, p.u);
    var n1 := Fread(c.file, r0.pos + n0, q, p.u).1;
    FreadPast(c.file, r0.pos + n0 + n1, q, p.v);
  }

  /**
   * A frame that is all there is read unless it is the one expected next and the reader is past the end; then
   * nothing is read and the call fails.
   */
  lemma ReadsExactly(c: Config, r: Reader, p: Pic, i: nat)
    requires c.pixels > 0 && c.pixels % 4 == 0 && Positioned(c, r) && Full(c, i) && Shaped(c, p)
    ensures var (r', p', status) := ReadFrom(c, r, p, i, Seek);
      if i == r.next && r.pos >= |c.file| then (r', p', status) == (r, p, -1)
      else (r', p', status) == (Past(c, i), Direct(c, i), 0)
  {
    hide Fread, Offset, Direct, ReadFrom;
    if i == r.next && r.pos >= |c.file| {
      ReadWhole(c, r, p, i);
      FreadPast(c.file, r.pos, c.pixels, p.y);
    } else {
      ReadsDirect(c, if i != r.next then r.(pos := Offset(c.pixels, i)) else r, p, i, PlaneY);
      ReadOn(c, r, p, i, Seek);
    }
  }

  /** So after a failed read elsewhere the frame expected next is missed, although it is in the file. */
  lemma MissesNext(c: Config, r: Reader, p: Pic, i: nat, p': Pic)
    requires c.pixels > 0 && c.pixels % 4 == 0 && Positioned(c, r) && Full(c, r.next) && Shaped(c, p')
    requires i != r.next && Offset(c.pixels, i) >= |c.file|
    ensures var (r', _, status) := ReadFrom(c, r, p, i, Seek);
      status == -1 && ReadFrom(c, r', p', r.next, Seek) == (r', p', -1)
  {
    hide Fread, Offset, ReadFrom;
    ReadWhole(c, r, p, i);
    FreadPast(c.file, Offset(c.pixels, i), c.pixels, p.y);
    ReadPositions(c, r, p, i);
    ReadsExactly(c, ReadFrom(c, r, p, i, Seek).0, p', r.next);
  }

  /** The one thread's reader is always positioned so. */
  lemma {:induction false} ServePositions(c: Config, pic: Pic, rs: seq<(nat, Pic)>)
    requires c.pixels > 0 && c.pixels % 4 == 0
    ensures Positioned(c, ServeAll(c, pic, rs).reader)
    decreases |rs|
  {
    hide ReadFrom, Positioned;
    if rs == [] {
      StartPositioned(c);
    } else {
      var last := rs[|rs| - 1];
      ServePositions(c, pic, rs[..|rs| - 1]);
      var t := ServeAll(c, pic, rs[..|rs| - 1]);
      ReadPositions(c, t.reader, last.1, last.0);
      var (r, shared, _, _) := Answer(c, t, last.0, last.1);
      ReadPositions(c, r, shared, last.0 + 1);
    }
  }

  lemma StartPositioned(c: Config)
    ensures Positioned(c, Reader(0, 0))
  {}
}
