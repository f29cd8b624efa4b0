/** The muxer handle: it forwards NAL units to the writer as the call lists of AvcMux say. */
module MkvMuxer {
  import opened Bytes
  import opened Ebml
  import opened MatroskaFormat
  import opened MatroskaMuxing
  import opened MatroskaRuns
  import opened MatroskaWriter
  import opened AvcMux

  /** One more call at the end of a run. */
  lemma RunSnoc(calls: seq<Call>, c: Call)
    requires ValidCalls(NOTHING, calls) && ValidCall(RecordAll(NOTHING, calls), c)
    ensures ValidCalls(NOTHING, calls + [c])
    ensures Exec(Init(), calls, NOTHING).timescale != 0
    ensures Exec(Init(), calls + [c], NOTHING) == Step(Exec(Init(), calls, NOTHING), c)
  {
    hide Exec, ValidCall, Step;
    OneCall(RecordAll(NOTHING, calls), [c]);
    ExecAppend(Init(), calls, [c], NOTHING);
    ExecOne(Exec(Init(), calls, NOTHING), [c], RecordAll(NOTHING, calls));
  }

  lemma RunRel(calls: seq<Call>)
    requires ValidCalls(NOTHING, calls)
    ensures Rel(Exec(Init(), calls, NOTHING), RecordAll(NOTHING, calls))
  {
    hide Exec, Rel, Inv;
    StartState();
    ExecKeeps(Init(), calls, NOTHING);
  }

  class Mkv {
    const w: Writer
    var sps: Option<Octets>
    var pps: Option<Octets>
    var width: nat
    var height: nat
    var dWidth: nat
    var dHeight: nat
    var frameDuration: int
    var headerWritten: bool
    var writingFrame: bool

    ghost var calls: seq<Call>   // every writer call made so far

    ghost function Abs(): Mux
      reads this
    {
      Mux(sps, pps, width, height, dWidth, dHeight, frameDuration, headerWritten, writingFrame)
    }

    ghost predicate Valid()
      reads this, w, w.live, w.free
    {
      && w.Valid() && this !in w.Repr()
      && ValidMux(Abs()) && headerWritten == w.st.header.Some? && (writingFrame ==> w.st.inFrame)
      && Made()
    }

    /** The calls made so far brought the writer to its state. */
    ghost predicate Made()
      reads this`calls, w`st
    {
      ValidCalls(NOTHING, calls) && w.st == Exec(Init(), calls, NOTHING)
    }

    ghost function Repr(): set<object>
      reads this, w
    {
      {this} + w.Repr()
    }

    /** open_file_mkv, then set_param_mkv */
    constructor (width: nat, height: nat, dWidth: nat, dHeight: nat, frameDuration: int)
      requires IsUInt32(width) && IsUInt32(height) && IsUInt32(dWidth) && IsUInt32(dHeight) && IsInt64(frameDuration)
      ensures Valid() && calls == []
      ensures Abs() == Mux(None, None, width, height, dWidth, dHeight, frameDuration, false, false)
    {
      hide Exec, Init, Writer.Valid, ValidCalls, Made, ValidMux;
      MuxStarts(width, height, dWidth, dHeight, frameDuration);
      w := new Writer();
      sps, pps := None, None;
      this.width, this.height, this.dWidth, this.dHeight := width, height, dWidth, dHeight;
      this.frameDuration := frameDuration;
      headerWritten, writingFrame := false, false;
      calls := [];
      new;
      NoneMade();
    }

    static lemma MuxStarts(width: nat, height: nat, dWidth: nat, dHeight: nat, frameDuration: int)
      requires IsUInt32(width) && IsUInt32(height) && IsUInt32(dWidth) && IsUInt32(dHeight) && IsInt64(frameDuration)
      ensures ValidMux(Mux(None, None, width, height, dWidth, dHeight, frameDuration, false, false))
    {}

    lemma NoneMade()
      requires calls == [] && w.st == Init()
      ensures Made() && w.st.header.None?
    {}

    method Start()
      requires Valid()
      modifies w.Repr(), this`calls, this`writingFrame
      ensures Valid() && calls == old(calls) + [Call.StartFrame] && writingFrame && w.st.payload == []
      ensures fresh(w.Repr() - old(w.Repr()))
    {
      hide Exec, Init, Writer.Valid, Step, ValidCalls, RecordAll;
      InvOf();
      StartStep(w.st);
      RunSnoc(calls, Call.StartFrame);
      w.StartFrame();
      calls := calls + [Call.StartFrame];
      writingFrame := true;
    }

    lemma InvOf()
      requires w.Valid()
      ensures Inv(w.st)
    {
      hide Writer.Sim, Inv;
    }

    method Add(d: Octets)
      requires Valid() && writingFrame && |w.st.payload| + |d| <= MAX_FRAME
      modifies w.Repr(), this`calls
      ensures Valid() && calls == old(calls) + [Call.AddFrameData(d)] && w.st.payload == old(w.st.payload) + d
      ensures fresh(w.Repr() - old(w.Repr()))
    {
      hide ValidMux, Exec, Init, Writer.Valid, ValidCalls, RecordAll, Step;
      InvOf();
      RunRel(calls);
      AddStep(w.st, d);
      RunSnoc(calls, Call.AddFrameData(d));
      var ok := w.AddFrameData(d);
      calls := calls + [Call.AddFrameData(d)];
    }

    /** write_header_mkv */
    method WriteHeaderMkv() returns (ok: bool)
      requires Valid() && HeaderDue(Abs())
      modifies w.Repr(), this`calls, this`headerWritten
      ensures Valid() && fresh(w.Repr() - old(w.Repr())) && ok == HasSizes(Abs())
      ensures headerWritten == ok
      ensures calls == old(calls) + (if ok then [Call.WriteHeader(MuxHeader(old(Abs())))] else [])
    {
      hide Exec, Init, Writer.Valid, ValidCalls, RecordAll, Step, AvcC, ValidHeader;
      if width == 0 || height == 0 || dWidth == 0 || dHeight == 0 { return false; }
      var h := Header(AppName(), CodecName(), AvcC(sps.value, pps.value), frameDuration, TIMESCALE, width, height, dWidth, dHeight);
      MuxHeaderValid(Abs());
      InvOf();
      RunSnoc(calls, Call.WriteHeader(h));
      HeaderCallStep(w.st, h);
      ok := w.WriteHeader(h);
      calls := calls + [Call.WriteHeader(h)];
      headerWritten := true;
    }

    /** The slice and SEI case of write_nalu_mkv. */
    method AddUnit(nal: Octets)
      requires Valid() && ValidNalu(nal) && IsSlice(nal)
      requires (if writingFrame then |w.st.payload| else 0) + |nal| <= MAX_FRAME
      modifies w.Repr(), this`calls, this`writingFrame
      ensures Valid() && fresh(w.Repr() - old(w.Repr())) && Abs() == Take(old(Abs()), nal)
      ensures calls == old(calls) + FrameCalls(old(Abs()), nal)
    {
      hide Valid;
      if !writingFrame { Start(); }
      Add(BE(|nal| - 4, 4));
      Add(nal[4..]);
    }

    /** write_nalu_mkv up to the header: parameter sets are kept, slices and SEI units go to the frame. */
    method TakeNalu(nal: Octets)
      requires Valid() && ValidNalu(nal)
      requires IsSlice(nal) ==> (if writingFrame then |w.st.payload| else 0) + |nal| <= MAX_FRAME
      modifies w.Repr(), this
      ensures Valid() && fresh(w.Repr() - old(w.Repr()))
      ensures Abs() == Take(old(Abs()), nal) && calls == old(calls) + FrameCalls(old(Abs()), nal)
    {
      hide Exec, Init, Writer.Valid, ValidCalls, RecordAll, FrameCalls;
      NoFrameCalls(Abs(), nal);
      if nal[4] % 32 == 7 {
        if sps.None? { sps := Some(nal[4..]); }
      } else if nal[4] % 32 == 8 {
        if pps.None? { pps := Some(nal[4..]); }
      } else if nal[4] % 32 == 1 || nal[4] % 32 == 5 || nal[4] % 32 == 6 {
        AddUnit(nal);
      }
    }

    /** write_nalu_mkv */
    method WriteNalu(nal: Octets) returns (ok: bool)
      requires Valid() && ValidNalu(nal)
      requires IsSlice(nal) ==> (if writingFrame then |w.st.payload| else 0) + |nal| <= MAX_FRAME
      modifies w.Repr(), this
      ensures Valid() && fresh(w.Repr() - old(w.Repr()))
      ensures var (m, more, done) := AvcMux.WriteNalu(old(Abs()), nal);
        Abs() == m && calls == old(calls) + more && ok == done
    {
      hide Exec, Init, Writer.Valid, ValidCalls, RecordAll, AvcC, FrameCalls, Take;
      TakeNalu(nal);
      ok := true;
      if !headerWritten && pps.Some? && sps.Some? {
        ok := WriteHeaderMkv();
      }
    }

    /** set_eop_mkv */
    method SetEop(stamp: int, idr: bool) returns (ok: bool)
      requires Valid() && -TIME_LIMIT < stamp < TIME_LIMIT
      modifies w.Repr(), this`calls, this`writingFrame
      ensures Valid() && fresh(w.Repr() - old(w.Repr())) && ok == old(w.st.inFrame)
      ensures var (m, more) := AvcMux.SetEop(old(Abs()), stamp, idr);
        Abs() == m && calls == old(calls) + more
    {
      hide Exec, Init, Writer.Valid, ValidCalls, RecordAll, Step;
      InvOf();
      writingFrame := false;
      RunSnoc(calls, Call.SetFrameFlags(stamp, idr));
      FlagsStep(w.st, stamp, idr);
      ok := w.SetFrameFlags(stamp, idr);
      calls := calls + [Call.SetFrameFlags(stamp, idr)];
    }

    /** close_file_mkv: the finished file is the one the recorded calls denote. */
    method CloseFile(encode: real -> Octets) returns (file: Octets)
      requires Valid() && forall x :: |encode(x)| == 4
      modifies w.Repr()
      ensures var s := Exec(Init(), calls, NOTHING); s.timescale != 0 && file == FileOf(s, encode(DurationOf(s)))
    {
      hide Exec, Init, Writer.Valid, ValidCalls, FileOf;
      InvOf();
      w.Close(encode);
      file := w.file;
    }
  }

  lemma NoFrameCalls(m: Mux, nal: Octets)
    requires |nal| >= 5
    ensures !IsSlice(nal) ==> FrameCalls(m, nal) == []
  {}

  lemma HeaderCallStep(s: State, h: Header)
    requires s.timescale != 0 && s.header.None?
    ensures var t := Step(s, WriteHeader(h)); t.header == Some(h) && t.inFrame == s.inFrame && t.payload == s.payload
  {}

  lemma FlagsStep(s: State, ts: int, key: bool)
    requires s.timescale != 0
    ensures var t := Step(s, SetFrameFlags(ts, key)); t.header == s.header && t.inFrame == s.inFrame
  {}

  lemma StartStep(s: State)
    requires Inv(s)
    ensures s.timescale != 0
    ensures Step(s, StartFrame).header == s.header && Step(s, StartFrame).inFrame && Step(s, StartFrame).payload == []
  {
    FlushFields(s);
    hide FlushFrame;
  }

  lemma AddStep(s: State, d: Octets)
    requires s.timescale != 0 && s.inFrame
    ensures Step(s, AddFrameData(d)) == s.(payload := s.payload + d)
  {}
}
