/** A named pipe with one overlapped write and one overlapped read, started and collected by polling. */
module Pipelines {
  import opened CallBuffer

  // ---------------------------------------------------------------- writing

  /**
   * The output queue and the last write: the bytes it was given and, once it is complete, how many of
   * them it transferred. appended, confirmed and delivered are histories: everything ever queued,
   * everything removed from the queue again, everything the pipe has taken.
   */
  datatype Writing = Writing(
    output: string, pending: bool, flight: string, count: nat, appended: string, confirmed: string, delivered: string)

  datatype Event =
    | Append(x: string)
    /** OnWrite; started tells whether the system takes the write. */
    | Poll(started: bool)
    /** The pending write completes with n bytes. */
    | Complete(n: nat)

  /** OnWriteCompleted: what the last write transferred leaves the queue. */
  function Collect(w: Writing): Writing {
    if w.output == "" then w
    else if Offer(w.count) == 0 then w
    else w.(output := Dropped(w.output, w.count), confirmed := w.confirmed + w.output[..|w.output| - |Dropped(w.output, w.count)|])
  }

  /** OnWrite */
  function Written(w: Writing, started: bool): Writing {
    if w.output == "" || w.pending then w
    else
      var c := Collect(w);
      if started then c.(pending := true, flight := c.output[..Offer(|c.output|)], count := 0) else c
  }

  function Step(w: Writing, ev: Event): Writing {
    match ev
    case Append(x) => w.(output := w.output + x, appended := w.appended + x)
    case Poll(started) => Written(w, started)
    case Complete(n) =>
      if !w.pending then w
      else
        var k := if n <= |w.flight| then n else |w.flight|;
        w.(pending := false, count := k, delivered := w.delivered + w.flight[..k])
  }

  function Run(w: Writing, evs: seq<Event>): Writing
    decreases |evs|
  {
    if evs == [] then w else Step(Run(w, evs[..|evs| - 1]), evs[|evs| - 1])
  }

  /** After OnConnected the write record is zero: complete, nothing transferred. */
  const CONNECTED := Writing("", false, "", 0, "", "", "")

  predicate Inv(w: Writing) {
    && w.appended == w.confirmed + w.output
    && w.flight <= w.output && w.count <= |w.flight| <= TEMP_BUFFER
    && w.delivered == w.confirmed + (if w.pending then "" else w.flight[..w.count])
  }

  /** Every write is taken by the system. */
  predicate Started(evs: seq<Event>) { forall i | 0 <= i < |evs| :: evs[i].Poll? ==> evs[i].started }

  lemma AppendKeeps(w: Writing, x: string)
    requires Inv(w)
    ensures Inv(Step(w, Append(x)))
  {
    assert w.confirmed + w.output + x == w.confirmed + (w.output + x);
    assert w.flight <= w.output + x;
  }

  /** What a collected write leaves: its bytes confirmed, the rest of the queue as it was. */
  lemma Collected(w: Writing)
    requires Inv(w) && !w.pending
    ensures Collect(w) == w.(output := w.output[w.count..], confirmed := w.confirmed + w.output[..w.count])
    ensures w.delivered == Collect(w).confirmed && w.appended == Collect(w).confirmed + Collect(w).output
  {
    assert w.flight[..w.count] == w.output[..w.count];
    assert w.output == w.output[..w.count] + w.output[w.count..];
    assert w.confirmed + (w.output[..w.count] + w.output[w.count..]) == w.confirmed + w.output[..w.count] + w.output[w.count..];
    if w.count == 0 {
      assert w.confirmed + "" == w.confirmed;
    } else {
      assert Offer(w.count) == w.count;
    }
  }

  /** A write that starts keeps the invariant; one that does not keeps it exactly when nothing had been transferred. */
  lemma PollKeeps(w: Writing, started: bool)
    requires Inv(w)
    ensures Inv(Written(w, started)) <==> (started || w.pending || w.count == 0)
  {
    if w.output != "" && !w.pending {
      Collected(w);
      var c := Collect(w);
      assert c.output[..Offer(|c.output|)] <= c.output;
      assert c.confirmed + "" == c.confirmed;
      if !started {
        if w.count == 0 {
          assert w.output[0..] == w.output && w.output[..0] == "" && w.confirmed + "" == w.confirmed;
          assert c == w;
        } else {
          assert |c.confirmed + c.flight[..c.count]| == |c.confirmed| + w.count;
        }
      }
    }
  }

  lemma CompleteKeeps(w: Writing, n: nat)
    requires Inv(w)
    ensures Inv(Step(w, Complete(n)))
  {
    assert w.confirmed + "" == w.confirmed;
  }

  lemma {:induction false} RunKeeps(evs: seq<Event>)
    requires Started(evs)
    ensures Inv(Run(CONNECTED, evs))
    decreases |evs|
  {
    hide Step, Inv, Written;
    if evs == [] {
      ConnectedInv();
    } else {
      var init, ev := evs[..|evs| - 1], evs[|evs| - 1];
      RunKeeps(init);
      var w := Run(CONNECTED, init);
      match ev
      case Append(x) => AppendKeeps(w, x);
      case Poll(started) => PollStep(w, started);
      case Complete(n) => CompleteKeeps(w, n);
    }
  }

  lemma ConnectedInv()
    ensures Inv(CONNECTED)
  {}

  lemma PollStep(w: Writing, started: bool)
    requires Inv(w) && started
    ensures Inv(Step(w, Poll(started)))
  {
    hide Inv, Written;
    PollKeeps(w, started);
  }

  /**
   * Over every run in which the writes start: what was queued is what was confirmed and what is still
   * queued, the write in flight is the front of the queue, and the pipe has taken each byte once, in order.
   */
  lemma ExactlyOnce(evs: seq<Event>)
    requires Started(evs)
    ensures var w := Run(CONNECTED, evs);
      && w.appended == w.confirmed + w.output
      && w.flight <= w.output
      && w.confirmed <= w.delivered <= w.appended
      && (w.output == "" ==> w.delivered == w.appended)
  {
    hide Run;
    RunKeeps(evs);
    var w := Run(CONNECTED, evs);
    assert w.flight[..w.count] <= w.flight <= w.output;
    assert w.confirmed <= w.confirmed + (if w.pending then "" else w.flight[..w.count]);
  }

  // ---------------------------------------------------------------- writes that are refused

  /** A poll that comes to a write: the queue holds something and no write is pending. */
  predicate Offers(w: Writing, ev: Event) { ev.Poll? && w.output != "" && !w.pending }

  /** The last write has been collected, but the one after it was refused: its count is still there. */
  predicate Stale(evs: seq<Event>)
    decreases |evs|
  {
    evs != [] &&
    var init, ev := evs[..|evs| - 1], evs[|evs| - 1];
    if Offers(Run(CONNECTED, init), ev) then !ev.started && Run(CONNECTED, init).count > 0 else Stale(init)
  }

  /** The next poll collects a stale count again, and the queue is long enough for it. */
  predicate Loses(evs: seq<Event>, ev: Event) {
    var w := Run(CONNECTED, evs); Offers(w, ev) && Stale(evs) && w.count <= |w.output|
  }

  predicate NoLoss(evs: seq<Event>) { forall k | 0 <= k < |evs| :: !Loses(evs[..k], evs[k]) }

  /** Everything transferred has been confirmed, and the count that said so is still set. */
  predicate Collectable(w: Writing) {
    && !w.pending && 0 < w.count <= TEMP_BUFFER
    && w.appended == w.confirmed + w.output && w.delivered == w.confirmed
  }

  lemma StaleStep(w: Writing, ev: Event)
    requires Collectable(w) && !(Offers(w, ev) && w.count <= |w.output|)
    ensures if Offers(w, ev) && ev.started then Inv(Step(w, ev)) else Collectable(Step(w, ev))
  {
    match ev
    case Append(x) => assert w.confirmed + w.output + x == w.confirmed + (w.output + x);
    case Poll(started) =>
      if Offers(w, ev) {
        assert Offer(w.count) == w.count;
        assert w.output[..0] == "" && w.confirmed + "" == w.confirmed;
      }
    case Complete(n) =>
  }

  lemma FreshStep(w: Writing, ev: Event)
    requires Inv(w)
    ensures if Offers(w, ev) && !ev.started && w.count > 0 then Collectable(Step(w, ev)) else Inv(Step(w, ev))
  {
    hide Written;
    match ev
    case Append(x) => AppendKeeps(w, x);
    case Poll(started) =>
      PollKeeps(w, started);
      if Offers(w, ev) && !started && w.count > 0 { CollectedOnce(w); }
      Idle(w, started);
    case Complete(n) => CompleteKeeps(w, n);
  }

  lemma Idle(w: Writing, started: bool)
    ensures w.output == "" || w.pending ==> Written(w, started) == w
  {}

  lemma CollectedOnce(w: Writing)
    requires Inv(w) && !w.pending && w.output != ""
    ensures var v := Written(w, false);
      v == w.(output := w.output[w.count..], confirmed := w.confirmed + w.output[..w.count]) && v.confirmed == w.delivered
    ensures w.count <= TEMP_BUFFER && w.count <= |w.output|
  {
    Collected(w);
  }

  /** A stale count is collected again when the queue is as long, from bytes the pipe never took. */
  lemma LossStep(w: Writing, ev: Event)
    requires Collectable(w) && Offers(w, ev) && w.count <= |w.output|
    ensures var v := Step(w, ev); v.confirmed == w.confirmed + w.output[..w.count] && v.delivered == w.delivered
    ensures !(Step(w, ev).confirmed <= Step(w, ev).delivered)
  {
    assert Offer(w.count) == w.count;
  }

  lemma PrefixNoLoss(evs: seq<Event>)
    requires evs != [] && NoLoss(evs)
    ensures NoLoss(evs[..|evs| - 1]) && !Loses(evs[..|evs| - 1], evs[|evs| - 1])
  {
    hide Loses;
    var init := evs[..|evs| - 1];
    forall k | 0 <= k < |init| ensures !Loses(init[..k], init[k]) {
      assert init[..k] == evs[..k];
    }
  }

  lemma {:induction false} RunStates(evs: seq<Event>)
    requires NoLoss(evs)
    ensures var w := Run(CONNECTED, evs); if Stale(evs) then Collectable(w) else Inv(w)
    decreases |evs|
  {
    hide Inv, Collectable, Step, NoLoss;
    if evs == [] {
      ConnectedInv();
    } else {
      var init, ev := evs[..|evs| - 1], evs[|evs| - 1];
      PrefixNoLoss(evs);
      RunStates(init);
      var w := Run(CONNECTED, init);
      if Stale(init) { StaleStep(w, ev); } else { FreshStep(w, ev); }
    }
  }

  /** As long as nothing is lost, every byte confirmed has been delivered, and none twice or out of order. */
  lemma NoLossKeeps(evs: seq<Event>)
    requires NoLoss(evs)
    ensures var w := Run(CONNECTED, evs); w.appended == w.confirmed + w.output && w.confirmed <= w.delivered <= w.appended
  {
    hide Run, NoLoss, Stale;
    RunStates(evs);
    var w := Run(CONNECTED, evs);
    if Inv(w) { assert w.flight[..w.count] <= w.flight <= w.output; }
  }

  predicate NothingLost(w: Writing) { w.confirmed <= w.delivered }

  /**
   * Over every run, refused writes included: at all times only bytes the pipe has taken are confirmed, if and
   * only if no poll finds a stale count that the queue is long enough for.
   */
  lemma {:induction false} LosesExactly(evs: seq<Event>)
    ensures (forall k | 0 <= k <= |evs| :: NothingLost(Run(CONNECTED, evs[..k]))) <==> NoLoss(evs)
    decreases |evs|
  {
    hide Run, Loses, Stale;
    if NoLoss(evs) {
      forall k | 0 <= k <= |evs| ensures NothingLost(Run(CONNECTED, evs[..k])) {
        FirstNoLoss(evs, k);
        NoLossKeeps(evs[..k]);
      }
    } else {
      var init, ev := evs[..|evs| - 1], evs[|evs| - 1];
      LosesExactly(init);
      if NoLoss(init) {
        LastLoses(evs);
        RunStates(init);
        LastLoss(init, ev);
        assert evs[..|evs|] == init + [ev];
      } else {
        var k :| 0 <= k <= |init| && !NothingLost(Run(CONNECTED, init[..k]));
        assert init[..k] == evs[..k];
      }
    }
  }

  lemma FirstNoLoss(evs: seq<Event>, k: nat)
    requires NoLoss(evs) && k <= |evs|
    ensures NoLoss(evs[..k])
  {
    hide Loses;
    forall i | 0 <= i < k ensures !Loses(evs[..k][..i], evs[..k][i]) {
      assert evs[..k][..i] == evs[..i];
    }
  }

  lemma LastLoses(evs: seq<Event>)
    requires evs != [] && !NoLoss(evs) && NoLoss(evs[..|evs| - 1])
    ensures Loses(evs[..|evs| - 1], evs[|evs| - 1])
  {
    hide Loses;
    var init := evs[..|evs| - 1];
    assert forall k | 0 <= k < |init| :: init[..k] == evs[..k];
  }

  lemma LastLoss(init: seq<Event>, ev: Event)
    requires Loses(init, ev) && NoLoss(init)
    ensures !NothingLost(Run(CONNECTED, init + [ev]))
  {
    hide Step, NoLoss;
    RunStates(init);
    assert (init + [ev])[..|init + [ev]| - 1] == init;
    LossStep(Run(CONNECTED, init), ev);
  }

  /**
   * One refused write, any text and then another poll: bytes are removed that the pipe never took, unless the
   * write before had transferred nothing or more than half of what is queued then.
   */
  lemma RefusedLosesExactly(w: Writing, x: string, started: bool)
    requires Inv(w) && !w.pending && w.output != ""
    ensures var v := Written(Step(Written(w, false), Append(x)), started);
      v.confirmed <= v.delivered <==> w.count == 0 || 2 * w.count > |w.output| + |x|
  {
    hide Written, Inv;
    CollectedOnce(w);
    var u := Step(Written(w, false), Append(x));
    assert |u.output| == |w.output| - w.count + |x|;
    CollectedAgain(u, started);
  }

  lemma CollectedAgain(u: Writing, started: bool)
    requires !u.pending && u.count <= TEMP_BUFFER
    ensures Written(u, started).delivered == u.delivered
    ensures Written(u, started).confirmed == if 0 < u.count <= |u.output| then u.confirmed + u.output[..u.count] else u.confirmed
  {
    if u.output != "" && u.count > 0 {
      assert Offer(u.count) == u.count;
      if u.count > |u.output| { assert u.output[..0] == "" && u.confirmed + "" == u.confirmed; }
    }
  }

  /** One such loss: two of four bytes are delivered, and the queue is empty. */
  lemma RefusedLoses()
    ensures var w := Run(CONNECTED, [Append("abcd"), Poll(true), Complete(2), Poll(false), Poll(true), Complete(2)]);
      w.delivered == "ab" && w.output == "" && w.appended == "abcd"
  {
    var w1 := Step(CONNECTED, Append("abcd"));
    assert w1 == Writing("abcd", false, "", 0, "abcd", "", "");
    var w2 := Step(w1, Poll(true));
    assert Collect(w1) == w1 && "abcd"[..4] == "abcd";
    assert w2 == Writing("abcd", true, "abcd", 0, "abcd", "", "");
    var w3 := Step(w2, Complete(2));
    assert "abcd"[..2] == "ab";
    assert w3 == Writing("abcd", false, "abcd", 2, "abcd", "", "ab");
    var w4 := Step(w3, Poll(false));
    assert "abcd"[2..] == "cd" && Dropped("abcd", 2) == "cd";
    assert w4 == Writing("cd", false, "abcd", 2, "abcd", "ab", "ab");
    var w5 := Step(w4, Poll(true));
    assert Dropped("cd", 2) == "" && "cd"[..2] == "cd" && "ab" + "cd" == "abcd";
    assert w5 == Writing("", true, "", 0, "abcd", "abcd", "ab");
    var w6 := Step(w5, Complete(2));
    assert w6 == Writing("", false, "", 0, "abcd", "abcd", "ab");
    SixSteps(Append("abcd"), Poll(true), Complete(2), Poll(false), Poll(true), Complete(2));
  }

  lemma SixSteps(a: Event, b: Event, c: Event, d: Event, e: Event, f: Event)
    ensures Run(CONNECTED, [a, b, c, d, e, f]) == Step(Step(Step(Step(Step(Step(CONNECTED, a), b), c), d), e), f)
  {
    hide Step;
    assert [a, b, c, d, e, f][..5] == [a, b, c, d, e] && [a, b, c, d, e][..4] == [a, b, c, d];
    assert [a, b, c, d][..3] == [a, b, c] && [a, b, c][..2] == [a, b] && [a, b][..1] == [a] && [a][..0] == [];
    assert Run(CONNECTED, [a]) == Step(CONNECTED, a);
    assert Run(CONNECTED, [a, b, c]) == Step(Step(Step(CONNECTED, a), b), c);
    assert Run(CONNECTED, [a, b, c, d, e]) == Step(Step(Step(Step(Step(CONNECTED, a), b), c), d), e);
  }

  // ---------------------------------------------------------------- the pipe object

  /** How a call of WriteFile ends: taken, refused because the pipe has no data, or refused otherwise. */
  datatype WriteStart = Taken | NoData | Refused

  /** How PeekNamedPipe and ReadFile end together: nothing waits, a read has started, or an error. */
  datatype ReadStart = Nothing | Reading | ReadError

  class Pipeline {
    const output: Buffer
    const input: Buffer
    var connected: bool
    /** The write in progress or last completed, as the system keeps it. */
    var pending: bool
    var count: nat
    /** The read in progress or last completed: the bytes it brought, and m_nBuffer. */
    var readPending: bool
    var read: string
    var nBuffer: nat
    /** What the peer has sent and no read has taken. */
    var waiting: string
    ghost var w: Writing
    ghost var taken: string

    ghost predicate Valid()
      reads this, output, output.data
    {
      output.Valid() && w.output == output.Contents() && w.pending == pending && w.count == count
    }

    ghost predicate Apart()
      reads output, input
    {
      input.Valid() && output != input && output.data != input.data
    }

    /** What reads took from the pipe is in the input queue, or in a read that has not been collected. */
    ghost predicate Received()
      reads this, input, input.data
    {
      && input.Valid() && |read| <= TEMP_BUFFER && (readPending ==> nBuffer > 0 && read == "")
      && taken == input.Contents() + (if nBuffer > 0 && !readPending then read else "")
    }

    constructor ()
      ensures Valid() && Apart() && Received() && w == CONNECTED && taken == "" && waiting == "" && connected
      ensures fresh(output) && fresh(input) && fresh(output.data) && fresh(input.data)
    {
      output := new Buffer();
      input := new Buffer();
      connected := true;
      pending, count := false, 0;
      readPending, read, nBuffer, waiting := false, "", 0, "";
      w, taken := CONNECTED, "";
    }

    /** CPipeline::OnWriteCompleted */
    method OnWriteCompleted()
      requires Valid() && Apart() && !pending
      modifies this`w, output`length, output.data
      ensures output.Valid() && output.data == old(output.data) && w == Collect(old(w)) && output.Contents() == w.output
    {
      w := Collect(w);
      if output.length == 0 { return; }
      var n := Offer(count);
      if n > 0 { output.Remove(count); }
    }

    /** CPipeline::OnWrite; false without a pipe, or when a write is refused for another reason than the lack of data. */
    method OnWrite(start: WriteStart) returns (ok: bool)
      requires Valid() && Apart()
      modifies this`w, this`pending, this`count, output`length, output.data
      ensures Valid() && Apart() && output.data == old(output.data)
      ensures w == if connected then Written(old(w), start == Taken) else old(w)
      ensures ok == (connected && (old(w).output == "" || old(pending) || start != Refused))
    {
      if !connected { return false; }
      if output.length == 0 { return true; }
      if pending { return true; }
      OnWriteCompleted();
      if start == Taken {
        var n := Offer(output.length);
        pending, count := true, 0;
        w := w.(pending := true, flight := w.output[..n], count := 0);
      }
      ok := start != Refused;
    }

    /** CInterlink::SendPacket */
    method Send(x: string, start: WriteStart)
      requires Valid() && Apart()
      modifies this`w, this`pending, this`count, output, output.data
      ensures Valid() && Apart() && (fresh(output.data) || output.data == old(output.data))
      ensures var a := Step(old(w), Append(x)); w == if connected then Written(a, start == Taken) else a
    {
      hide Written;
      output.Add(x);
      w := Step(w, Append(x));
      var _ := OnWrite(start);
    }

    /** The system completes the write. */
    method WriteEnds(n: nat)
      requires Valid() && pending && n <= |w.flight|
      modifies this`w, this`pending, this`count
      ensures Valid() && w == Step(old(w), Complete(n))
    {
      w := Step(w, Complete(n));
      pending, count := false, n;
    }

    /** CPipeline::OnDropped */
    method OnDropped() returns (ok: bool)
      modifies this`connected
      ensures !ok && !connected
    {
      connected := false;
      ok := false;
    }

    /**
     * CPipeline::OnReadCompleted: a read that has completed is added once, and m_nBuffer says so; a broken
     * pipe drops the connection.
     */
    method OnReadCompleted(broken: bool) returns (ok: bool)
      requires Received() && Apart() && !readPending
      modifies this`nBuffer, this`connected, input, input.data
      ensures Received() && Apart() && (fresh(input.data) || input.data == old(input.data))
      ensures ok == (old(nBuffer) == 0 || !broken)
      ensures ok ==> nBuffer == 0 && taken == input.Contents() && connected == old(connected)
      ensures !ok ==> !connected && nBuffer == old(nBuffer) && input.Contents() == old(input.Contents())
    {
      if nBuffer == 0 { return true; }
      if broken {
        ok := OnDropped();
        return;
      }
      nBuffer := |read|;
      var n := Offer(nBuffer);
      if n > 0 {
        assert read[..n] == read;
        input.Add(read[..n]);
      }
      nBuffer := 0;
      ok := true;
    }

    /** CPipeline::OnRead: collect the last read and start another when bytes are waiting. */
    method OnRead(broken: bool, start: ReadStart) returns (ok: bool)
      requires Received() && Apart()
      modifies this`nBuffer, this`readPending, this`read, this`connected, input, input.data
      ensures Received() && Apart() && (fresh(input.data) || input.data == old(input.data))
      ensures !old(connected) ==> !ok
      ensures !old(connected) || old(readPending) ==> input.Contents() == old(input.Contents())
      ensures old(connected) && old(readPending) ==> ok
      ensures old(connected) && !old(readPending) ==> ok == ((old(nBuffer) == 0 || !broken) && start != ReadError)
      ensures !old(readPending) && ok ==> taken == input.Contents() && readPending == (start == Reading)
      ensures connected == (old(connected) && ok)
    {
      if !connected { return false; }
      if readPending { return true; }
      ok := OnReadCompleted(broken);
      if !ok { return; }
      match start {
        case Nothing =>
        case Reading => nBuffer, readPending, read := TEMP_BUFFER, true, "";
        case ReadError => ok := OnDropped();
      }
    }

    /** The system completes the read with the first n waiting bytes. */
    method ReadEnds(n: nat)
      requires Received() && readPending && n <= |waiting| && n <= TEMP_BUFFER
      modifies this`readPending, this`read, this`waiting, this`taken
      ensures Received() && taken == old(taken) + old(waiting)[..n] && waiting == old(waiting)[n..]
    {
      readPending, read, taken, waiting := false, waiting[..n], taken + waiting[..n], waiting[n..];
    }
  }
}
