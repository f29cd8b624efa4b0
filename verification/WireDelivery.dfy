/** When everything sent can still be delivered without sending more. */
module WireDelivery {
  import opened Packets
  import opened CallBuffer
  import opened Handshakes
  import opened Wire

  /** Nobody sends; the rest is up to the connections and the network. */
  predicate Sendless(evs: seq<(bool, Event)>) { forall i | 0 <= i < |evs| :: !evs[i].1.Send? }

  function Polls(left: nat): (r: seq<(bool, Event)>)
    ensures |r| == left && forall i | 0 <= i < left :: r[i] == (false, Take)
  {
    seq(left, i => (false, Take))
  }

  lemma {:induction false} RunAppend(n: Net, xs: seq<(bool, Event)>, ys: seq<(bool, Event)>)
    ensures Run(n, xs + ys) == Run(Run(n, xs), ys)
    decreases |ys|
  {
    hide Wire.Step;
    if ys == [] {
      assert xs + ys == xs;
    } else {
      assert (xs + ys)[..|xs + ys| - 1] == xs + ys[..|ys| - 1];
      RunAppend(n, xs, ys[..|ys| - 1]);
    }
  }

  lemma RunOne(n: Net, x: (bool, Event))
    ensures Run(n, [x]) == Wire.Step(n, x)
  {
    hide Wire.Step;
    assert [x][..0] == [];
  }

  // ---------------------------------------------------------------- short queues can be emptied

  /** Polling once per outstanding packet empties a queue that holds all of them. */
  lemma {:induction false} PollsTake(n: Net, left: nat)
    requires Flows(n.a, n.b) && Drained(n) && left == |n.a.sent| - |n.b.received|
    ensures Run(n, Polls(left)).b.received == NormalAll(n.a.sent)
    decreases left
  {
    if left == 0 {
      assert n.a.sent[..|n.b.received|] == n.a.sent;
    } else {
      TakeFlows(n.b, n.a);
      TakesOne(n.a, n.b);
      hide Local, Run, Flows;
      var next := Wire.Step(n, (false, Take));
      RunOne(n, (false, Take));
      assert Polls(left) == [(false, Take)] + Polls(left - 1);
      RunAppend(n, [(false, Take)], Polls(left - 1));
      PollsTake(next, left - 1);
    }
  }

  predicate Drained(n: Net) { n.a.output == "" && n.a.flying == "" && n.b.arrived == "" }

  lemma TakesOne(from: End, to: End)
    requires Flows(from, to) && from.output == "" && from.flying == "" && to.arrived == "" && |to.received| < |from.sent|
    ensures |Local(to, Take).received| == |to.received| + 1
  {
    hide Encode, LineEnd, Decode, Sendable, Cut;
    var ps := from.sent[|to.received|..];
    Nothing(to.input);
    FrontPolls(ps, to.input, "");
    EncodesOneLine(ps[0]);
    LineLeads(Encode(ps[0]), EncodeAll(ps[1..]));
  }

  lemma StepSound(n: Net, ev: (bool, Event))
    requires Sound(n) && !ev.1.Send?
    ensures Sound(Wire.Step(n, ev))
  {
    hide Flows, Act;
    if ev.0 { ActSound(n.a, n.b, ev.1); } else { ActSound(n.b, n.a, ev.1); }
  }

  lemma WriteAll(e: End)
    requires |e.output| < PASS
    ensures Local(e, Write(|e.output|)) == e.(output := "", flying := e.flying + e.output)
  {
    assert e.output[..|e.output|] == e.output && e.output[|e.output|..] == "";
  }

  lemma ReadAll(e: End)
    requires |e.arrived| < PASS
    ensures Local(e, Read(|e.arrived|)) == e.(input := e.input + e.arrived, arrived := "")
  {
    assert e.arrived[..|e.arrived|] == e.arrived && e.arrived[|e.arrived|..] == "";
  }

  /** One more event in front. */
  lemma Before(n: Net, ev: (bool, Event), more: seq<(bool, Event)>)
    requires Sendless(more) && !ev.1.Send?
    ensures Sendless([ev] + more) && Run(n, [ev] + more) == Run(Wire.Step(n, ev), more)
  {
    hide Wire.Step, Run;
    RunOne(n, ev);
    RunAppend(n, [ev], more);
  }

  /** What is flying arrives and is read piece by piece. */
  lemma {:induction false} Empties(n: Net) returns (more: seq<(bool, Event)>)
    requires Sound(n) && n.a.output == "" && |n.b.arrived| < PASS
    ensures Sendless(more) && var r := Run(n, more); Sound(r) && Drained(r) && r.a.sent == n.a.sent
    decreases |n.a.flying|, |n.b.arrived|
  {
    hide Sound, Local;
    if n.b.arrived != "" {
      var ev := (false, Read(|n.b.arrived|));
      ReadAll(n.b);
      StepSound(n, ev);
      var rest := Empties(Wire.Step(n, ev));
      Before(n, ev, rest);
      more := [ev] + rest;
    } else if n.a.flying != "" {
      var ev := (false, Arrive(PASS - 1));
      StepSound(n, ev);
      var rest := Empties(Wire.Step(n, ev));
      Before(n, ev, rest);
      more := [ev] + rest;
    } else {
      more := [];
    }
  }

  lemma Delivers(n: Net) returns (more: seq<(bool, Event)>)
    requires Sound(n) && |n.a.output| < PASS && |n.b.arrived| < PASS
    ensures Sendless(more) && Run(n, more).b.received == NormalAll(n.a.sent)
  {
    hide Flows, Local, NormalAll, Run;
    var ev := (true, Write(|n.a.output|));
    WriteAll(n.a);
    StepSound(n, ev);
    var m := Wire.Step(n, ev);
    var rest := Empties(m);
    Before(n, ev, rest);
    var r := Run(m, rest);
    Outstanding(r);
    var left := |r.a.sent| - |r.b.received|;
    PollsTake(r, left);
    RunAppend(n, [ev] + rest, Polls(left));
    more := [ev] + rest + Polls(left);
  }

  lemma Outstanding(r: Net)
    requires Flows(r.a, r.b)
    ensures |r.b.received| <= |r.a.sent|
  {}

  // ---------------------------------------------------------------- long ones cannot

  predicate Overfull(n: Net) { |n.a.output| >= PASS || |n.b.arrived| >= PASS }

  lemma KeepsFull(s: string, n: nat)
    requires |s| >= PASS
    ensures var k := Least(n, |s| % PASS); |s[k..]| >= PASS
  {}

  lemma StepFull(n: Net, ev: (bool, Event))
    requires Sound(n) && Overfull(n) && !ev.1.Send?
    ensures Overfull(Wire.Step(n, ev)) && Wire.Step(n, ev).a.sent == n.a.sent
  {
    hide Flows, Poll;
    if ev.1.Write? && ev.0 && |n.a.output| >= PASS { KeepsFull(n.a.output, ev.1.n); }
    if ev.1.Read? && !ev.0 && |n.b.arrived| >= PASS { KeepsFull(n.b.arrived, ev.1.n); }
    if ev.1.Take? { TakeFlows(n.a, n.b); TakeFlows(n.b, n.a); }
  }

  lemma {:induction false} StaysFull(n: Net, more: seq<(bool, Event)>)
    requires Sound(n) && Overfull(n) && Sendless(more)
    ensures var r := Run(n, more); Sound(r) && Overfull(r) && r.a.sent == n.a.sent
    decreases |more|
  {
    hide Sound, Overfull, Wire.Step;
    if more != [] {
      var init := more[..|more| - 1];
      StaysFull(n, init);
      StepSound(Run(n, init), more[|more| - 1]);
      StepFull(Run(n, init), more[|more| - 1]);
    }
  }

  lemma FullMisses(n: Net)
    requires Sound(n) && Overfull(n)
    ensures n.b.received != NormalAll(n.a.sent)
  {
    hide Sendable, Encode;
    assert |n.b.input + (n.b.arrived + (n.a.flying + n.a.output))| >= PASS;
    NoneLeft(n.a.sent, |n.b.received|);
  }

  lemma NoneLeft(ps: seq<Packet>, k: nat)
    requires k <= |ps|
    ensures k == |ps| ==> EncodeAll(ps[k..]) == ""
  {}

  /** The run can go on, without sending, until the peer has received all that was sent. */
  ghost predicate Deliverable(n: Net) { exists more :: Sendless(more) && Run(n, more).b.received == NormalAll(n.a.sent) }

  /** The same for what the peer sends. */
  ghost predicate Returnable(n: Net) { exists more :: Sendless(more) && Run(n, more).a.received == NormalAll(n.b.sent) }

  /** Exactly when the sender's queue and what has arrived at the receiver are each shorter than 2^20. */
  lemma DeliversExactly(n: Net)
    requires Sound(n)
    ensures Deliverable(n) <==> !Overfull(n)
  {
    hide Sound, Run, NormalAll, Sendless;
    if Overfull(n) {
      forall more | Sendless(more) ensures Run(n, more).b.received != NormalAll(n.a.sent) {
        StaysFull(n, more);
        FullMisses(Run(n, more));
      }
    } else {
      var more := Delivers(n);
    }
  }

  function Swap(n: Net): Net { Net(n.b, n.a) }

  function SwapAll(evs: seq<(bool, Event)>): (r: seq<(bool, Event)>)
    ensures |r| == |evs| && forall i | 0 <= i < |evs| :: r[i] == (!evs[i].0, evs[i].1)
  {
    seq(|evs|, i requires 0 <= i < |evs| => (!evs[i].0, evs[i].1))
  }

  lemma {:induction false} RunSwaps(n: Net, evs: seq<(bool, Event)>)
    ensures Run(Swap(n), SwapAll(evs)) == Swap(Run(n, evs))
    decreases |evs|
  {
    hide Act;
    if evs != [] {
      RunSwaps(n, evs[..|evs| - 1]);
      assert SwapAll(evs)[..|evs| - 1] == SwapAll(evs[..|evs| - 1]);
    }
  }

  lemma SwapsBack(evs: seq<(bool, Event)>)
    ensures SwapAll(SwapAll(evs)) == evs && (Sendless(SwapAll(evs)) <==> Sendless(evs))
  {
    forall i | 0 <= i < |evs| ensures SwapAll(evs)[i].1 == evs[i].1 {}
  }

  lemma ReturnsSwapped(n: Net)
    ensures Returnable(n) <==> Deliverable(Swap(n))
  {
    hide Run, Sendless, NormalAll, SwapAll;
    if Returnable(n) {
      var more :| Sendless(more) && Run(n, more).a.received == NormalAll(n.b.sent);
      RunSwaps(n, more);
      SwapsBack(more);
    }
    if Deliverable(Swap(n)) {
      var more :| Sendless(more) && Run(Swap(n), more).b.received == NormalAll(n.b.sent);
      RunSwaps(Swap(n), more);
      SwapsBack(more);
      assert Run(n, SwapAll(more)).a.received == NormalAll(n.b.sent);
    }
  }

  /**
   * From a reachable state the run can go on, without sending, until all that one side has sent is received, if
   * and only if that side's queue and what has arrived at the other side's socket are each shorter than 2^20.
   */
  lemma CanDeliver(evs: seq<(bool, Event)>)
    requires Permitted(evs)
    ensures var n := Run(Net(SILENT, SILENT), evs);
      && (Deliverable(n) <==> |n.a.output| < PASS && |n.b.arrived| < PASS)
      && (Returnable(n) <==> |n.b.output| < PASS && |n.a.arrived| < PASS)
  {
    hide Run, Flows, Deliverable, Returnable;
    RunSound(evs);
    var n := Run(Net(SILENT, SILENT), evs);
    DeliversExactly(n);
    DeliversExactly(Swap(n));
    ReturnsSwapped(n);
  }

  // ---------------------------------------------------------------- an example

  function Sends(p: Packet, k: nat): (r: seq<(bool, Event)>)
    ensures |r| == k && forall i | 0 <= i < k :: r[i] == (true, Send(p))
  {
    seq(k, i => (true, Send(p)))
  }

  lemma {:induction false} SendsPile(p: Packet, k: nat)
    ensures |Run(Net(SILENT, SILENT), Sends(p, k)).a.output| == k * |Encode(p)|
  {
    hide Encode;
    if k > 0 {
      assert Sends(p, k)[..k - 1] == Sends(p, k - 1);
      SendsPile(p, k - 1);
      var n := Run(Net(SILENT, SILENT), Sends(p, k - 1));
      assert k * |Encode(p)| == (k - 1) * |Encode(p)| + |Encode(p)|;
    }
  }

  /** After 262144 packets of four bytes that the socket did not take, none is ever delivered without another. */
  lemma StuckExample(k: nat)
    requires k == 262144
    ensures Permitted(Sends(Ok, k)) && !Deliverable(Run(Net(SILENT, SILENT), Sends(Ok, k)))
  {
    hide Run, Deliverable;
    SendsPile(Ok, k);
    assert |Encode(Ok)| == 4;
    CanDeliver(Sends(Ok, k));
  }
}
