/**
 * Two connected endpoints. Each sends packets, writes part of its output to its half of the connection,
 * reads part of what has arrived at its socket, and polls its input, in any order; the network moves
 * bytes from one socket to the other at any pace.
 */
module Wire {
  import opened Bytes
  import opened Packets
  import opened CallBuffer
  import opened Handshakes

  /**
   * sent and received are histories; flying has left this endpoint and not reached the other, arrived has
   * come from the other and has not been read.
   */
  datatype End = End(sent: seq<Packet>, output: string, flying: string, arrived: string, input: string, received: seq<Packet>, refused: nat)

  datatype Net = Net(a: End, b: End)

  datatype Event = Send(p: Packet) | Write(n: nat) | Arrive(n: nat) | Read(n: nat) | Take

  /** One pass over a queue never moves bytes past a multiple of this: the length is masked before it is offered. */
  const PASS := 0x100000

  function Least(x: nat, y: nat): nat { if x <= y then x else y }

  /** What one endpoint does by itself. */
  function Local(e: End, ev: Event): End {
    match ev
    case Send(p) => e.(sent := e.sent + [p], output := e.output + Encode(p))
    case Write(n) =>
      var k := Least(n, |e.output| % PASS);
      e.(output := e.output[k..], flying := e.flying + e.output[..k])
    case Read(n) =>
      var k := Least(n, |e.arrived| % PASS);
      e.(input := e.input + e.arrived[..k], arrived := e.arrived[k..])
    case Take =>
      var (p, rest, reply) := Poll(e.input);
      if p.Some? then e.(input := rest, received := e.received + [p.value])
      else if reply == "" then e.(input := rest)
      else e.(input := rest, sent := e.sent + [Err(UNKNOWN)], output := e.output + reply, refused := e.refused + 1)
    case Arrive(n) => e
  }

  /** The same, and what arrives from the peer. */
  function Act(e: End, peer: End, ev: Event): (End, End) {
    match ev
    case Arrive(n) =>
      var k := Least(n, |peer.flying|);
      (e.(arrived := e.arrived + peer.flying[..k]), peer.(flying := peer.flying[k..]))
    case _ => (Local(e, ev), peer)
  }

  function Step(n: Net, ev: (bool, Event)): Net {
    if ev.0 then (var (e, peer) := Act(n.a, n.b, ev.1); Net(e, peer))
    else var (e, peer) := Act(n.b, n.a, ev.1); Net(peer, e)
  }

  function Run(n: Net, evs: seq<(bool, Event)>): Net
    decreases |evs|
  {
    if evs == [] then n else Step(Run(n, evs[..|evs| - 1]), evs[|evs| - 1])
  }

  const SILENT := End([], "", "", "", "", [], 0)

  function EncodeAll(ps: seq<Packet>): string {
    if ps == [] then "" else Encode(ps[0]) + EncodeAll(ps[1..])
  }

  function NormalAll(ps: seq<Packet>): (r: seq<Packet>)
    ensures |r| == |ps| && forall i | 0 <= i < |ps| :: r[i] == Normal(ps[i])
  {
    seq(|ps|, i requires 0 <= i < |ps| => Normal(ps[i]))
  }

  predicate AllSendable(ps: seq<Packet>) { forall i | 0 <= i < |ps| :: Sendable(ps[i]) }

  predicate Permitted(evs: seq<(bool, Event)>) {
    forall i | 0 <= i < |evs| :: evs[i].1.Send? ==> Sendable(evs[i].1.p)
  }

  /** Received so far: the first packets sent. Still on the way: the rest of them, cut anywhere. */
  predicate Flows(from: End, to: End) {
    && AllSendable(from.sent) && |to.received| <= |from.sent|
    && to.received == NormalAll(from.sent[..|to.received|])
    && EncodeAll(from.sent[|to.received|..]) == to.input + (to.arrived + (from.flying + from.output))
  }

  predicate Sound(n: Net) {
    Flows(n.a, n.b) && Flows(n.b, n.a) && n.a.refused == 0 && n.b.refused == 0
  }

  // ---------------------------------------------------------------- text of many packets

  lemma {:induction false} EncodeAllAppend(ps: seq<Packet>, qs: seq<Packet>)
    ensures EncodeAll(ps + qs) == EncodeAll(ps) + EncodeAll(qs)
    decreases |ps|
  {
    hide Encode;
    if ps == [] {
      assert ps + qs == qs;
    } else {
      assert (ps + qs)[1..] == ps[1..] + qs;
      EncodeAllAppend(ps[1..], qs);
    }
  }

  lemma EncodeAllOne(p: Packet)
    ensures EncodeAll([p]) == Encode(p)
  {
    hide Encode;
    assert [p][1..] == [];
    assert Encode(p) + "" == Encode(p);
  }

  /** A queue that starts with whole or partial packets: polling takes the first, once it is whole. */
  lemma FrontPolls(ps: seq<Packet>, input: string, later: string)
    requires AllSendable(ps) && EncodeAll(ps) == input + later
    ensures ps == [] || LineEnd(input) == |input| ==> Poll(input) == (None, input, "")
    ensures ps != [] && LineEnd(input) < |input| ==>
      exists rest :: Poll(input) == (Some(Normal(ps[0])), rest, "") && EncodeAll(ps[1..]) == rest + later
  {
    hide Encode, Decode, Sendable, LineEnd;
    if ps == [] {
      assert input == "";
    } else if LineEnd(input) < |input| {
      var line := Encode(ps[0]);
      EncodesOneLine(ps[0]);
      FirstLine(line, EncodeAll(ps[1..]), input, later);
      var rest := input[|line|..];
      assert input == line + rest;
      PollReads(ps[0], rest);
    }
  }

  lemma PrefixLine(input: string, later: string)
    requires LineEnd(input) < |input|
    ensures LineEnd(input + later) == LineEnd(input)
  {
    hide LineEnd;
    var e := LineEnd(input);
    assert (input + later)[..e] == input[..e];
    LineEndAt(input + later, e);
  }

  /** A prefix that holds a line feed holds the whole first line. */
  lemma FirstLine(line: string, more: string, input: string, later: string)
    requires OneLine(line) && line + more == input + later && LineEnd(input) < |input|
    ensures |line| <= |input| && input[..|line|] == line && more == input[|line|..] + later
  {
    hide OneLine, LineEnd;
    LineLeads(line, more);
    PrefixLine(input, later);
    Front(line, more, input, later);
  }

  lemma Front(line: string, more: string, input: string, later: string)
    requires line + more == input + later && |line| <= |input|
    ensures input[..|line|] == line && more == input[|line|..] + later
  {
    assert (line + more)[..|line|] == line && (input + later)[..|line|] == input[..|line|];
    assert (line + more)[|line|..] == more && (input + later)[|line|..] == input[|line|..] + later;
  }

  // ---------------------------------------------------------------- every step keeps the flows

  lemma SendFlows(e: End, peer: End, p: Packet)
    requires Flows(e, peer) && Sendable(p)
    ensures Flows(Local(e, Send(p)), peer)
  {
    hide Encode, EncodeAll, Sendable;
    var k := |peer.received|;
    var sent := e.sent + [p];
    assert sent[..k] == e.sent[..k];
    assert sent[k..] == e.sent[k..] + [p];
    EncodeAllAppend(e.sent[k..], [p]);
    EncodeAllOne(p);
    Longer(peer.input, peer.arrived, e.flying, e.output, Encode(p));
  }

  lemma Longer(i: string, a: string, f: string, o: string, x: string)
    ensures i + (a + (f + o)) + x == i + (a + (f + (o + x)))
  {}

  lemma WriteFlows(e: End, peer: End, n: nat)
    requires Flows(e, peer)
    ensures Flows(Local(e, Write(n)), peer)
  {
    hide EncodeAll, Sendable;
    var k := Least(n, |e.output| % PASS);
    assert e.flying + e.output == e.flying + e.output[..k] + e.output[k..];
  }

  lemma ArriveFlows(e: End, peer: End, n: nat)
    requires Flows(peer, e)
    ensures var (e', peer') := Act(e, peer, Arrive(n)); Flows(peer', e')
  {
    hide EncodeAll, Sendable;
    var k := Least(n, |peer.flying|);
    Moved(e.arrived, peer.flying, k, peer.output);
  }

  lemma ReadFlows(e: End, peer: End, n: nat)
    requires Flows(peer, e)
    ensures Flows(peer, Local(e, Read(n)))
  {
    hide EncodeAll, Sendable;
    var k := Least(n, |e.arrived| % PASS);
    Moved(e.input, e.arrived, k, peer.flying + peer.output);
  }

  lemma Moved(i: string, f: string, k: nat, o: string)
    requires k <= |f|
    ensures i + (f + o) == i + f[..k] + (f[k..] + o)
  {}

  lemma TakeFlows(e: End, peer: End)
    requires Flows(peer, e)
    ensures var e' := Local(e, Take);
      && Flows(peer, e') && e'.sent == e.sent && e'.output == e.output && e'.flying == e.flying && e'.arrived == e.arrived
      && e'.refused == e.refused
  {
    hide Poll, EncodeAll, Sendable, LineEnd;
    var k := |e.received|;
    var ps := peer.sent[k..];
    FrontPolls(ps, e.input, e.arrived + (peer.flying + peer.output));
    if ps != [] && LineEnd(e.input) < |e.input| {
      assert peer.sent[..k + 1] == peer.sent[..k] + [ps[0]];
      assert ps[1..] == peer.sent[k + 1..];
    }
  }

  lemma ActSound(e: End, peer: End, ev: Event)
    requires Flows(e, peer) && Flows(peer, e) && e.refused == 0 && (ev.Send? ==> Sendable(ev.p))
    ensures var (e', peer') := Act(e, peer, ev); Flows(e', peer') && Flows(peer', e') && e'.refused == 0 && peer'.refused == peer.refused
  {
    match ev
    case Send(p) => hide Encode, EncodeAll; SendFlows(e, peer, p);
    case Write(n) => hide EncodeAll; WriteFlows(e, peer, n);
    case Arrive(n) => hide EncodeAll; ArriveFlows(e, peer, n);
    case Read(n) => hide EncodeAll; ReadFlows(e, peer, n);
    case Take => hide Poll, EncodeAll; TakeFlows(e, peer);
  }

  /** Over every run, however the bytes are cut up: nothing is lost, added, reordered or refused. */
  lemma {:induction false} RunSound(evs: seq<(bool, Event)>)
    requires Permitted(evs)
    ensures Sound(Run(Net(SILENT, SILENT), evs))
    decreases |evs|
  {
    hide Act, Flows;
    if evs == [] {
      SilentFlows();
    } else {
      var init, ev := evs[..|evs| - 1], evs[|evs| - 1];
      RunSound(init);
      var n := Run(Net(SILENT, SILENT), init);
      if ev.0 { ActSound(n.a, n.b, ev.1); } else { ActSound(n.b, n.a, ev.1); }
    }
  }

  lemma SilentFlows()
    ensures Flows(SILENT, SILENT)
  {}

  // ---------------------------------------------------------------- what follows for both directions

  /** What has been received is a prefix of what has been sent, and the rest is on the way. */
  predicate Conserved(from: End, to: End) {
    && |to.received| <= |from.sent|
    && EncodeAll(from.sent) == EncodeAll(from.sent[..|to.received|]) + (to.input + (to.arrived + (from.flying + from.output)))
  }

  lemma FlowsConserve(from: End, to: End)
    requires Flows(from, to)
    ensures Conserved(from, to)
  {
    hide EncodeAll;
    var k := |to.received|;
    EncodeAllAppend(from.sent[..k], from.sent[k..]);
    assert from.sent == from.sent[..k] + from.sent[k..];
  }

  /** The bytes of the packets received, then the queues and the connection, are all that was printed. */
  lemma BytesConserved(evs: seq<(bool, Event)>)
    requires Permitted(evs)
    ensures var n := Run(Net(SILENT, SILENT), evs); Conserved(n.a, n.b) && Conserved(n.b, n.a)
  {
    hide Run, Flows, Conserved;
    RunSound(evs);
    var n := Run(Net(SILENT, SILENT), evs);
    FlowsConserve(n.a, n.b);
    FlowsConserve(n.b, n.a);
  }

  /** Nothing left to write, to arrive, to read or to poll. */
  predicate Quiet(from: End, to: End) {
    from.output == "" && from.flying == "" && to.arrived == "" && Poll(to.input).0 == None
  }

  /** Once the network is quiet in one direction, everything sent that way has been received. */
  lemma QuietDelivers(evs: seq<(bool, Event)>)
    requires Permitted(evs)
    ensures var n := Run(Net(SILENT, SILENT), evs);
      (Quiet(n.a, n.b) ==> n.b.received == NormalAll(n.a.sent)) && (Quiet(n.b, n.a) ==> n.a.received == NormalAll(n.b.sent))
  {
    hide Run, Flows, Quiet, NormalAll;
    RunSound(evs);
    var n := Run(Net(SILENT, SILENT), evs);
    if Quiet(n.a, n.b) { QuietReceived(n.a, n.b); }
    if Quiet(n.b, n.a) { QuietReceived(n.b, n.a); }
  }

  lemma QuietReceived(from: End, to: End)
    requires Flows(from, to) && Quiet(from, to)
    ensures to.received == NormalAll(from.sent)
  {
    hide Encode, LineEnd, Decode, Sendable, Cut;
    var k := |to.received|;
    var ps := from.sent[k..];
    Nothing(to.input);
    FrontPolls(ps, to.input, "");
    if ps != [] {
      EncodesOneLine(ps[0]);
      LineLeads(Encode(ps[0]), EncodeAll(ps[1..]));
      assert false;
    }
    assert from.sent[..k] == from.sent;
  }

  lemma Nothing(s: string)
    ensures s + ("" + ("" + "")) == s && s + "" == s
  {}

  /** In every reachable state, both ways, what has been received is a prefix of what has been sent. */
  lemma ReceivedIsPrefix(evs: seq<(bool, Event)>)
    requires Permitted(evs)
    ensures var n := Run(Net(SILENT, SILENT), evs);
      n.b.received <= NormalAll(n.a.sent) && n.a.received <= NormalAll(n.b.sent)
  {
    RunSound(evs);
    var n := Run(Net(SILENT, SILENT), evs);
    hide Run, EncodeAll, Sendable;
    NormalPrefix(n.a.sent, |n.b.received|);
    NormalPrefix(n.b.sent, |n.a.received|);
  }

  lemma NormalPrefix(ps: seq<Packet>, k: nat)
    requires k <= |ps|
    ensures NormalAll(ps[..k]) <= NormalAll(ps)
  {}

  /** Two runs in which the same packets were sent and that have come to rest delivered the same. */
  lemma ChunkIndependent(xs: seq<(bool, Event)>, ys: seq<(bool, Event)>)
    requires Permitted(xs) && Permitted(ys)
    ensures var (m, n) := (Run(Net(SILENT, SILENT), xs), Run(Net(SILENT, SILENT), ys));
      && (m.a.sent == n.a.sent && Quiet(m.a, m.b) && Quiet(n.a, n.b) ==> m.b.received == n.b.received)
      && (m.b.sent == n.b.sent && Quiet(m.b, m.a) && Quiet(n.b, n.a) ==> m.a.received == n.a.received)
  {
    hide Run, Quiet, NormalAll;
    QuietDelivers(xs);
    QuietDelivers(ys);
  }
}
