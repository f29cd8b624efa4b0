/** A connection object with the history that makes it one end of the machine: every method is one or two of its steps. */
module WireEndpoints {
  import opened Bytes
  import opened Packets
  import opened CallBuffer
  import opened Handshakes
  import opened HandshakeLink
  import opened Wire

  class Endpoint {
    const h: Handshake
    ghost var e: End
    /** What the peer's socket has got of the bytes accepted by this one. */
    var gone: string

    ghost predicate Valid()
      reads this, h, h.input, h.output, h.input.data, h.output.data
    {
      && h.Valid() && e.output == h.output.Contents() && e.input == h.input.Contents()
      && e.arrived == h.arrived && gone + e.flying == h.accepted
    }

    constructor ()
      ensures Valid() && e == SILENT
      ensures fresh(h) && fresh(h.input) && fresh(h.output) && fresh(h.input.data) && fresh(h.output.data)
    {
      h := new Handshake();
      e, gone := SILENT, "";
    }

    /** CConnection::OnWrite is a write. */
    method OnWrite()
      requires Valid()
      modifies h`accepted, h.output, h.output.data, this`e
      ensures Valid() && h.output.data == old(h.output.data) && exists k: nat :: e == Local(old(e), Write(k))
    {
      hide Local;
      ghost var accepted := h.accepted;
      h.OnWrite();
      ghost var k := Writes(e, gone, accepted, h.accepted, h.output.Contents());
      e := Local(e, Write(k));
    }

    /** CConnection::OnRead is a read. */
    method OnRead()
      requires Valid()
      modifies h`arrived, h.input, h.input.data, this`e
      ensures Valid() && (fresh(h.input.data) || h.input.data == old(h.input.data)) && exists k: nat :: e == Local(old(e), Read(k))
    {
      hide Local;
      h.OnRead();
      ghost var k := Reads(e, h.input.Contents(), h.arrived);
      e := Local(e, Read(k));
    }

    /** CHandshake::SendPacket sends and then writes. */
    method SendPacket(p: Packet) returns (q: Packet)
      requires Valid()
      modifies h`accepted, h.output, h.output.data, this`e
      ensures Valid() && (fresh(h.output.data) || h.output.data == old(h.output.data)) && q == Normal(p)
      ensures exists k: nat :: e == Local(Local(old(e), Send(p)), Write(k))
    {
      hide Encode, Local;
      ghost var accepted := h.accepted;
      q := h.SendPacket(p);
      Sends(e, p);
      ghost var x := Local(e, Send(p));
      ghost var k := Writes(x, gone, accepted, h.accepted, h.output.Contents());
      e := Local(x, Write(k));
    }

    /** CHandshake::ReadBuffer takes a packet, or writes after the reply to an unknown line. */
    method ReadBuffer() returns (p: Option<Packet>)
      requires Valid()
      modifies h`accepted, h.input, h.input.data, h.output, h.output.data, this`e
      ensures Valid() && h.input.data == old(h.input.data) && (fresh(h.output.data) || h.output.data == old(h.output.data))
      ensures p == Poll(old(e).input).0
      ensures exists k: nat :: e == Local(Local(old(e), Take), Write(k))
    {
      hide Poll, Local;
      ghost var accepted := h.accepted;
      p := h.ReadBuffer();
      Takes(e);
      ghost var x := Local(e, Take);
      ghost var k := Writes(x, gone, accepted, h.accepted, h.output.Contents());
      e := Local(x, Write(k));
    }

    /** The network moves at most n bytes from the peer's socket to this one. */
    method Arrive(peer: Endpoint, n: nat)
      requires Valid() && peer.Valid() && peer != this && peer.h != h
      modifies this`e, h`arrived, peer`e, peer`gone
      ensures Valid() && peer.Valid() && (e, peer.e) == Act(old(e), old(peer.e), Event.Arrive(n))
    {
      var from := |peer.gone|;
      var k := Least(n, |peer.h.accepted| - from);
      var chunk := peer.h.accepted[from..from + k];
      assert chunk == peer.e.flying[..k];
      assert peer.gone + chunk + peer.e.flying[k..] == peer.h.accepted;
      h.arrived := h.arrived + chunk;
      ghost var (x, y) := Act(e, peer.e, Event.Arrive(n));
      e, peer.e, peer.gone := x, y, peer.gone + chunk;
    }
  }

  lemma Sends(x: End, p: Packet)
    ensures Local(x, Send(p)) == x.(sent := x.sent + [p], output := x.output + Encode(p))
  {}

  /** A packet comes without a reply, and a reply is the refusal. */
  lemma PollReplies(s: string)
    ensures Poll(s).0.Some? ==> Poll(s).2 == ""
    ensures Poll(s).0.None? && Poll(s).2 != "" ==> Poll(s).2 == Encode(Err(UNKNOWN))
  {
    hide Encode, Decode, Cut, LineEnd, CutReturn;
  }

  lemma Takes(x: End)
    ensures var y := Local(x, Take);
      && y.output == x.output + Poll(x.input).2 && y.input == Poll(x.input).1 && y.arrived == x.arrived && y.flying == x.flying
  {
    hide Poll;
    PollReplies(x.input);
    assert x.output + "" == x.output;
  }

  /** A transfer that keeps the bytes and their order is one write step. */
  lemma Writes(x: End, gone: string, accepted: string, accepted': string, output': string) returns (k: nat)
    requires gone + x.flying == accepted <= accepted' && accepted' + output' == accepted + x.output
    requires |accepted'| - |accepted| <= |x.output| % PASS
    ensures var y := Local(x, Write(k));
      y.output == output' && gone + y.flying == accepted' && y.input == x.input && y.arrived == x.arrived
  {
    k := |accepted'| - |accepted|;
    Cuts(accepted, x.output, accepted', output', k);
    assert gone + x.flying + x.output[..k] == gone + (x.flying + x.output[..k]);
  }

  lemma Cuts(a: string, b: string, a': string, b': string, k: nat)
    requires a' + b' == a + b && k == |a'| - |a|
    ensures k <= |b| && a' == a + b[..k] && b' == b[k..]
  {
    assert |a'| + |b'| == |a| + |b|;
    assert a' == (a + b)[..|a'|] == a + b[..k];
    assert b' == (a' + b')[|a'|..] == b[k..];
  }

  /** A receipt that keeps the bytes and their order is one read step. */
  lemma Reads(x: End, input': string, arrived': string) returns (k: nat)
    requires x.input <= input' && input' + arrived' == x.input + x.arrived && |x.arrived| - |arrived'| <= |x.arrived| % PASS
    ensures var y := Local(x, Read(k));
      y.input == input' && y.arrived == arrived' && y.output == x.output && y.flying == x.flying
  {
    k := |input'| - |x.input|;
    Cuts(x.input, x.arrived, input', arrived', k);
  }
}
