/** A handshake connection: its two queues, the socket between them and the peer, and its packets. */
module HandshakeLink {
  import opened Bytes
  import opened Packets
  import opened CallBuffer
  import opened PacketCodec
  import opened Handshakes

  class Handshake {
    const input: Buffer
    const output: Buffer
    /** Everything the socket has accepted for the peer. */
    var accepted: string
    /** What has come from the peer and has not been received. */
    var arrived: string

    ghost predicate Valid()
      reads this, input, output
    {
      input != output && input.data != output.data && input.Valid() && output.Valid()
    }

    constructor ()
      ensures Valid() && fresh(input) && fresh(output) && fresh(input.data) && fresh(output.data)
      ensures input.Contents() == "" && output.Contents() == "" && accepted == "" && arrived == ""
    {
      input := new Buffer();
      output := new Buffer();
      accepted, arrived := "", "";
    }

    /** send: takes any part of what is offered, or reports an error. */
    method Send(chunk: string) returns (n: int)
      modifies this`accepted
      ensures -1 <= n <= |chunk| && accepted == old(accepted) + chunk[..if n > 0 then n else 0]
    {
      n :| -1 <= n <= |chunk|;
      accepted := accepted + chunk[..if n > 0 then n else 0];
    }

    /** recv: gives any part of what has arrived, up to limit characters, or reports an error. */
    method Receive(limit: nat) returns (n: int, chunk: string)
      modifies this`arrived
      ensures -1 <= n <= limit && |chunk| == (if n > 0 then n else 0) && chunk + arrived == old(arrived)
    {
      n :| -1 <= n <= limit && n <= |arrived|;
      chunk := arrived[..if n > 0 then n else 0];
      arrived := arrived[if n > 0 then n else 0..];
    }

    /** CConnection::OnWrite: bytes move from the front of the queue to the socket, but not past a multiple of 2^20. */
    method OnWrite()
      requires Valid()
      modifies this`accepted, output, output.data
      ensures Valid() && output.data == old(output.data)
      ensures old(accepted) <= accepted
      ensures accepted + output.Contents() == old(accepted) + old(output.Contents())
      ensures |accepted| - |old(accepted)| <= |old(output.Contents())| % 0x100000
    {
      hide Offer, Dropped;
      ghost var was, before := output.Contents(), accepted;
      var at, left := 0, output.length;
      NothingSent(before, was);
      while left > 0
        invariant Valid() && 0 <= at && 0 <= left && at + left == output.length && output.Contents() == was
        invariant accepted == before + was[..at]
        invariant at <= |was| % 0x100000
        modifies this`accepted
      {
        Remainder(|was|, at);
        var offer := Offer(left);
        var chunk := output.data[at..at + offer];
        var n := Send(chunk);
        if n <= 0 {
          NothingSent(before + was[..at], chunk);
          break;
        }
        Sliced(before, was, output.data[..], output.length, at, offer, n);
        at, left := at + n, left - n;
      }
      var total := output.length - left;
      AllSent(before, was, total);
      if total > 0 { output.Remove(total); }
    }

    /** CConnection::OnRead: bytes move from the socket to the end of the queue, but not past a multiple of 2^20. */
    method OnRead()
      requires Valid()
      modifies this`arrived, input, input.data
      ensures Valid() && (fresh(input.data) || input.data == old(input.data))
      ensures old(input.Contents()) <= input.Contents()
      ensures input.Contents() + arrived == old(input.Contents()) + old(arrived)
      ensures |old(arrived)| - |arrived| <= |old(arrived)| % 0x100000
    {
      var left := |arrived|;
      while left > 0
        invariant Valid() && (fresh(input.data) || input.data == old(input.data)) && 0 <= left <= |arrived|
        invariant old(input.Contents()) <= input.Contents()
        invariant input.Contents() + arrived == old(input.Contents()) + old(arrived)
        invariant left == |arrived| && |old(arrived)| - left <= |old(arrived)| % 0x100000
      {
        Remainder(|old(arrived)|, |old(arrived)| - left);
        ghost var before, wire := input.Contents(), arrived;
        var n, chunk := Receive(Offer(left));
        if n <= 0 {
          assert chunk == "" && arrived == wire;
          break;
        }
        input.Add(chunk);
        assert before + chunk + arrived == before + (chunk + arrived);
        left := left - n;
      }
    }

    /** CHandshake::SendPacket: print the packet and write what the socket takes; the record sent. */
    method SendPacket(p: Packet) returns (q: Packet)
      requires Valid()
      modifies this`accepted, output, output.data
      ensures Valid() && (fresh(output.data) || output.data == old(output.data)) && q == Normal(p)
      ensures old(accepted) <= accepted
      ensures accepted + output.Contents() == old(accepted) + (old(output.Contents()) + Encode(p))
      ensures |accepted| - |old(accepted)| <= (|old(output.Contents())| + |Encode(p)|) % 0x100000
    {
      hide Encode;
      q := EncodeBody(output, p);
      OnWrite();
    }

    /** Remove a packet or line whose text ends at n, with the line feed and a carriage return at n. */
    method CutInput(n: nat)
      requires Valid()
      modifies input`length, input.data
      ensures Valid() && input.data == old(input.data) && output.data == old(output.data)
      ensures input.Contents() == Cut(old(input.Contents()), n) && output.Contents() == old(output.Contents())
    {
      CutAll(input.Contents(), n);
      hide Cut;
      input.Remove(n + 1 + if n < input.length && input.data[n] == '\r' then 1 else 0);
    }

    /** CHandshake::ReadBuffer on the input queue. */
    method ReadBuffer() returns (p: Option<Packet>)
      requires Valid()
      modifies this`accepted, input, input.data, output, output.data
      ensures Valid() && input.data == old(input.data) && (fresh(output.data) || output.data == old(output.data))
      ensures var (q, rest, reply) := Poll(old(input.Contents()));
        && p == q && input.Contents() == rest
        && old(accepted) <= accepted && accepted + output.Contents() == old(accepted) + (old(output.Contents()) + reply)
        && |accepted| - |old(accepted)| <= (|old(output.Contents())| + |reply|) % 0x100000
    {
      hide Encode, Decode, CutReturn, Cut;
      ghost var out := output.Contents();
      assert out + "" == out;
      var found, line := input.PeekLine();
      if !found { return None; }
      var d := ReadPacket(input.data[..input.length]);
      if d.None? {
        CutInput(|line|);
        var _ := SendPacket(Err(UNKNOWN));
        p := None;
      } else {
        CutInput(d.value.1);
        p := Some(d.value.0);
      }
    }
  }

  lemma Remainder(n: nat, at: nat)
    requires at <= n % 0x100000
    ensures (n - at) % 0x100000 == n % 0x100000 - at
  {}

  lemma NothingSent(accepted: string, s: string)
    ensures accepted + s[..0] == accepted
  {}

  lemma Sliced(before: string, was: string, data: string, length: nat, at: nat, offer: nat, n: nat)
    requires length <= |data| && was == data[..length] && at + offer <= length && n <= offer
    ensures before + was[..at] + data[at..at + offer][..n] == before + was[..at + n]
  {
    assert data[at..at + offer][..n] == was[at..at + n];
    assert was[..at] + was[at..at + n] == was[..at + n];
    assert before + was[..at] + was[at..at + n] == before + (was[..at] + was[at..at + n]);
  }

  lemma AllSent(before: string, was: string, at: nat)
    requires at <= |was|
    ensures before + was[..at] + Dropped(was, at) == before + was && (at == 0 ==> Dropped(was, at) == was)
    ensures before <= before + was[..at]
  {
    assert was[..at] + was[at..] == was;
    assert before + was[..at] + was[at..] == before + (was[..at] + was[at..]);
  }

  lemma CutAll(s: string, n: nat)
    ensures Cut(s, n) == Dropped(s, n + 1 + if n < |s| && s[n] == '\r' then 1 else 0)
  {}
}
