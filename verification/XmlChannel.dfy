/** A channel that sends and takes length-prefixed XML packets over its queues. */
module XmlChannel {
  import opened Bytes
  import opened Packets
  import opened CallBuffer
  import opened PacketCodec
  import opened Handshakes
  import opened HandshakeLink
  import opened XmlText
  import opened XmlTree
  import opened XmlEquality
  import opened XmlPackets
  import opened XmlElements

  /** CPacketBase::EncodeBody: the packet of some listing of the element. */
  method PutXml(b: Buffer, k: Kind, e: XmlElement)
    requires b.Valid() && e.Valid()
    modifies b, b.data
    ensures b.Valid() && (fresh(b.data) || b.data == old(b.data))
    ensures exists l :: Lists(l, old(e.tree)) && b.Contents() == old(b.Contents()) + EncodeXml(k, l)
  {
    hide PrintInt, Document, Lists;
    var xml := e.ToString(false, true);
    ghost var tree := e.tree;
    ghost var l :| Lists(l, tree) && xml == Document(l, false, true);
    ghost var was := b.Contents();
    var line := Id(k) + " " + PrintInt(|xml|) + "\r\n";
    b.Add(line);
    b.Add(xml);
    b.Add("\r\n");
    Joined(was, line, xml);
    assert Lists(l, tree) && b.Contents() == was + EncodeXml(k, l);
  }

  lemma Joined(was: string, line: string, xml: string)
    ensures was + line + xml + "\r\n" == was + (line + xml + "\r\n")
  {}

  /** The packet that an element object stands for. */
  ghost function Packed(k: Kind, e: XmlElement?): XmlPacket
    reads e
  {
    XmlPacket(k, if e == null then None else Some(e.tree))
  }

  /** CPacketBase::ReadBuffer and LoadPacket: the kind, the element or null, and the size. */
  method ReadXml(s: string) returns (k: Option<Kind>, e: XmlElement?, n: nat)
    ensures e != null ==> fresh(e.repr) && e.Valid()
    ensures DecodeXml(s) == if k.None? then None else Some((Packed(k.value, e), n))
  {
    hide Field, Next, FromString, Atoi, Lower;
    e, n := null, 0;
    var id := ReadField(s, 0, 10, ' ');
    k := KindOf(id);
    if k.None? { return; }
    var cursor := new PacketCodec.Cursor(s, |id|);
    var text := cursor.Read(16, ' ');
    var length := Atoi(text);
    if length < 0 || |s| < cursor.at + 2 + length { return; }
    n := cursor.at + 2 + length;
    e := FromText(s[cursor.at + 2..n], false);
    if e != null {
      e.ValueIs();
      if k.value.SyncOrderRelation? && Lower(e.name) != "syncorderrelation" { e := null; }
    }
  }

  /** CChannel::ReadBuffer */
  method ReadBuffer(h: Handshake) returns (k: Option<Kind>, e: XmlElement?)
    requires h.Valid()
    modifies h`accepted, h.input, h.input.data, h.output, h.output.data
    ensures h.Valid() && h.input.data == old(h.input.data) && (fresh(h.output.data) || h.output.data == old(h.output.data))
    ensures e != null ==> fresh(e.repr) && e.Valid()
    ensures var (q, rest, reply) := PollXml(old(h.input.Contents()));
      && q == (if k.None? then None else Some(Packed(k.value, e))) && h.input.Contents() == rest && old(h.accepted) <= h.accepted
      && h.accepted + h.output.Contents() == old(h.accepted) + (old(h.output.Contents()) + reply)
  {
    hide Encode, DecodeXml, CutReturn, Cut, XmlElement.Valid, Packed;
    ghost var out := h.output.Contents();
    assert out + "" == out;
    k, e := None, null;
    var found, line := h.input.PeekLine();
    if !found { return; }
    var n;
    k, e, n := ReadXml(h.input.data[..h.input.length]);
    h.CutInput(if k.None? then |line| else n);
    if k.None? { var _ := h.SendPacket(Err(UNKNOWN)); }
  }
}
