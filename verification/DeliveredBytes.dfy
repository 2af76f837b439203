/** From a delivered packet to bytes and back: what the handlers hand to a
    session, built by src/packet/builder.cpp, is what a reader of those bytes
    gets (src/packet/builder.cpp:26-62, src/qos/qos2.cpp:35-66). */
module DeliveredBytes {
  import opened Wrappers
  import opened Octets
  import opened RemainingLength
  import opened Framing
  import opened Buffer
  import opened Packets
  import opened InFlight
  import opened PacketIds
  import opened TrieSpec
  import opened FanOut

  // ---------------------------------------------------------------- strings as bytes

  /** A string that is a sequence of octets, as every topic of the broker is. */
  predicate Narrow(s: string) {
    forall i :: 0 <= i < |s| ==> s[i] as int < 256
  }

  function BytesOf(s: string): (b: Bytes)
    requires Narrow(s)
    ensures |b| == |s| && forall i :: 0 <= i < |s| ==> b[i] == s[i] as int
  {
    seq(|s|, i requires 0 <= i < |s| => s[i] as int)
  }

  function TextOf(b: Bytes): (s: string)
    ensures |s| == |b| && forall i :: 0 <= i < |b| ==> s[i] as int == b[i]
  {
    seq(|b|, i requires 0 <= i < |b| => b[i] as char)
  }

  lemma {:induction false} TextIff(s: string, b: Bytes)
    requires Narrow(s)
    ensures TextOf(b) == s <==> b == BytesOf(s)
  {
    if TextOf(b) == s {
      forall i | 0 <= i < |b| ensures b[i] == BytesOf(s)[i] {
        assert TextOf(b)[i] == s[i];
      }
    }
    assert b == BytesOf(s) ==> forall i :: 0 <= i < |b| ==> TextOf(b)[i] == s[i];
  }

  // ------------------------------------------------------------------ there and back

  const PUBREL := 6

  predicate Buildable(p: Packet) {
    p.pid < 65536 && (p.Publish? ==> Narrow(p.topic))
  }

  /** The bytes that `session->deliver` is given. */
  function WireBytes(p: Packet): Bytes
    requires Buildable(p)
  {
    match p
    case Publish(topic, payload, qos, retain, dup, pid) => PublishBytes(BytesOf(topic), payload, qos, retain, dup, pid)
    case Pubrel(pid) => Wrapped(PUBREL, 2, Uint16(pid))
  }

  function BodySize(p: Packet): nat
    requires Buildable(p)
  {
    match p
    case Publish(topic, payload, qos, retain, dup, pid) => |PublishBody(BytesOf(topic), payload, qos, pid)|
    case Pubrel(_) => 2
  }

  /** What a reader makes of a packet's bytes: header, then fields by type. */
  function Understood(b: Bytes): Option<Packet> {
    match TakeHeader(b)
    case Err(_) => None
    case Ok((hdr, body)) =>
      if hdr.kind == PUBLISH then
        match TakePublish(body, hdr)
        case Err(_) => None
        case Ok(p) => Some(Publish(TextOf(p.topic), p.payload, p.qos, p.retain, p.dup, p.packetId))
      else if hdr.kind == PUBREL then
        match TakeUint16(body)
        case Err(_) => None
        case Ok((pid, _)) => Some(Pubrel(pid))
      else None
  }

  /** A packet comes back, framed whole whatever follows it, exactly when its
      topic has at most 65535 bytes, its QoS fits two bits, and it has no
      identifier at QoS 0. */
  lemma {:induction false} PacketBackIff(p: Packet, rest: Bytes, maxPacket: nat)
    requires Buildable(p) && BodySize(p) <= maxPacket <= MAX_LENGTH
    ensures NextFrame(WireBytes(p) + rest, maxPacket) == Complete(|WireBytes(p)|)
    ensures Understood(WireBytes(p)) == Some(p)
       <==> (p.Publish? ==> |p.topic| <= 65535 && p.qos <= 3 && (p.qos == 0 ==> p.pid == 0))
  {
    match p {
      case Publish(topic, payload, qos, retain, dup, pid) =>
        PublishRoundTripIff(BytesOf(topic), payload, qos, retain, dup, pid, rest, maxPacket);
        PublishFramed(BytesOf(topic), payload, qos, retain, dup, pid, rest, maxPacket);
        PublishBackIff(p);
      case Pubrel(pid) =>
        AckRoundTrip(PUBREL, 2, pid, rest, maxPacket);
    }
  }

  lemma {:induction false} PublishBackIff(p: Packet)
    requires Buildable(p) && p.Publish?
    requires TakeHeader(WireBytes(p)).Ok? && TakeHeader(WireBytes(p)).value.0.kind == PUBLISH
    requires var (hdr, body) := TakeHeader(WireBytes(p)).value;
             TakePublish(body, hdr)
             == Ok(PublishPacket(BytesOf(p.topic), p.payload, p.qos, p.retain, p.dup, if p.qos > 0 then p.pid else 0))
             <==> |p.topic| <= 65535 && p.qos <= 3
    ensures Understood(WireBytes(p)) == Some(p)
       <==> |p.topic| <= 65535 && p.qos <= 3 && (p.qos == 0 ==> p.pid == 0)
  {
    var (hdr, body) := TakeHeader(WireBytes(p)).value;
    if TakePublish(body, hdr).Ok? {
      TextIff(p.topic, TakePublish(body, hdr).value.topic);
    }
    TakePublishId(body, hdr);
  }

  lemma TakePublishId(b: Bytes, hdr: Header)
    ensures TakePublish(b, hdr).Ok? && TakePublish(b, hdr).value.qos == 0 ==> TakePublish(b, hdr).value.packetId == 0
  {}

  /** A PUBREL is 0x62 0x02 and its identifier. */
  lemma {:induction false} PubrelLayout(pid: nat)
    requires pid < 65536
    ensures WireBytes(Pubrel(pid)) == [0x62, 2, pid / 256, pid % 256]
  {
    AckLayout(PUBREL, 2, pid);
  }

  /** Every packet of a fan-out, read back from its bytes, carries the topic and
      the payload that were published, with DUP clear. */
  lemma {:induction false} FanOutIsRead(level: Level, before: State, after: State, entries: seq<Entry>,
                                        sent: seq<Option<Event>>, p: Publication, cfg: Config, j: nat,
                                        rest: Bytes, maxPacket: nat)
    requires p.pub.Publish? && Narrow(p.pub.topic) && |p.pub.topic| <= 65535
    requires |p.pub.topic| + |p.pub.payload| + 4 <= maxPacket <= MAX_LENGTH
    requires FannedOut(level, before, after, entries, sent, p, cfg) && j < |sent| && sent[j].Some?
    ensures sent[j].value.Sent? && Buildable(sent[j].value.packet)
    ensures var bytes := WireBytes(sent[j].value.packet);
            && NextFrame(bytes + rest, maxPacket) == Complete(|bytes|)
            && Understood(bytes) == Some(sent[j].value.packet)
            && Understood(bytes).value.Publish?
            && Understood(bytes).value.topic == p.pub.topic && Understood(bytes).value.payload == p.pub.payload
            && !Understood(bytes).value.dup
  {
    assert DeliveredTo(level, entries[j], sent[j], p);
    var packet := sent[j].value.packet;
    assert packet.pid <= ID_COUNT;
    PacketBackIff(packet, rest, maxPacket);
  }
}
