/** Building and taking apart packets (src/packet/builder.cpp,
    src/packet/packets.cpp, src/session.cpp:176-188). */
module Packets {
  import opened Wrappers
  import opened Octets
  import opened RemainingLength
  import opened Framing
  import opened Buffer

  // ----------------------------------------------------------------- fixed header

  datatype Header = Header(kind: nat, dup: bool, qos: nat, retain: bool, remaining: nat)

  function HeaderOf(first: byte, remaining: nat): Header {
    Header(first / 16, (first / 8) % 2 == 1, (first / 2) % 4, first % 2 == 1, remaining)
  }

  /** The header and the bytes after it. */
  function TakeHeader(b: Bytes): Result<(Header, Bytes), ReadError> {
    if b == [] then Err(Underflow)
    else
      match RemainingLength.Read(b[1..])
      case Err(e) => Err(e)
      case Ok((v, size)) =>
        DecodeBounds(b[1..], 4);
        Ok((HeaderOf(b[0], v), b[1 + size..]))
  }

  /** The start of `Session::handle_packet`. */
  method ReadHeader(packet: Buffer) returns (r: Result<Header, ReadError>)
    requires packet.Valid()
    modifies packet`readPos
    ensures packet.Valid()
    ensures match TakeHeader(old(packet.Unread()))
            case Ok((h, rest)) => r == Ok(h) && packet.Unread() == rest
            case Err(e) => r == Err(e)
  {
    ghost var u := packet.Unread();
    var first := packet.ReadByte();
    if first.Err? {
      return Err(first.error);
    }
    var n := packet.ReadRemainingLength();
    if n.Err? {
      return Err(n.error);
    }
    DecodeBounds(u[1..], 4);
    return Ok(HeaderOf(first.value, n.value));
  }

  // ---------------------------------------------------------------------- PUBLISH

  datatype PublishPacket =
    PublishPacket(topic: Bytes, payload: Bytes, qos: nat, retain: bool, dup: bool, packetId: nat)

  /** `PublishPacket::parse` on the bytes after the header. */
  function TakePublish(b: Bytes, hdr: Header): Result<PublishPacket, ReadError> {
    match TakeString(b)
    case Err(e) => Err(e)
    case Ok((topic, afterTopic)) =>
      var id := if hdr.qos > 0 then TakeUint16(afterTopic) else Ok((0, afterTopic));
      match id
      case Err(e) => Err(e)
      case Ok((pid, body)) =>
        var consumed := 2 + |topic| + (if hdr.qos > 0 then 2 else 0);
        if hdr.remaining < consumed then Err(RemainingTooSmall)
        else if hdr.remaining - consumed > |body| then Err(SkipUnderflow)
        else Ok(PublishPacket(topic, body[..hdr.remaining - consumed], hdr.qos, hdr.retain, hdr.dup, pid))
  }

  method ParsePublish(buf: Buffer, hdr: Header) returns (r: Result<PublishPacket, ReadError>)
    requires buf.Valid()
    modifies buf`readPos
    ensures buf.Valid() && r == TakePublish(old(buf.Unread()), hdr)
  {
    var topic := buf.ReadString();
    if topic.Err? {
      return Err(topic.error);
    }
    var consumed := 2 + |topic.value|;
    var pid := 0;
    if hdr.qos > 0 {
      var id := buf.ReadUint16();
      if id.Err? {
        return Err(id.error);
      }
      pid := id.value;
      consumed := consumed + 2;
    }
    var payloadLength := hdr.remaining;
    if payloadLength < consumed {
      return Err(RemainingTooSmall);
    }
    payloadLength := payloadLength - consumed;
    var payload := ReadPayload(buf, payloadLength);
    if payload.Err? {
      return Err(payload.error);
    }
    return Ok(PublishPacket(topic.value, payload.value, hdr.qos, hdr.retain, hdr.dup, pid));
  }

  method ReadPayload(buf: Buffer, n: nat) returns (r: Result<Bytes, ReadError>)
    requires buf.Valid()
    modifies buf`readPos
    ensures buf.Valid()
    ensures r == if n <= |old(buf.Unread())| then Ok(old(buf.Unread())[..n]) else Err(SkipUnderflow)
  {
    var payload: Bytes := [];
    if n > 0 {
      if n <= buf.writePos - buf.readPos {
        payload := buf.Unread()[..n];
      }
      var skipped := buf.Skip(n);
      if skipped.Err? {
        return Err(skipped.error);
      }
    }
    return Ok(payload);
  }

  // --------------------------------------------------------------------- builders

  const PUBLISH := 3
  const PUBACK := 4
  const PUBCOMP := 7

  function Flag(b: bool): nat {
    if b then 1 else 0
  }

  function Wrapped(kind: nat, flags: nat, body: Bytes): Bytes
    requires kind < 16
  {
    [kind * 16 + flags % 16] + Encode(|body|) + body
  }

  function PublishBody(topic: Bytes, payload: Bytes, qos: nat, pid: nat): Bytes
    requires pid < 65536
  {
    LengthPrefixed(topic) + (if qos > 0 then Uint16(pid) else []) + payload
  }

  function PublishFlags(qos: nat, retain: bool, dup: bool): (f: nat)
    ensures f < 16
  {
    8 * Flag(dup) + 2 * (qos % 4) + Flag(retain)
  }

  function PublishBytes(topic: Bytes, payload: Bytes, qos: nat, retain: bool, dup: bool, pid: nat): Bytes
    requires pid < 65536
  {
    Wrapped(PUBLISH, PublishFlags(qos, retain, dup), PublishBody(topic, payload, qos, pid))
  }

  method Wrap(kind: nat, flags: nat, body: Buffer) returns (packet: Buffer)
    requires kind < 16 && body.Valid()
    ensures fresh(packet) && packet.Valid() && packet.readPos == 0
    ensures packet.Contents() == Wrapped(kind, flags, body.Contents())
  {
    ghost var bytes := body.Contents();
    packet := new Buffer();
    packet.WriteByte(kind * 16 + flags % 16);
    packet.WriteRemainingLength(body.writePos);
    if body.writePos > 0 {
      packet.Write(body.data[..body.writePos]);
    }
    assert packet.Contents() == [kind * 16 + flags % 16] + Encode(|bytes|) + bytes;
  }

  method BuildPublish(topic: Bytes, payload: Bytes, qos: nat, retain: bool, dup: bool,
                      pid: nat) returns (packet: Buffer)
    requires pid < 65536
    ensures fresh(packet) && packet.Valid() && packet.readPos == 0
    ensures packet.Contents() == PublishBytes(topic, payload, qos, retain, dup, pid)
  {
    var body := new Buffer();
    body.WriteString(topic);
    if qos > 0 {
      body.WriteUint16(pid);
    }
    if |payload| > 0 {
      body.Write(payload);
    }
    assert body.Contents() == PublishBody(topic, payload, qos, pid);
    var flags := 0;
    if dup {
      flags := flags + 8;
    }
    flags := flags + (qos % 4) * 2;
    if retain {
      flags := flags + 1;
    }
    assert flags == PublishFlags(qos, retain, dup);
    packet := Wrap(PUBLISH, flags, body);
  }

  /** PUBACK, PUBREC, PUBREL (flags 2) and PUBCOMP carry an identifier only. */
  method BuildAck(kind: nat, flags: nat, pid: nat) returns (packet: Buffer)
    requires kind < 16 && pid < 65536
    ensures fresh(packet) && packet.Valid() && packet.readPos == 0
    ensures packet.Contents() == Wrapped(kind, flags, Uint16(pid))
  {
    var body := new Buffer();
    body.WriteUint16(pid);
    assert body.Contents() == Uint16(pid);
    packet := Wrap(kind, flags, body);
  }

  // ------------------------------------------------------------------ what comes back

  /** A packet of at most 268435455 bytes after its header is framed whole,
      whatever follows it, and its header decodes to what was put in. */
  lemma {:induction false} WrappedComesBack(kind: nat, flags: nat, body: Bytes, rest: Bytes, maxPacket: nat)
    requires 1 <= kind <= 14 && |body| <= maxPacket <= MAX_LENGTH
    ensures var p := Wrapped(kind, flags, body);
            && NextFrame(p + rest, maxPacket) == Complete(|p|)
            && TakeHeader(p) == Ok((HeaderOf(kind * 16 + flags % 16, |body|), body))
  {
    var p, n := Wrapped(kind, flags, body), Encode(|body|);
    assert (p + rest)[1..] == n + (body + rest);
    RoundTripIff(|body|, body + rest);
    assert p[1..] == n + body;
    RoundTripIff(|body|, body);
    assert p[1 + |n|..] == body;
  }

  /** PUBACK, PUBREC, PUBREL and PUBCOMP give their identifier back. */
  lemma {:induction false} AckRoundTrip(kind: nat, flags: nat, pid: nat, rest: Bytes, maxPacket: nat)
    requires PUBACK <= kind <= PUBCOMP && pid < 65536 && 2 <= maxPacket <= MAX_LENGTH
    ensures var p := Wrapped(kind, flags, Uint16(pid));
            && NextFrame(p + rest, maxPacket) == Complete(|p|)
            && TakeHeader(p).Ok? && TakeHeader(p).value.0.kind == kind
            && TakeUint16(TakeHeader(p).value.1) == Ok((pid, []))
  {
    WrappedComesBack(kind, flags, Uint16(pid), rest, maxPacket);
    TakeUint16Back(pid, []);
    assert Uint16(pid) + [] == Uint16(pid);
  }

  lemma {:induction false} PublishFramed(topic: Bytes, payload: Bytes, qos: nat, retain: bool, dup: bool, pid: nat,
                                         rest: Bytes, maxPacket: nat)
    requires pid < 65536 && |PublishBody(topic, payload, qos, pid)| <= maxPacket <= MAX_LENGTH
    ensures var p, body := PublishBytes(topic, payload, qos, retain, dup, pid), PublishBody(topic, payload, qos, pid);
            && NextFrame(p + rest, maxPacket) == Complete(|p|)
            && TakeHeader(p) == Ok((Header(PUBLISH, dup, qos % 4, retain, |body|), body))
  {
    var flags, body := PublishFlags(qos, retain, dup), PublishBody(topic, payload, qos, pid);
    WrappedComesBack(PUBLISH, flags, body, rest, maxPacket);
    HeaderBits(PUBLISH, dup, qos, retain, |body|);
  }

  /** build_publish, framing, header decoding and parsing give the fields back,
      with identifier 0 for QoS 0, exactly when the topic has at most 65535 bytes
      and the QoS fits its two bits. */
  lemma {:induction false} PublishRoundTripIff(topic: Bytes, payload: Bytes, qos: nat, retain: bool, dup: bool,
                                               pid: nat,
                                               rest: Bytes, maxPacket: nat)
    requires pid < 65536 && |PublishBody(topic, payload, qos, pid)| <= maxPacket <= MAX_LENGTH
    ensures var p := PublishBytes(topic, payload, qos, retain, dup, pid);
            && NextFrame(p + rest, maxPacket) == Complete(|p|)
            && TakeHeader(p).Ok?
            && (TakePublish(TakeHeader(p).value.1, TakeHeader(p).value.0)
                == Ok(PublishPacket(topic, payload, qos, retain, dup, if qos > 0 then pid else 0))
                <==> |topic| <= 65535 && qos <= 3)
  {
    var body := PublishBody(topic, payload, qos, pid);
    PublishFramed(topic, payload, qos, retain, dup, pid, rest, maxPacket);
    var hdr := Header(PUBLISH, dup, qos % 4, retain, |body|);
    if qos <= 3 {
      BodyRoundTripIff(topic, payload, qos, pid, hdr);
    } else {
      TakePublishQos(body, hdr);
    }
  }

  lemma TakePublishQos(b: Bytes, hdr: Header)
    ensures TakePublish(b, hdr).Ok? ==> TakePublish(b, hdr).value.qos == hdr.qos
  {}

  lemma HeaderBits(kind: nat, dup: bool, qos: nat, retain: bool, remaining: nat)
    requires kind < 16
    ensures HeaderOf(kind * 16 + PublishFlags(qos, retain, dup) % 16, remaining)
         == Header(kind, dup, qos % 4, retain, remaining)
  {
    var f := PublishFlags(qos, retain, dup);
    assert f % 16 == f by { SmallRemainder(f); }
    HeaderOfBits(kind, dup, qos % 4, retain, remaining);
  }

  lemma SmallRemainder(f: nat)
    requires f < 16
    ensures f % 16 == f
  {}

  lemma HeaderOfBits(kind: nat, dup: bool, q: nat, retain: bool, remaining: nat)
    requires kind < 16 && q <= 3
    ensures HeaderOf(kind * 16 + (8 * Flag(dup) + 2 * q + Flag(retain)), remaining)
         == Header(kind, dup, q, retain, remaining)
  {
    FlagBits(kind, Flag(dup), q, Flag(retain));
  }

  lemma FlagBits(k: nat, d: nat, q: nat, r: nat)
    requires d <= 1 && q <= 3 && r <= 1
    ensures var first := k * 16 + (8 * d + 2 * q + r);
            first / 16 == k && (first / 8) % 2 == d && (first / 2) % 4 == q && first % 2 == r
  {
    var first := k * 16 + (8 * d + 2 * q + r);
    HighBits(first, k, 8 * d + 2 * q + r);
    DupBit(first, 2 * k + d, 2 * q + r, k, d);
    QosBits(first, 8 * k + 4 * d + q, r, 2 * k + d, q);
  }

  lemma HighBits(first: nat, high: nat, low: nat)
    requires first == 16 * high + low && low < 16
    ensures first / 16 == high
  {}

  lemma DupBit(first: nat, high: nat, low: nat, k: nat, d: nat)
    requires first == 8 * high + low && low < 8 && high == 2 * k + d && d < 2
    ensures (first / 8) % 2 == d
  {
    assert first / 8 == high;
  }

  lemma QosBits(first: nat, high: nat, r: nat, rest: nat, q: nat)
    requires first == 2 * high + r && r < 2 && high == 4 * rest + q && q < 4
    ensures (first / 2) % 4 == q && first % 2 == r
  {
    assert first / 2 == high;
  }

  lemma {:induction false} BodyRoundTripIff(topic: Bytes, payload: Bytes, qos: nat, pid: nat, hdr: Header)
    requires pid < 65536 && hdr.qos == qos && hdr.remaining == |PublishBody(topic, payload, qos, pid)|
    ensures TakePublish(PublishBody(topic, payload, qos, pid), hdr)
            == Ok(PublishPacket(topic, payload, qos, hdr.retain, hdr.dup, if qos > 0 then pid else 0))
            <==> |topic| <= 65535
  {
    var id := if qos > 0 then Uint16(pid) else [];
    var body := PublishBody(topic, payload, qos, pid);
    assert body == LengthPrefixed(topic) + (id + payload);
    TakeStringBack(topic, id + payload);
    TakeUint16Back(pid, payload);
    assert qos == 0 ==> id + payload == payload;
    assert payload[..|payload|] == payload;
  }

  // ------------------------------------------------------------------------ the layout

  /** High byte first. */
  lemma Uint16Means(v: nat)
    requires v < 65536
    ensures |Uint16(v)| == 2 && (Uint16(v)[0] as int) * 256 + Uint16(v)[1] as int == v
  {}

  /** The bytes of section 3.3 of MQTT 3.1.1, one after the other: type 3 with the
      flags, the length of what follows, the topic with its length, the identifier
      if there is one, and the payload. */
  lemma {:induction false} PublishLayout(topic: Bytes, payload: Bytes, qos: nat, retain: bool, dup: bool, pid: nat)
    returns (len: Bytes, size: Bytes, id: Bytes)
    requires pid < 65536 && |topic| <= 65535 && qos <= 3
    ensures var first := 48 + (if dup then 8 else 0) + 2 * qos + (if retain then 1 else 0);
            PublishBytes(topic, payload, qos, retain, dup, pid) == [first] + len + (size + topic + id + payload)
    ensures Field(len) && Value(len) == 2 + |topic| + |id| + |payload|
    ensures |size| == 2 && (size[0] as int) * 256 + size[1] as int == |topic|
    ensures if qos == 0 then id == [] else |id| == 2 && (id[0] as int) * 256 + id[1] as int == pid
  {
    var body := PublishBody(topic, payload, qos, pid);
    len, size, id := Encode(|body|), Uint16(|topic| % 65536), if qos > 0 then Uint16(pid) else [];
    EncodeMeans(|body|);
    FlagsBelow16(qos, retain, dup);
    Uint16Means(pid);
    TopicSize(topic);
  }

  lemma {:induction false} FlagsBelow16(qos: nat, retain: bool, dup: bool)
    requires qos <= 3
    ensures PUBLISH * 16 + PublishFlags(qos, retain, dup) % 16
         == 48 + (if dup then 8 else 0) + 2 * qos + (if retain then 1 else 0)
  {
    SmallRemainder(PublishFlags(qos, retain, dup));
    assert qos % 4 == qos;
  }

  lemma {:induction false} TopicSize(topic: Bytes)
    requires |topic| <= 65535
    ensures var size := Uint16(|topic| % 65536); (size[0] as int) * 256 + size[1] as int == |topic|
  {
    assert |topic| % 65536 == |topic|;
    Uint16Means(|topic|);
  }

  /** PUBACK, PUBREC, PUBREL and PUBCOMP of sections 3.4 to 3.7. */
  lemma {:induction false} AckLayout(kind: nat, flags: nat, pid: nat)
    requires kind < 16 && flags < 16 && pid < 65536
    ensures Wrapped(kind, flags, Uint16(pid)) == [16 * kind + flags, 2, pid / 256, pid % 256]
  {
    SmallRemainder(flags);
    assert Encode(2) == [2];
  }

  /** For every packet that framing yields, the second decoder succeeds and its
      length is exactly what is left to read. */
  lemma {:induction false} FramedHeader(b: Bytes, maxPacket: nat)
    requires NextFrame(b, maxPacket).Complete?
    ensures var n := NextFrame(b, maxPacket).size;
            n <= |b| && TakeHeader(b[..n]).Ok? && TakeHeader(b[..n]).value.0.remaining == |TakeHeader(b[..n]).value.1|
  {
    FrameBounds(b, maxPacket);
    var n, d := NextFrame(b, maxPacket).size, Decode(b[1..], 4);
    DecodeBounds(b[1..], 4);
    DecodePrefix(b[1..], 4, n - 1);
    TailOfPrefix(b, n);
  }

  lemma {:induction false} TailOfPrefix(b: Bytes, n: nat)
    requires 1 <= n <= |b|
    ensures b[..n][1..] == b[1..][..n - 1]
  {}

  /** Only the bytes of the length itself matter. */
  lemma {:induction false} DecodePrefix(b: Bytes, n: nat, k: nat)
    requires n >= 1 && Decode(b, n).Length? && Decode(b, n).size <= k <= |b|
    ensures Decode(b[..k], n) == Decode(b, n)
    decreases n
  {
    DecodeBounds(b, n);
    if b[0] >= 128 {
      DecodeBounds(b[1..], n - 1);
      TailOfPrefix(b, k);
      DecodePrefix(b[1..], n - 1, k - 1);
    }
  }

  /** The fields of a parsed PUBLISH are, in order, all its bytes. */
  ghost predicate SpelledOut(p: PublishPacket, tail: Bytes) {
    p.packetId < 65536
    && tail == LengthPrefixed(p.topic) + (if p.qos > 0 then Uint16(p.packetId) else []) + p.payload
  }

  lemma {:induction false} WholeTail(tail: Bytes, hdr: Header)
    requires hdr.remaining == |tail|
    ensures match TakePublish(tail, hdr)
            case Err(e) => e == Underflow
            case Ok(p) => SpelledOut(p, tail)
  {
    if TakeString(tail).Ok? {
      var (topic, rest) := TakeString(tail).value;
      StringSpelled(tail);
      if hdr.qos == 0 {
        assert rest[..|rest|] == rest;
        assert TakePublish(tail, hdr) == Ok(PublishPacket(topic, rest, 0, hdr.retain, hdr.dup, 0));
        assert LengthPrefixed(topic) + [] + rest == LengthPrefixed(topic) + rest;
      } else if TakeUint16(rest).Ok? {
        var (pid, body) := TakeUint16(rest).value;
        WordSpelled(rest);
        assert body[..|body|] == body;
        assert TakePublish(tail, hdr) == Ok(PublishPacket(topic, body, hdr.qos, hdr.retain, hdr.dup, pid));
        assert LengthPrefixed(topic) + (Uint16(pid) + body) == LengthPrefixed(topic) + Uint16(pid) + body;
      }
    }
  }

  lemma {:induction false} WordSpelled(b: Bytes)
    requires TakeUint16(b).Ok?
    ensures var (v, rest) := TakeUint16(b).value; v < 65536 && b == Uint16(v) + rest
  {
    WordBytes(b[0], b[1]);
  }

  lemma {:induction false} StringSpelled(b: Bytes)
    requires TakeString(b).Ok?
    ensures var (s, rest) := TakeString(b).value; |s| < 65536 && b == LengthPrefixed(s) + rest
  {
    WordSpelled(b);
    var (n, rest) := TakeUint16(b).value;
    PrefixSpelled(n, rest);
  }

  lemma {:induction false} PrefixSpelled(n: nat, rest: Bytes)
    requires n < 65536 && n <= |rest|
    ensures Uint16(n) + rest == LengthPrefixed(rest[..n]) + rest[n..]
  {
    CutAt(Uint16(n), rest, n);
    assert |rest[..n]| % 65536 == n;
  }

  /** So parsing a framed PUBLISH either runs out of bytes inside a field or takes
      the whole unread tail as payload; its other two failures cannot happen. */
  lemma {:induction false} FramedPublish(b: Bytes, maxPacket: nat)
    requires NextFrame(b, maxPacket).Complete?
    ensures var n := NextFrame(b, maxPacket).size;
            && n <= |b| && TakeHeader(b[..n]).Ok?
            && var (hdr, tail) := TakeHeader(b[..n]).value;
               match TakePublish(tail, hdr)
               case Err(e) => e == Underflow
               case Ok(p) => SpelledOut(p, tail)
  {
    FramedHeader(b, maxPacket);
    var (hdr, tail) := TakeHeader(b[..NextFrame(b, maxPacket).size]).value;
    WholeTail(tail, hdr);
  }

  lemma WordBytes(high: byte, low: byte)
    ensures Word(high, low) < 65536 && Uint16(Word(high, low)) == [high, low]
  {}
}
