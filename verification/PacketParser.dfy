/** The incremental parser of a session (src/packet/parser.cpp) and the loop
    that drains it after each read (src/session.cpp:113-116). */
module PacketParser {
  import opened Wrappers
  import opened Octets
  import opened RemainingLength
  import opened Framing
  import B = Buffer

  class PacketParser {
    const limits: Limits
    var buffer: B.Buffer
    var error: Option<ParseError>

    ghost predicate Valid()
      reads this, buffer
    {
      buffer.Valid() && buffer.readPos == 0
    }

    ghost function State(): Residue
      reads this, buffer
      requires Valid()
    {
      Residue(buffer.Contents(), error)
    }

    constructor (limits: Limits)
      ensures Valid() && fresh(buffer) && State() == EMPTY && this.limits == limits
    {
      this.limits := limits;
      buffer := new B.Buffer();
      error := None;
    }

    method Feed(data: Bytes)
      requires Valid()
      modifies this`error, buffer
      ensures Valid() && State() == Framing.Feed(old(State()), data, limits)
    {
      if |data| > 0 {
        if buffer.writePos + |data| > limits.maxBuffer {
          error := Some(Overflow);
          return;
        }
        buffer.Write(data);
      }
    }

    /** Either the front packet leaves the buffer, or nothing does. */
    method TryExtract() returns (out: Option<B.Buffer>)
      requires Valid()
      modifies this`buffer, this`error
      ensures Valid() && (buffer == old(buffer) || fresh(buffer))
      ensures var before := old(State());
              if before.error.Some? then out == None && State() == before
              else
                match NextFrame(before.bytes, limits.maxPacket)
                case NeedMore => out == None && State() == before
                case Reject(e) => out == None && State() == before.(error := Some(e))
                case Complete(n) =>
                  && n <= |before.bytes| && State() == Residue(before.bytes[n..], None)
                  && out.Some? && fresh(out.value) && out.value != buffer
                  && out.value.Valid() && out.value.readPos == 0 && out.value.Contents() == before.bytes[..n]
    {
      out := None;
      if error.Some? || buffer.writePos < 1 {
        return;
      }
      ghost var bytes := buffer.Contents();
      var t := buffer.data[0] / 16;
      if t < 1 || t > 14 {
        error := Some(InvalidType(t));
        return;
      }
      assert bytes[1..] == buffer.data[1..buffer.writePos];
      var d := DecodeInParser(buffer.data[1..buffer.writePos]);
      if d.Malformed? {
        error := Some(BadLength);
        return;
      }
      if d.Incomplete? {
        return;
      }
      if d.value > limits.maxPacket {
        error := Some(TooLarge(d.value));
        return;
      }
      var total := 1 + d.size + d.value;
      if buffer.writePos < total {
        return;
      }
      var packet := new B.Buffer.From(buffer.data[..total]);
      var rest := new B.Buffer.From(buffer.data[total..buffer.writePos]);
      assert bytes[..total] == buffer.data[..total] && bytes[total..] == buffer.data[total..buffer.writePos];
      buffer := rest;
      out := Some(packet);
    }

    /** One read of the session. */
    method ReadChunk(chunk: Bytes) returns (packets: seq<Bytes>)
      requires Valid()
      modifies this`buffer, this`error, buffer
      ensures Valid() && (buffer == old(buffer) || fresh(buffer))
      ensures (packets, State()) == OnRead(old(State()), chunk, limits)
    {
      Feed(chunk);
      ghost var fed := State();
      packets := [];
      var more := error == None;
      while more
        invariant Valid() && (buffer == old(buffer) || fresh(buffer))
        invariant fed.error.Some? ==> !more && packets == [] && State() == fed
        invariant fed.error == None ==> Progress(packets, more, fed.bytes, State(), limits.maxPacket)
        decreases more, |buffer.Contents()|
      {
        ghost var before := State();
        FrameBounds(before.bytes, limits.maxPacket);
        var out := TryExtract();
        ProgressStep(packets, fed.bytes, before, limits.maxPacket);
        if out.None? {
          more := false;
        } else {
          packets := packets + [out.value.data[..out.value.writePos]];
        }
      }
    }
  }

  /** The packets taken so far, followed by what a drain of the rest would give,
      are the drain of everything. */
  ghost predicate Progress(packets: seq<Bytes>, more: bool, bytes: Bytes, now: Residue, maxPacket: nat) {
    var whole, rest := Drain(bytes, maxPacket), Drain(now.bytes, maxPacket);
    if more then now.error == None && whole == rest.(packets := packets + rest.packets)
    else whole == Drained(packets, now.bytes, now.error)
  }

  lemma {:induction false} ProgressStep(packets: seq<Bytes>, bytes: Bytes, before: Residue, maxPacket: nat)
    requires Progress(packets, true, bytes, before, maxPacket)
    ensures match NextFrame(before.bytes, maxPacket)
            case NeedMore => Progress(packets, false, bytes, before, maxPacket)
            case Reject(e) => Progress(packets, false, bytes, before.(error := Some(e)), maxPacket)
            case Complete(n) =>
              n <= |before.bytes|
              && Progress(packets + [before.bytes[..n]], true, bytes, Residue(before.bytes[n..], None), maxPacket)
  {
    FrameBounds(before.bytes, maxPacket);
    if NextFrame(before.bytes, maxPacket).Complete? {
      var n := NextFrame(before.bytes, maxPacket).size;
      DrainUnfold(before.bytes, maxPacket, n);
      MoveOver(packets, before.bytes[..n], Drain(before.bytes[n..], maxPacket).packets);
    } else {
      assert packets + [] == packets;
    }
  }
}
