/** Cutting a byte stream into packets (src/packet/parser.cpp). */
module Framing {
  import opened Wrappers
  import opened Octets
  import opened RemainingLength

  datatype ParseError = Overflow | InvalidType(value: nat) | BadLength | TooLarge(length: nat)

  datatype Frame = NeedMore | Reject(error: ParseError) | Complete(size: nat)

  /** What the first bytes of the buffer amount to: `try_extract` without its
      effect on the buffer. */
  function NextFrame(b: Bytes, maxPacket: nat): Frame {
    if b == [] then NeedMore
    else
      var t := b[0] / 16;
      if t < 1 || t > 14 then Reject(InvalidType(t))
      else
        match Decode(b[1..], 4)
        case Malformed => Reject(BadLength)
        case Incomplete => NeedMore
        case Length(v, s) =>
          if v > maxPacket then Reject(TooLarge(v))
          else if |b| < 1 + s + v then NeedMore
          else Complete(1 + s + v)
  }

  lemma FrameBounds(b: Bytes, maxPacket: nat)
    ensures NextFrame(b, maxPacket).Complete? ==> 2 <= NextFrame(b, maxPacket).size <= |b|
    ensures NextFrame(b, maxPacket).NeedMore? ==> |b| <= maxPacket + 4
  {
    if b != [] {
      DecodeBounds(b[1..], 4);
    }
  }

  /** What a verdict means for the bytes: `s` is the size of the length field. A
      packet is complete when a type from 1 to 14, a length field of at most four
      bytes and as many bytes as it says, at most `maxPacket`, are there. */
  lemma {:induction false} FrameMeans(b: Bytes, maxPacket: nat) returns (s: nat)
    ensures NextFrame(b, maxPacket).Complete? || NextFrame(b, maxPacket).NeedMore? ==> b == [] || 16 <= b[0] < 240
    ensures match NextFrame(b, maxPacket)
            case Complete(n) =>
              && 1 <= s <= 4 && s < |b| && Field(b[1..1 + s]) && Value(b[1..1 + s]) <= maxPacket
              && n == 1 + s + Value(b[1..1 + s]) && n <= |b|
            case NeedMore =>
              || (|b| < 5 && forall i :: 1 <= i < |b| ==> b[i] >= 128)
              || (1 <= s <= 4 && s < |b| && Field(b[1..1 + s]) && Value(b[1..1 + s]) <= maxPacket
                  && |b| < 1 + s + Value(b[1..1 + s]))
            case Reject(InvalidType(t)) => b != [] && t == b[0] / 16 && (b[0] < 16 || b[0] >= 240)
            case Reject(BadLength) => |b| >= 5 && forall i :: 1 <= i <= 4 ==> b[i] >= 128
            case Reject(TooLarge(v)) =>
              1 <= s <= 4 && s < |b| && Field(b[1..1 + s]) && v == Value(b[1..1 + s]) && v > maxPacket
            case Reject(Overflow) => false
  {
    s := 0;
    if b != [] {
      var rest := b[1..];
      DecodeMeans(rest, 4);
      assert forall i :: 1 <= i < |b| ==> b[i] == rest[i - 1];
      if Decode(rest, 4).Length? {
        s := Decode(rest, 4).size;
        assert rest[..s] == b[1..1 + s];
      }
    }
  }

  /** A verdict once reached does not depend on what follows. */
  lemma FrameStable(a: Bytes, b: Bytes, maxPacket: nat)
    requires !NextFrame(a, maxPacket).NeedMore?
    ensures NextFrame(a + b, maxPacket) == NextFrame(a, maxPacket)
  {
    assert (a + b)[0] == a[0];
    assert (a + b)[1..] == a[1..] + b;
    if !Decode(a[1..], 4).Incomplete? {
      DecodeStable(a[1..], b, 4);
    }
  }

  datatype Drained = Drained(packets: seq<Bytes>, rest: Bytes, error: Option<ParseError>)

  /** Extracting as long as possible. */
  function Drain(b: Bytes, maxPacket: nat): Drained
    decreases |b|
  {
    match NextFrame(b, maxPacket)
    case NeedMore => Drained([], b, None)
    case Reject(e) => Drained([], b, Some(e))
    case Complete(n) =>
      FrameBounds(b, maxPacket);
      Prepend(b[..n], Drain(b[n..], maxPacket))
  }

  function Flatten(packets: seq<Bytes>): Bytes {
    if packets == [] then [] else packets[0] + Flatten(packets[1..])
  }

  /** No byte is lost, added or moved. */
  lemma {:induction false} DrainKeepsBytes(b: Bytes, maxPacket: nat)
    ensures Flatten(Drain(b, maxPacket).packets) + Drain(b, maxPacket).rest == b
    decreases |b|
  {
    if NextFrame(b, maxPacket).Complete? {
      FrameBounds(b, maxPacket);
      var n := NextFrame(b, maxPacket).size;
      var d := Drain(b[n..], maxPacket);
      DrainKeepsBytes(b[n..], maxPacket);
      assert Drain(b, maxPacket).packets[1..] == d.packets;
      assert b == b[..n] + b[n..];
      assert b[..n] + Flatten(d.packets) + d.rest == b[..n] + (Flatten(d.packets) + d.rest);
    }
  }

  function Prepend(x: Bytes, d: Drained): Drained {
    d.(packets := [x] + d.packets)
  }

  /** What becomes of an extraction when more bytes arrive. */
  function Resume(first: Drained, more: Bytes, maxPacket: nat): Drained {
    if first.error.Some? then first.(rest := first.rest + more)
    else
      var second := Drain(first.rest + more, maxPacket);
      second.(packets := first.packets + second.packets)
  }

  lemma {:induction false} ResumePrepend(x: Bytes, d: Drained, more: Bytes, maxPacket: nat)
    ensures Resume(Prepend(x, d), more, maxPacket) == Prepend(x, Resume(d, more, maxPacket))
  {
    if d.error == None {
      var second := Drain(d.rest + more, maxPacket);
      assert [x] + d.packets + second.packets == [x] + (d.packets + second.packets);
    }
  }

  /** Extraction resumes where it stopped. */
  lemma {:induction false} DrainResumes(a: Bytes, b: Bytes, maxPacket: nat)
    ensures Drain(a + b, maxPacket) == Resume(Drain(a, maxPacket), b, maxPacket)
    decreases |a|
  {
    match NextFrame(a, maxPacket) {
      case NeedMore =>
        assert [] + Drain(a + b, maxPacket).packets == Drain(a + b, maxPacket).packets;
      case Reject(e) =>
        FrameStable(a, b, maxPacket);
      case Complete(n) =>
        FrameBounds(a, maxPacket);
        FrameStable(a, b, maxPacket);
        assert (a + b)[..n] == a[..n] && (a + b)[n..] == a[n..] + b;
        DrainResumes(a[n..], b, maxPacket);
        DrainUnfold(a, maxPacket, n);
        DrainUnfold(a + b, maxPacket, n);
        ResumePrepend(a[..n], Drain(a[n..], maxPacket), b, maxPacket);
    }
  }

  lemma {:induction false} DrainUnfold(b: Bytes, maxPacket: nat, n: nat)
    requires NextFrame(b, maxPacket) == Complete(n) && n <= |b|
    ensures Drain(b, maxPacket) == Prepend(b[..n], Drain(b[n..], maxPacket))
  {}

  lemma {:induction false} DrainStops(b: Bytes, maxPacket: nat)
    requires Drain(b, maxPacket).error == None
    ensures NextFrame(Drain(b, maxPacket).rest, maxPacket) == NeedMore
    decreases |b|
  {
    if NextFrame(b, maxPacket).Complete? {
      FrameBounds(b, maxPacket);
      DrainStops(b[NextFrame(b, maxPacket).size..], maxPacket);
    }
  }

  /** A concatenation of whole packets is cut back into exactly those packets. */
  lemma {:induction false} DrainWhole(packets: seq<Bytes>, maxPacket: nat)
    requires forall i :: 0 <= i < |packets| ==> NextFrame(packets[i], maxPacket) == Complete(|packets[i]|)
    ensures Drain(Flatten(packets), maxPacket) == Drained(packets, [], None)
    decreases |packets|
  {
    if packets != [] {
      var p, rest := packets[0], Flatten(packets[1..]);
      FrameStable(p, rest, maxPacket);
      FrameBounds(p, maxPacket);
      DrainWhole(packets[1..], maxPacket);
      assert (p + rest)[..|p|] == p && (p + rest)[|p|..] == rest;
      DrainUnfold(p + rest, maxPacket, |p|);
    }
  }

  // ------------------------------------------------------------------ chunked runs

  /** The parser between two reads: its buffer and its error message. */
  datatype Residue = Residue(bytes: Bytes, error: Option<ParseError>)

  datatype Limits = Limits(maxPacket: nat, maxBuffer: nat)

  const EMPTY := Residue([], None)

  /** `feed`: it does not look at an earlier error. */
  function Feed(p: Residue, chunk: Bytes, limits: Limits): Residue {
    if chunk == [] then p
    else if |p.bytes| + |chunk| > limits.maxBuffer then p.(error := Some(Overflow))
    else p.(bytes := p.bytes + chunk)
  }

  /** Feed, then extract until nothing more comes, as one read of the session does. */
  function OnRead(p: Residue, chunk: Bytes, limits: Limits): (seq<Bytes>, Residue) {
    var fed := Feed(p, chunk, limits);
    if fed.error.Some? then ([], fed)
    else
      var d := Drain(fed.bytes, limits.maxPacket);
      (d.packets, Residue(d.rest, d.error))
  }

  function OnReads(chunks: seq<Bytes>, limits: Limits): (seq<Bytes>, Residue) {
    if chunks == [] then ([], EMPTY)
    else
      var (packets, p) := OnReads(chunks[..|chunks| - 1], limits);
      var (more, p') := OnRead(p, chunks[|chunks| - 1], limits);
      (packets + more, p')
  }

  /** No chunk overflows the buffer limit when it arrives. */
  predicate Fits(chunks: seq<Bytes>, limits: Limits) {
    chunks == []
    || (Fits(chunks[..|chunks| - 1], limits)
        && |OnReads(chunks[..|chunks| - 1], limits).1.bytes| + |chunks[|chunks| - 1]| <= limits.maxBuffer)
  }

  function Stream(chunks: seq<Bytes>): Bytes {
    if chunks == [] then [] else Stream(chunks[..|chunks| - 1]) + chunks[|chunks| - 1]
  }

  /** Packets, residue and error status depend on the stream only, not on how it
      is split into reads. */
  lemma {:induction false} ChunkingIsIrrelevant(chunks: seq<Bytes>, limits: Limits)
    requires Fits(chunks, limits)
    ensures var whole := Drain(Stream(chunks), limits.maxPacket);
            OnReads(chunks, limits) == (whole.packets, Residue(whole.rest, whole.error))
    decreases |chunks|
  {
    if chunks != [] {
      var init, last := chunks[..|chunks| - 1], chunks[|chunks| - 1];
      ChunkingIsIrrelevant(init, limits);
      DrainResumes(Stream(init), last, limits.maxPacket);
      var before := Drain(Stream(init), limits.maxPacket);
      if before.error == None {
        assert last == [] ==> before.rest + last == before.rest;
      } else {
        assert last == [] ==> before.rest + last == before.rest;
        assert before.packets + [] == before.packets;
      }
    }
  }

  /** Two ways of splitting the same stream give the same outcome, and the
      packets followed by the residue are the bytes fed. */
  lemma SplittingsAgree(a: seq<Bytes>, b: seq<Bytes>, limits: Limits)
    requires Fits(a, limits) && Fits(b, limits) && Stream(a) == Stream(b)
    ensures OnReads(a, limits) == OnReads(b, limits)
    ensures Flatten(OnReads(a, limits).0) + OnReads(a, limits).1.bytes == Stream(a)
  {
    ChunkingIsIrrelevant(a, limits);
    ChunkingIsIrrelevant(b, limits);
    DrainKeepsBytes(Stream(a), limits.maxPacket);
  }

  const READ_SIZE := 4096

  /** The session reads at most 4096 bytes at a time and stops at an error. */
  ghost predicate SessionReads(chunks: seq<Bytes>, limits: Limits) {
    forall k :: 0 <= k < |chunks| ==> |chunks[k]| <= READ_SIZE && OnReads(chunks[..k], limits).1.error == None
  }

  /** With room for one packet and one read, the buffer never overflows. */
  lemma {:induction false} NeverOverflows(chunks: seq<Bytes>, limits: Limits)
    requires SessionReads(chunks, limits) && limits.maxBuffer >= limits.maxPacket + 4100
    ensures Fits(chunks, limits)
    ensures OnReads(chunks, limits).1.error != Some(Overflow)
    ensures OnReads(chunks, limits).1.error == None ==> |OnReads(chunks, limits).1.bytes| <= limits.maxPacket + 4
    decreases |chunks|
  {
    if chunks != [] {
      var init := chunks[..|chunks| - 1];
      assert forall k :: 0 <= k < |init| ==> init[k] == chunks[k] && init[..k] == chunks[..k];
      assert OnReads(init, limits).1.error == None;
      NeverOverflows(init, limits);
    }
    ChunkingIsIrrelevant(chunks, limits);
    var whole := Drain(Stream(chunks), limits.maxPacket);
    DrainErrors(Stream(chunks), limits.maxPacket);
    if whole.error == None {
      DrainStops(Stream(chunks), limits.maxPacket);
      FrameBounds(whole.rest, limits.maxPacket);
    }
  }

  lemma {:induction false} DrainErrors(b: Bytes, maxPacket: nat)
    ensures Drain(b, maxPacket).error != Some(Overflow)
    decreases |b|
  {
    if NextFrame(b, maxPacket).Complete? {
      FrameBounds(b, maxPacket);
      DrainErrors(b[NextFrame(b, maxPacket).size..], maxPacket);
    }
  }
}
