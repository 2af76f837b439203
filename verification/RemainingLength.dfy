/** The variable-length "remaining length" of section 2.2.3 of MQTT 3.1.1, as
    the writer produces it and as the two readers of the broker take it apart
    (src/utils/buffer.cpp:64-90, src/packet/parser.cpp:45-71). */
module RemainingLength {
  import opened Wrappers
  import opened Octets

  const MAX_LENGTH := 268435455

  /** Seven bits per byte, least significant first, the top bit set on all but
      the last. */
  function Encode(v: nat): (b: Bytes)
    ensures b != []
  {
    if v < 128 then [v] else [v % 128 + 128] + Encode(v / 128)
  }

  datatype Decoded = Incomplete | Malformed | Length(value: nat, size: nat)

  /** Decodes at most `n` bytes. */
  function Decode(b: Bytes, n: nat): Decoded
    requires n >= 1
    decreases n
  {
    if b == [] then Incomplete
    else if b[0] < 128 then Length(b[0], 1)
    else if n == 1 then Malformed
    else
      match Decode(b[1..], n - 1)
      case Length(v, s) => Length(b[0] - 128 + 128 * v, s + 1)
      case d => d
  }

  function Power128(n: nat): (p: nat)
    ensures p >= 1
  {
    if n == 0 then 1 else 128 * Power128(n - 1)
  }

  lemma {:induction false} DecodeBounds(b: Bytes, n: nat)
    requires n >= 1
    ensures Decode(b, n).Length? ==>
              1 <= Decode(b, n).size <= n && Decode(b, n).size <= |b| && Decode(b, n).value < Power128(n)
    ensures Decode(b, n).Incomplete? ==> |b| < n
    decreases n
  {
    if b != [] && b[0] >= 128 && n > 1 {
      DecodeBounds(b[1..], n - 1);
    }
  }

  /** Decoding undoes encoding, whatever follows, and fails on longer values. */
  lemma {:induction false} DecodeEncode(v: nat, rest: Bytes, n: nat)
    requires n >= 1
    ensures v < Power128(n) ==> Decode(Encode(v) + rest, n) == Length(v, |Encode(v)|) && |Encode(v)| <= n
    ensures v >= Power128(n) ==> Decode(Encode(v) + rest, n) == Malformed
    decreases n
  {
    var b := Encode(v) + rest;
    if v >= 128 {
      assert b[1..] == Encode(v / 128) + rest;
      if n > 1 {
        DecodeEncode(v / 128, rest, n - 1);
      }
    }
  }

  lemma Power128Four()
    ensures Power128(4) == MAX_LENGTH + 1
  {
    assert Power128(1) == 128;
    assert Power128(2) == 16384;
    assert Power128(3) == 2097152;
  }

  /** The identity on 0..268435455, and exactly there; 1 to 4 bytes. */
  lemma RoundTripIff(v: nat, rest: Bytes)
    ensures Decode(Encode(v) + rest, 4) == Length(v, |Encode(v)|) <==> v <= MAX_LENGTH
    ensures v <= MAX_LENGTH ==> 1 <= |Encode(v)| <= 4
  {
    Power128Four();
    DecodeEncode(v, rest, 4);
  }

  // ------------------------------------------------------- the field of the standard

  /** A length field: the top bit set on all bytes but the last. */
  ghost predicate Field(b: Bytes) {
    b != [] && b[|b| - 1] < 128 && forall i :: 0 <= i < |b| - 1 ==> b[i] >= 128
  }

  /** The number it stands for: base 128, least significant digit first. */
  function Value(b: Bytes): nat {
    if b == [] then 0 else b[0] % 128 + 128 * Value(b[1..])
  }

  lemma {:induction false} FieldCons(x: byte, b: Bytes)
    requires x >= 128
    ensures Field([x] + b) <==> Field(b)
    ensures Value([x] + b) == x - 128 + 128 * Value(b)
  {
    var c := [x] + b;
    assert c[1..] == b;
    assert x % 128 == x - 128;
    if Field(c) {
      assert b != [] && forall i :: 0 <= i < |b| - 1 ==> b[i] == c[i + 1];
    }
  }

  /** The encoder writes the field of its number, as short as possible. */
  lemma {:induction false} EncodeMeans(v: nat)
    ensures Field(Encode(v)) && Value(Encode(v)) == v
    ensures |Encode(v)| > 1 ==> Encode(v)[|Encode(v)| - 1] != 0
  {
    if v < 128 {
      assert Value([v]) == v % 128 + 128 * Value([]);
    } else {
      EncodeMeans(v / 128);
      FieldCons(v % 128 + 128, Encode(v / 128));
      var tail := Encode(v / 128);
      assert Encode(v)[|tail|] == tail[|tail| - 1];
      assert |tail| == 1 ==> tail[0] != 0;
    }
  }

  /** The decoder finds the field at the front, if it has at most `n` bytes; it is
      malformed when the first `n` bytes all go on, and incomplete when all there
      are do. */
  lemma {:induction false} DecodeMeans(b: Bytes, n: nat)
    requires n >= 1
    ensures match Decode(b, n)
            case Length(v, s) => 1 <= s <= n && s <= |b| && Field(b[..s]) && Value(b[..s]) == v
            case Malformed => n <= |b| && forall i :: 0 <= i < n ==> b[i] >= 128
            case Incomplete => |b| < n && forall i :: 0 <= i < |b| ==> b[i] >= 128
    decreases n
  {
    if b != [] && b[0] < 128 {
      assert b[..1] == [b[0]];
      assert Value([b[0]]) == b[0] % 128 + 128 * Value([]);
    } else if b != [] && n > 1 {
      var rest := b[1..];
      DecodeMeans(rest, n - 1);
      assert forall i :: 0 <= i < |rest| ==> rest[i] == b[i + 1];
      if Decode(rest, n - 1).Length? {
        var s := Decode(rest, n - 1).size;
        FieldCons(b[0], rest[..s]);
        assert b[..s + 1] == [b[0]] + rest[..s];
      } else {
        forall i | 0 <= i < |b| && i < n ensures b[i] >= 128 {
          assert i > 0 ==> rest[i - 1] == b[i];
        }
      }
    }
  }

  /** More input changes nothing once the decoder has made up its mind. */
  lemma {:induction false} DecodeStable(a: Bytes, b: Bytes, n: nat)
    requires n >= 1 && !Decode(a, n).Incomplete?
    ensures Decode(a + b, n) == Decode(a, n)
    decreases n
  {
    if a[0] >= 128 && n > 1 {
      assert (a + b)[1..] == a[1..] + b;
      DecodeStable(a[1..], b, n - 1);
    }
  }

  // ----------------------------------------------------------------- the loops

  /** The value read so far in front of what is still to be decoded. */
  function Behind(d: Decoded, value: nat, multiplier: nat, size: nat): Decoded {
    match d
    case Length(v, s) => Length(value + multiplier * v, size + s)
    case _ => d
  }

  /** What a byte adds to the value: its lower seven bits, scaled. */
  function Digit(b: byte, multiplier: nat): nat {
    (b % 128) * multiplier
  }

  lemma {:induction false} LastByte(b: Bytes, n: nat, value: nat, multiplier: nat, size: nat)
    requires n >= 1 && b != [] && b[0] < 128
    ensures Behind(Decode(b, n), value, multiplier, size) == Length(value + Digit(b[0], multiplier), size + 1)
  {
    assert Decode(b, n) == Length(b[0], 1);
  }

  lemma {:induction false} MoreBytes(b: Bytes, n: nat, value: nat, multiplier: nat, size: nat)
    requires n >= 2 && b != [] && b[0] >= 128
    ensures Behind(Decode(b, n), value, multiplier, size)
         == Behind(Decode(b[1..], n - 1), value + Digit(b[0], multiplier), multiplier * 128, size + 1)
  {
    var d := Decode(b[1..], n - 1);
    if d.Length? {
      assert Decode(b, n) == Length(b[0] - 128 + 128 * d.value, d.size + 1);
      Carry(value, b[0] - 128, d.value, multiplier);
    }
  }

  lemma Carry(value: nat, x: nat, v: nat, m: nat)
    ensures value + m * (x + 128 * v) == value + x * m + (m * 128) * v
  {}

  /** One round of either reader. */
  lemma {:induction false} BehindByte(b: Bytes, n: nat, value: nat, multiplier: nat, size: nat)
    requires n >= 1 && b != []
    ensures Behind(Decode(b, n), value, multiplier, size)
         == var value' := value + Digit(b[0], multiplier);
            if b[0] < 128 then Length(value', size + 1)
            else if n == 1 then Malformed
            else Behind(Decode(b[1..], n - 1), value', multiplier * 128, size + 1)
  {
    if b[0] < 128 {
      LastByte(b, n, value, multiplier, size);
    } else if n > 1 {
      MoreBytes(b, n, value, multiplier, size);
    }
  }

  /** A reader that has taken `count` bytes of `u`. */
  ghost predicate Reading(u: Bytes, count: nat, value: nat, multiplier: nat) {
    && count <= |u|
    && (count < 4 ==> Behind(Decode(u[count..], 4 - count), value, multiplier, count) == Decode(u, 4))
    && (count == 4 ==> Decode(u, 4) == Malformed)
  }

  lemma {:induction false} ReadingByte(u: Bytes, count: nat, value: nat, multiplier: nat)
    requires Reading(u, count, value, multiplier) && count < 4 && count < |u|
    ensures var value' := value + Digit(u[count], multiplier);
            if u[count] < 128 then Decode(u, 4) == Length(value', count + 1)
            else Reading(u, count + 1, value', multiplier * 128)
  {
    BehindByte(u[count..], 4 - count, value, multiplier, count);
    assert u[count..][1..] == u[count + 1..];
  }

  predicate Multiplier(m: nat, count: nat) {
    m == if count == 0 then 1 else if count == 1 then 128 else if count == 2 then 16384 else 2097152
  }

  /** `PacketParser::decode_remaining_length`, on the bytes after the first. */
  method DecodeInParser(b: Bytes) returns (d: Decoded)
    ensures d == Decode(b, 4)
  {
    var value: nat, multiplier: nat, count: nat, pos: nat := 0, 1, 0, 0;
    assert b[0..] == b;
    while pos < |b|
      invariant 0 <= pos == count <= |b| && count <= 3 && Multiplier(multiplier, count)
      invariant Reading(b, count, value, multiplier)
    {
      var enc := b[pos];
      ReadingByte(b, count, value, multiplier);
      value := value + Digit(enc, multiplier);
      pos, count := pos + 1, count + 1;
      if enc < 128 {
        return Length(value, count);
      }
      if count >= 4 || multiplier > 2097152 {
        return Malformed;
      }
      multiplier := multiplier * 128;
    }
    return Incomplete;
  }

  /** One round of the writer: `done` is out, `left` is still to be written. */
  lemma {:induction false} EncodeByte(done: Bytes, left: nat, v: nat)
    requires done + Encode(left) == Encode(v)
    ensures left / 128 > 0 ==> done + [left % 128 + 128] + Encode(left / 128) == Encode(v)
    ensures left / 128 == 0 ==> done + [left % 128] == Encode(v)
  {
    if left / 128 > 0 {
      MoveOver(done, left % 128 + 128, Encode(left / 128));
    }
  }

  /** What `Buffer::read_remaining_length` makes of its input: unlike the parser
      it asks for a fifth byte before it calls the length malformed. */
  function Read(b: Bytes): Result<(nat, nat), ReadError> {
    match Decode(b, 4)
    case Length(v, s) => Ok((v, s))
    case Malformed => if |b| >= 5 then Err(MalformedLength) else Err(IncompleteLength)
    case Incomplete => Err(IncompleteLength)
  }

  datatype ReadError = Underflow | IncompleteLength | MalformedLength | SkipUnderflow | RemainingTooSmall
}
