/** The byte buffer with separate read and write cursors (src/utils/buffer.cpp).
    Methods that throw return an error instead. */
module Buffer {
  import opened Wrappers
  import opened Octets
  import opened RemainingLength

  function Uint16(v: nat): Bytes
    requires v < 65536
  {
    [v / 256, v % 256]
  }

  function Word(high: byte, low: byte): nat {
    (high as int) * 256 + low as int
  }

  /** `write_string` writes the length modulo 65536 and then all the bytes. */
  function LengthPrefixed(s: Bytes): Bytes {
    Uint16(|s| % 65536) + s
  }

  /** What the readers return: the field and the bytes after it. */
  function TakeUint16(b: Bytes): Result<(nat, Bytes), ReadError> {
    if |b| < 2 then Err(Underflow) else Ok((Word(b[0], b[1]), b[2..]))
  }

  function TakeString(b: Bytes): Result<(Bytes, Bytes), ReadError> {
    match TakeUint16(b)
    case Err(e) => Err(e)
    case Ok((n, rest)) => if |rest| < n then Err(Underflow) else Ok((rest[..n], rest[n..]))
  }

  lemma {:induction false} TakeUint16Back(v: nat, rest: Bytes)
    requires v < 65536
    ensures TakeUint16(Uint16(v) + rest) == Ok((v, rest))
  {
    assert (Uint16(v) + rest)[2..] == rest;
  }

  /** Strings of at most 65535 bytes come back whole; a longer one comes back cut
      to its length modulo 65536. */
  lemma {:induction false} TakeStringBack(s: Bytes, rest: Bytes)
    ensures |s| < 65536 ==> TakeString(LengthPrefixed(s) + rest) == Ok((s, rest))
    ensures |s| >= 65536 ==>
              var n := |s| % 65536;
              TakeString(LengthPrefixed(s) + rest) == Ok((s[..n], s[n..] + rest))
  {
    var n := |s| % 65536;
    assert LengthPrefixed(s) + rest == Uint16(n) + (s + rest);
    TakeUint16Back(n, s + rest);
    assert (s + rest)[..n] == s[..n];
    assert (s + rest)[n..] == s[n..] + rest;
    assert |s| < 65536 ==> n == |s| && s[..n] == s && s[n..] + rest == rest;
  }

  class Buffer {
    var data: Bytes
    var readPos: nat
    var writePos: nat

    ghost predicate Valid()
      reads this
    {
      readPos <= writePos <= |data|
    }

    /** Everything written. */
    function Contents(): Bytes
      reads this
      requires Valid()
    {
      data[..writePos]
    }

    /** Everything written and not yet read. */
    function Unread(): Bytes
      reads this
      requires Valid()
    {
      data[readPos..writePos]
    }

    constructor ()
      ensures Valid() && Contents() == [] && readPos == 0
    {
      data, readPos, writePos := [], 0, 0;
    }

    constructor From(src: Bytes)
      ensures Valid() && Contents() == src && readPos == 0
    {
      data, readPos, writePos := src, 0, |src|;
    }

    method Write(src: Bytes)
      requires Valid()
      modifies this
      ensures Valid()
      ensures Contents() == old(Contents()) + src && readPos == old(readPos)
    {
      if writePos + |src| > |data| {
        data := data + seq(writePos + |src| - |data|, _ => 0);
      }
      data := data[..writePos] + src + data[writePos + |src|..];
      writePos := writePos + |src|;
    }

    method WriteByte(b: byte)
      requires Valid()
      modifies this
      ensures Valid()
      ensures Contents() == old(Contents()) + [b] && readPos == old(readPos)
    {
      Write([b]);
    }

    method WriteUint16(v: nat)
      requires Valid() && v < 65536
      modifies this
      ensures Valid()
      ensures Contents() == old(Contents()) + Uint16(v) && readPos == old(readPos)
    {
      Write([v / 256, v % 256]);
    }

    method WriteString(s: Bytes)
      requires Valid()
      modifies this
      ensures Valid()
      ensures Contents() == old(Contents()) + LengthPrefixed(s) && readPos == old(readPos)
    {
      WriteUint16(|s| % 65536);
      Write(s);
    }

    method WriteRemainingLength(v: nat)
      requires Valid()
      modifies this
      ensures Valid()
      ensures Contents() == old(Contents()) + Encode(v) && readPos == old(readPos)
    {
      var left: nat := v;
      var more := true;
      ghost var done: Bytes := [];
      while more
        invariant Valid() && readPos == old(readPos)
        invariant Contents() == old(Contents()) + done
        invariant more ==> done + Encode(left) == Encode(v)
        invariant !more ==> done == Encode(v)
        decreases more, left
      {
        EncodeByte(done, left, v);
        var enc := left % 128;
        left := left / 128;
        more := left > 0;
        if more {
          enc := enc + 128;
        }
        WriteByte(enc);
        assert old(Contents()) + done + [enc] == old(Contents()) + (done + [enc]);
        done := done + [enc];
      }
    }

    method Read(n: nat) returns (r: Result<Bytes, ReadError>)
      requires Valid()
      modifies this`readPos
      ensures Valid()
      ensures if n <= |old(Unread())| then r == Ok(old(Unread())[..n]) && Unread() == old(Unread())[n..]
              else r == Err(Underflow) && readPos == old(readPos)
    {
      if readPos + n > writePos {
        return Err(Underflow);
      }
      assert data[readPos..writePos][..n] == data[readPos..readPos + n];
      r := Ok(data[readPos..readPos + n]);
      readPos := readPos + n;
    }

    method ReadByte() returns (r: Result<byte, ReadError>)
      requires Valid()
      modifies this`readPos
      ensures Valid()
      ensures if 1 <= |old(Unread())| then r == Ok(old(Unread())[0]) && Unread() == old(Unread())[1..]
              else r == Err(Underflow) && readPos == old(readPos)
    {
      var b := Read(1);
      match b
      case Err(e) => return Err(e);
      case Ok(bytes) => return Ok(bytes[0]);
    }

    method ReadUint16() returns (r: Result<nat, ReadError>)
      requires Valid()
      modifies this`readPos
      ensures Valid()
      ensures match TakeUint16(old(Unread()))
              case Ok((v, rest)) => r == Ok(v) && Unread() == rest
              case Err(e) => r == Err(e)
    {
      var b := Read(2);
      match b
      case Err(e) => return Err(e);
      case Ok(bytes) => return Ok(Word(bytes[0], bytes[1]));
    }

    method ReadString() returns (r: Result<Bytes, ReadError>)
      requires Valid()
      modifies this`readPos
      ensures Valid()
      ensures match TakeString(old(Unread()))
              case Ok((s, rest)) => r == Ok(s) && Unread() == rest
              case Err(e) => r == Err(e)
    {
      var n := ReadUint16();
      match n
      case Err(e) => return Err(e);
      case Ok(len) => r := Read(len);
    }

    method ReadRemainingLength() returns (r: Result<nat, ReadError>)
      requires Valid()
      modifies this`readPos
      ensures Valid()
      ensures match RemainingLength.Read(old(Unread()))
              case Ok((v, size)) => r == Ok(v) && Unread() == old(Unread())[size..]
              case Err(e) => r == Err(e)
    {
      ghost var u := Unread();
      var start := readPos;
      var value: nat, multiplier: nat, count: nat := 0, 1, 0;
      assert u[0..] == u;
      while true
        invariant readPos == start + count && count <= 4
        invariant Reading(u, count, value, multiplier)
        decreases 5 - count
      {
        if readPos >= writePos {
          return Err(IncompleteLength);
        }
        var enc := data[readPos];
        assert enc == u[count];
        if count < 4 { ReadingByte(u, count, value, multiplier); }
        readPos := readPos + 1;
        value := value + Digit(enc, multiplier);
        multiplier := multiplier * 128;
        count := count + 1;
        if count > 4 {
          return Err(MalformedLength);
        }
        if enc < 128 {
          assert Unread() == u[count..];
          return Ok(value);
        }
      }
    }

    method Skip(n: nat) returns (r: Result<(), ReadError>)
      requires Valid()
      modifies this`readPos
      ensures Valid()
      ensures if n <= |old(Unread())| then r == Ok(()) && Unread() == old(Unread())[n..]
              else r == Err(SkipUnderflow) && readPos == old(readPos)
    {
      if readPos + n > writePos {
        return Err(SkipUnderflow);
      }
      readPos := readPos + n;
      return Ok(());
    }
  }
}
