/** SUBSCRIBE and UNSUBSCRIBE as the broker takes them apart
    (src/packet/packets.cpp:67-90), against their layout in sections 3.8 and 3.10
    of MQTT 3.1.1. */
module SubscribePackets {
  import opened Wrappers
  import opened Octets
  import opened RemainingLength
  import opened Buffer
  import opened Packets

  datatype TopicFilter = TopicFilter(filter: Bytes, qos: nat)

  /** The filters of a SUBSCRIBE payload; only two bits of the options count. */
  function TakeFilters(b: Bytes): Result<seq<TopicFilter>, ReadError>
    decreases |b|
  {
    if b == [] then Ok([])
    else
      match TakeString(b)
      case Err(e) => Err(e)
      case Ok((f, rest)) =>
        if rest == [] then Err(Underflow)
        else
          match TakeFilters(rest[1..])
          case Err(e) => Err(e)
          case Ok(more) => Ok([TopicFilter(f, rest[0] % 4)] + more)
  }

  /** The filters of an UNSUBSCRIBE payload. */
  function TakeNames(b: Bytes): Result<seq<Bytes>, ReadError>
    decreases |b|
  {
    if b == [] then Ok([])
    else
      match TakeString(b)
      case Err(e) => Err(e)
      case Ok((f, rest)) =>
        match TakeNames(rest)
        case Err(e) => Err(e)
        case Ok(more) => Ok([f] + more)
  }

  function Append<T>(done: seq<T>, r: Result<seq<T>, ReadError>): Result<seq<T>, ReadError> {
    match r
    case Err(e) => Err(e)
    case Ok(more) => Ok(done + more)
  }

  lemma AppendTo<T>(done: seq<T>, x: T, r: Result<seq<T>, ReadError>)
    ensures Append([], r) == r && Append(done, Ok([])) == Ok(done)
    ensures Append(done, Append([x], r)) == Append(done + [x], r)
  {
    if r.Ok? {
      MoveOver(done, x, r.value);
      assert [] + r.value == r.value;
    }
    assert done + [] == done;
  }

  /** One round of either loop. */
  lemma {:induction false} TakeOneFilter(b: Bytes)
    requires b != []
    ensures TakeString(b).Err? ==> TakeFilters(b) == Err(TakeString(b).error)
    ensures TakeString(b).Ok? ==>
              var (f, rest) := TakeString(b).value;
              TakeFilters(b)
              == if rest == [] then Err(Underflow) else Append([TopicFilter(f, rest[0] % 4)], TakeFilters(rest[1..]))
  {}

  lemma {:induction false} TakeOneName(b: Bytes)
    requires b != []
    ensures TakeString(b).Err? ==> TakeNames(b) == Err(TakeString(b).error)
    ensures TakeString(b).Ok? ==>
              var (f, rest) := TakeString(b).value; TakeNames(b) == Append([f], TakeNames(rest))
  {}

  method ParseSubscribe(buf: Buffer) returns (r: Result<(nat, seq<TopicFilter>), ReadError>)
    requires buf.Valid()
    modifies buf`readPos
    ensures match TakeUint16(old(buf.Unread()))
            case Err(e) => r == Err(e)
            case Ok((pid, rest)) =>
              match TakeFilters(rest)
              case Err(e) => r == Err(e)
              case Ok(filters) => r == Ok((pid, filters))
  {
    var pid := buf.ReadUint16();
    if pid.Err? {
      return Err(pid.error);
    }
    ghost var all := TakeFilters(buf.Unread());
    var filters: seq<TopicFilter> := [];
    AppendTo([], TopicFilter([], 0), all);
    while buf.writePos - buf.readPos > 0
      invariant buf.Valid()
      invariant Append(filters, TakeFilters(buf.Unread())) == all
      decreases |buf.Unread()|
    {
      ghost var b := buf.Unread();
      TakeOneFilter(b);
      var f := buf.ReadString();
      if f.Err? {
        return Err(f.error);
      }
      var q := buf.ReadByte();
      if q.Err? {
        return Err(q.error);
      }
      AppendTo(filters, TopicFilter(f.value, q.value % 4), TakeFilters(buf.Unread()));
      filters := filters + [TopicFilter(f.value, q.value % 4)];
    }
    AppendTo(filters, TopicFilter([], 0), Ok([]));
    assert buf.Unread() == [];
    return Ok((pid.value, filters));
  }

  method ParseUnsubscribe(buf: Buffer) returns (r: Result<(nat, seq<Bytes>), ReadError>)
    requires buf.Valid()
    modifies buf`readPos
    ensures match TakeUint16(old(buf.Unread()))
            case Err(e) => r == Err(e)
            case Ok((pid, rest)) =>
              match TakeNames(rest)
              case Err(e) => r == Err(e)
              case Ok(names) => r == Ok((pid, names))
  {
    var pid := buf.ReadUint16();
    if pid.Err? {
      return Err(pid.error);
    }
    ghost var all := TakeNames(buf.Unread());
    var names: seq<Bytes> := [];
    AppendTo([], [], all);
    while buf.writePos - buf.readPos > 0
      invariant buf.Valid()
      invariant Append(names, TakeNames(buf.Unread())) == all
      decreases |buf.Unread()|
    {
      TakeOneName(buf.Unread());
      var f := buf.ReadString();
      if f.Err? {
        return Err(f.error);
      }
      AppendTo(names, f.value, TakeNames(buf.Unread()));
      names := names + [f.value];
    }
    AppendTo(names, [], Ok([]));
    assert buf.Unread() == [];
    return Ok((pid.value, names));
  }

  // ------------------------------------------------------------------- the layout

  /** A filter and its options byte, as a client lays them out. */
  datatype Item = Item(filter: Bytes, options: byte)

  function Laid(items: seq<Item>): Bytes {
    if items == [] then [] else LengthPrefixed(items[0].filter) + [items[0].options] + Laid(items[1..])
  }

  function Masked(items: seq<Item>): seq<TopicFilter> {
    if items == [] then [] else [TopicFilter(items[0].filter, items[0].options % 4)] + Masked(items[1..])
  }

  ghost predicate Encodable(items: seq<Item>) {
    forall i :: 0 <= i < |items| ==> |items[i].filter| < 65536
  }

  /** Every laid-out payload is understood... */
  lemma {:induction false} LaidIsTaken(items: seq<Item>)
    requires Encodable(items)
    ensures TakeFilters(Laid(items)) == Ok(Masked(items))
    decreases |items|
  {
    if items != [] {
      var rest := Laid(items[1..]);
      assert Laid(items) == LengthPrefixed(items[0].filter) + ([items[0].options] + rest);
      TakeStringBack(items[0].filter, [items[0].options] + rest);
      assert ([items[0].options] + rest)[1..] == rest;
      LaidIsTaken(items[1..]);
    }
  }

  lemma {:induction false} LaidCons(item: Item, more: seq<Item>)
    ensures Laid([item] + more) == LengthPrefixed(item.filter) + [item.options] + Laid(more)
    ensures Encodable([item] + more) <==> |item.filter| < 65536 && Encodable(more)
  {
    var items := [item] + more;
    assert items[1..] == more;
    assert Encodable(items) ==> forall i :: 0 <= i < |more| ==> more[i] == items[i + 1];
  }

  /** ...and whatever is understood was laid out so, with nothing left over. */
  lemma {:induction false} TakenIsLaid(b: Bytes) returns (items: seq<Item>)
    requires TakeFilters(b).Ok?
    ensures Encodable(items) && Laid(items) == b
    decreases |b|
  {
    if b == [] {
      items := [];
    } else {
      TakeOneFilter(b);
      var (f, rest) := TakeString(b).value;
      StringSpelled(b);
      var more := TakenIsLaid(rest[1..]);
      items := [Item(f, rest[0])] + more;
      LaidCons(Item(f, rest[0]), more);
      MoveOver(LengthPrefixed(f), rest[0], rest[1..]);
    }
  }

  /** A SUBSCRIBE payload is accepted exactly when it is a sequence of filters. */
  lemma AcceptedIff(b: Bytes)
    ensures TakeFilters(b).Ok? <==> exists items :: Encodable(items) && Laid(items) == b
  {
    if TakeFilters(b).Ok? {
      var items := TakenIsLaid(b);
    }
    forall items | Encodable(items) && Laid(items) == b ensures TakeFilters(b).Ok? {
      LaidIsTaken(items);
    }
  }

  /** The names of an UNSUBSCRIBE, one after the other. */
  function LaidNames(names: seq<Bytes>): Bytes {
    if names == [] then [] else LengthPrefixed(names[0]) + LaidNames(names[1..])
  }

  ghost predicate EncodableNames(names: seq<Bytes>) {
    forall i :: 0 <= i < |names| ==> |names[i]| < 65536
  }

  lemma {:induction false} NamesAreTaken(names: seq<Bytes>)
    requires EncodableNames(names)
    ensures TakeNames(LaidNames(names)) == Ok(names)
    decreases |names|
  {
    if names != [] {
      var first, more := names[0], names[1..];
      assert names == [first] + more;
      NamesAreTaken(more);
      OneNameTaken(first, LaidNames(more));
    }
  }

  lemma {:induction false} OneNameTaken(name: Bytes, rest: Bytes)
    requires |name| < 65536
    ensures TakeNames(LengthPrefixed(name) + rest) == Append([name], TakeNames(rest))
  {
    TakeStringBack(name, rest);
    TakeOneName(LengthPrefixed(name) + rest);
  }

  lemma {:induction false} TakenNamesAreLaid(b: Bytes)
    requires TakeNames(b).Ok?
    ensures EncodableNames(TakeNames(b).value) && LaidNames(TakeNames(b).value) == b
    decreases |b|
  {
    if b != [] {
      TakeOneName(b);
      var (f, rest) := TakeString(b).value;
      StringSpelled(b);
      TakenNamesAreLaid(rest);
      NamesCons(f, TakeNames(rest).value);
    }
  }

  lemma {:induction false} NamesCons(f: Bytes, more: seq<Bytes>)
    requires |f| < 65536 && EncodableNames(more)
    ensures LaidNames([f] + more) == LengthPrefixed(f) + LaidNames(more) && EncodableNames([f] + more)
  {
    assert ([f] + more)[1..] == more;
  }

  /** An UNSUBSCRIBE payload is understood exactly as the names laid out in it. */
  lemma NamesIff(b: Bytes, names: seq<Bytes>)
    ensures TakeNames(b) == Ok(names) <==> EncodableNames(names) && LaidNames(names) == b
  {
    if TakeNames(b) == Ok(names) {
      TakenNamesAreLaid(b);
    }
    if EncodableNames(names) && LaidNames(names) == b {
      NamesAreTaken(names);
    }
  }
}
