/** The QoS 2 handler (src/qos/qos2.cpp). */
module Qos2Handler {
  import opened Wrappers
  import opened Octets
  import opened PacketIds
  import opened InFlight
  import opened AtMostOnce
  import opened ExactlyOnce
  import opened Retransmission
  import opened ClientTables
  import opened TrieSpec
  import opened FanOut

  datatype OutgoingMessage = OutgoingMessage(session: nat, topic: string, payload: Bytes, state: Phase, retryCount: int)

  predicate Shows(t: Tracked, m: OutgoingMessage, pid: nat) {
    && t.session == m.session && t.publish == Publish(m.topic, m.payload, 2, false, false, pid)
    && t.phase == m.state && t.retries == m.retryCount
  }

  /** The message that the nested tables hold under an identifier. */
  function Outgoing(nested: Nested<OutgoingMessage>, client: string, pid: nat): Option<OutgoingMessage> {
    if client in nested && pid in nested[client].messages then Some(nested[client].messages[pid]) else None
  }

  /** The packet that a retry sends, by phase. */
  function RetryPacket(m: OutgoingMessage, pid: nat): Packet {
    match m.state
    case PublishSent => Publish(m.topic, m.payload, 2, false, true, pid)
    case PubrecReceived => Pubrel(pid)
  }

  lemma {:induction false} RetryConsistent(nested: Nested<OutgoingMessage>, outbox: seq<Delivery>, st: State,
                                           cfg: Config,
                                           client: string, pid: nat, m: OutgoingMessage, up: bool)
    requires Consistent(nested, Shows, outbox, st, cfg)
    requires Holds(nested, (client, pid)) && m == nested[client].messages[pid]
    requires m.retryCount < cfg.maxRetries && cfg.dupOnRetry == true
    ensures Consistent(Replace(nested, client, pid, m.(retryCount := m.retryCount + 1)), Shows,
                       if up then outbox + [Delivery(client, m.session, RetryPacket(m, pid))] else outbox,
                       Apply(st, Tick(client, pid, up), cfg), cfg)
  {
    var t, step := st.flat[(client, pid)], Tick(client, pid, up);
    assert Shows(t, m, pid);
    ReplaceConsistent(nested, Shows, outbox, st, cfg, step, m.(retryCount := m.retryCount + 1),
                      t.(retries := t.retries + 1));
    assert Calls(st, step, cfg) == if up then [Delivery(client, m.session, RetryPacket(m, pid))] else [];
    assert outbox + [] == outbox;
  }

  lemma {:induction false} PubrecConsistent(nested: Nested<OutgoingMessage>, outbox: seq<Delivery>, st: State,
                                            cfg: Config,
                                            client: string, pid: nat, m: OutgoingMessage, up: bool)
    requires Consistent(nested, Shows, outbox, st, cfg)
    requires Holds(nested, (client, pid)) && m == nested[client].messages[pid]
    ensures Consistent(Replace(nested, client, pid, m.(state := PubrecReceived, retryCount := 0)), Shows,
                       if up then outbox + [Delivery(client, m.session, Pubrel(pid))] else outbox,
                       Apply(st, Pubrec(client, pid, up), cfg), cfg)
  {
    var t, step := st.flat[(client, pid)], Pubrec(client, pid, up);
    assert Shows(t, m, pid);
    ReplaceConsistent(nested, Shows, outbox, st, cfg, step, m.(state := PubrecReceived, retryCount := 0),
                      t.(phase := PubrecReceived, retries := 0));
    assert Calls(st, step, cfg) == if up then [Delivery(client, m.session, Pubrel(pid))] else [];
    assert outbox + [] == outbox;
  }

  class Qos2Handler {
    const maxRetries: int
    var outgoing: map<string, Table<OutgoingMessage>>
    /** The packets handed to sessions, in order. */
    var outbox: seq<Delivery>
    ghost var abs: State
    /** The steps taken so far. */
    ghost var trace: seq<Step>

    ghost function Cfg(): Config {
      Config(maxRetries, true)
    }

    ghost predicate Valid()
      reads this
    {
      Consistent(outgoing, Shows, outbox, abs, Cfg()) && Reached(abs, trace, Cfg()) && Qos2Run(trace, Cfg())
    }

    constructor (maxRetries: int)
      ensures Valid() && abs == INITIAL && this.maxRetries == maxRetries
    {
      this.maxRetries := maxRetries;
      outgoing := map[];
      outbox := [];
      abs, trace := INITIAL, [];
    }

    /** One step of the machine that this handler refines. */
    ghost method Advance(step: Step)
      requires Reached(abs, trace, Cfg()) && Qos2Run(trace, Cfg())
      requires Qos2Step(step)
      modifies this`abs, this`trace
      ensures abs == Apply(old(abs), step, Cfg())
      ensures Reached(abs, trace, Cfg()) && Qos2Run(trace, Cfg())
    {
      ReachedMore(abs, trace, step, Cfg());
      abs, trace := Apply(abs, step, Cfg()), trace + [step];
    }

    /** What the packets in `outbox` amount to, whatever this handler has been
        through: each message is passed on at most once; exactly once and in order
        precisely when no stale identifier was reused; it is sent a bounded number
        of times, with the same content each time. */
    lemma Guarantees(client: string, m: nat)
      requires Valid()
      ensures outbox == Deliveries(abs.log)
      ensures Steady(abs.log, m, Cfg())
      ensures Distinct(Receive(abs.log, client).accepted)
      ensures Receive(abs.log, client).accepted == Originals(abs.log, client) <==> !Reuses(trace, Cfg(), client)
      ensures Count(abs.log, PublishSend, m) <= 1 + Limit(Cfg())
      ensures Count(abs.log, PubrelSend, m) <= (1 + Limit(Cfg())) * Count(abs.log, PubrecReceipt, m)
    {
      ReachedIff(abs, trace, Cfg());
      AcceptedAtMostOnce(trace, Cfg(), client);
      ExactlyOnceIff(trace, Cfg(), client);
      RetriesAreBounded(trace, Cfg(), m);
      RetriesRepeat(trace, Cfg(), m);
    }

    /** The locked section of `deliver`: allocate, store, send. */
    method DeliverTracked(client: string, session: nat, pub: Packet) returns (pid: nat)
      requires Valid() && pub.Publish?
      modifies this
      ensures Valid()
      ensures pid == 0 <==> |Pids(old(abs.flat), client)| == ID_COUNT
      ensures pid == 0 ==> abs == old(abs)
      ensures pid != 0 ==>
                && pid in Ids() && (client, pid) !in old(abs.flat)
                && abs == Apply(old(abs), Copy(client, session, FirstPublish(Qos2, pub, pid)), Cfg())
    {
      var table, id, k := TakeId(client);
      pid := id;
      if pid != 0 {
        StoreCopy(client, session, pub, table, pid);
      }
    }

    method TakeId(client: string) returns (table: Table<OutgoingMessage>, pid: nat, ghost k: nat)
      requires Valid()
      ensures pid == 0 <==> |Pids(abs.flat, client)| == ID_COUNT
      ensures pid != 0 ==> Takes(TableOf(outgoing, client), table, pid)
      ensures pid != 0 ==>
                var t := TableOf(outgoing, client);
                FirstFree(t.inUse, t.nextId, k) && pid == Cyclic(t.nextId, k) && table.nextId == Cyclic(t.nextId, k + 1)
    {
      PidsAreInUse(outgoing, abs.flat, Shows, client);
      ExhaustedIff(TableOf(outgoing, client).inUse);
      table, pid, k := AllocatePacketId(TableOf(outgoing, client));
    }

    method StoreCopy(client: string, session: nat, pub: Packet, table: Table<OutgoingMessage>, pid: nat)
      requires Valid() && pub.Publish? && Takes(TableOf(outgoing, client), table, pid)
      modifies this
      ensures Valid()
      ensures (client, pid) !in old(abs.flat)
      ensures abs == Apply(old(abs), Copy(client, session, FirstPublish(Qos2, pub, pid)), Cfg())
    {
      var m := OutgoingMessage(session, pub.topic, pub.payload, PublishSent, 0);
      ghost var step := Copy(client, session, FirstPublish(Qos2, pub, pid));
      InsertShown(outgoing, abs.flat, Shows, client, table, pid, m,
                  Tracked(abs.serials, session, FirstPublish(Qos2, pub, pid), PublishSent, 0));
      StepConsistent(outgoing, Insert(outgoing, client, table, pid, m), Shows, outbox, abs, Cfg(), step);
      outgoing := Insert(outgoing, client, table, pid, m);
      outbox := outbox + [Delivery(client, session, FirstPublish(Qos2, pub, pid))];
      Advance(step);
    }

    method HandlePubrec(client: string, pid: nat, connected: set<nat>)
      requires Valid()
      modifies this
      ensures Valid()
      ensures abs == Apply(old(abs), Pubrec(client, pid, Up(old(abs), client, pid, connected)), Cfg())
      ensures var out := Outgoing(old(outgoing), client, pid);
              outbox == old(outbox)
                        + if out.Some? && out.value.session in connected
                          then [Delivery(client, out.value.session, Pubrel(pid))] else []
    {
      if client !in outgoing { return; }
      if pid !in outgoing[client].messages { return; }
      MarkReceived(client, pid, outgoing[client].messages[pid], connected);
    }

    method MarkReceived(client: string, pid: nat, m: OutgoingMessage, connected: set<nat>)
      requires Valid() && Holds(outgoing, (client, pid)) && m == outgoing[client].messages[pid]
      modifies this
      ensures Valid()
      ensures abs == Apply(old(abs), Pubrec(client, pid, m.session in connected), Cfg())
      ensures outbox == old(outbox)
                        + if m.session in connected then [Delivery(client, m.session, Pubrel(pid))] else []
    {
      PubrecConsistent(outgoing, outbox, abs, Cfg(), client, pid, m, m.session in connected);
      outgoing := Replace(outgoing, client, pid, m.(state := PubrecReceived, retryCount := 0));
      outbox := if m.session in connected then outbox + [Delivery(client, m.session, Pubrel(pid))] else outbox;
      Advance(Pubrec(client, pid, m.session in connected));
    }

    method HandlePubrel(client: string, pid: nat)
      requires Valid()
      modifies this
      ensures Valid()
      ensures abs == Apply(old(abs), Remove(client, pid), Cfg())
      ensures (client, pid) !in abs.flat && outbox == old(outbox)
    {
      EraseMessage(client, pid);
    }

    method HandlePubcomp(client: string, pid: nat)
      requires Valid()
      modifies this
      ensures Valid()
      ensures abs == Apply(old(abs), Remove(client, pid), Cfg())
      ensures (client, pid) !in abs.flat && outbox == old(outbox)
    {
      EraseMessage(client, pid);
    }

    /** The body that `handle_pubrel` and `handle_pubcomp` share. */
    method EraseMessage(client: string, pid: nat)
      requires Valid()
      modifies this
      ensures Valid()
      ensures abs == Apply(old(abs), Remove(client, pid), Cfg())
      ensures (client, pid) !in abs.flat && outbox == old(outbox)
    {
      if client !in outgoing { return; }
      if pid !in outgoing[client].messages { return; }
      EraseConsistent(outgoing, Shows, outbox, abs, Cfg(), Remove(client, pid));
      outgoing := Erase(outgoing, client, pid);
      Advance(Remove(client, pid));
    }

    method RetryMessage(client: string, pid: nat, connected: set<nat>)
      requires Valid()
      modifies this
      ensures Valid()
      ensures abs == Apply(old(abs), Tick(client, pid, Up(old(abs), client, pid, connected)), Cfg())
      ensures match Outgoing(old(outgoing), client, pid)
              case None => outbox == old(outbox)
              case Some(m) =>
                if m.retryCount >= maxRetries || m.session !in connected then outbox == old(outbox)
                else if m.state == PublishSent then
                  outbox == old(outbox)
                            + [Delivery(client, m.session, Publish(m.topic, m.payload, 2, false, true, pid))]
                else outbox == old(outbox) + [Delivery(client, m.session, Pubrel(pid))]
    {
      if client !in outgoing { return; }
      if pid !in outgoing[client].messages { return; }
      var m := outgoing[client].messages[pid];
      if m.retryCount >= maxRetries {
        GiveUp(client, pid, m, connected);
      } else {
        CountRetry(client, pid, m, connected);
      }
    }

    method GiveUp(client: string, pid: nat, m: OutgoingMessage, connected: set<nat>)
      requires Valid() && Holds(outgoing, (client, pid)) && m == outgoing[client].messages[pid]
      requires m.retryCount >= maxRetries
      modifies this
      ensures Valid()
      ensures outbox == old(outbox)
      ensures abs == Apply(old(abs), Tick(client, pid, m.session in connected), Cfg())
    {
      EraseConsistent(outgoing, Shows, outbox, abs, Cfg(), Tick(client, pid, m.session in connected));
      outgoing := Erase(outgoing, client, pid);
      Advance(Tick(client, pid, m.session in connected));
    }

    method CountRetry(client: string, pid: nat, m: OutgoingMessage, connected: set<nat>)
      requires Valid() && Holds(outgoing, (client, pid)) && m == outgoing[client].messages[pid]
      requires m.retryCount < maxRetries
      modifies this
      ensures Valid()
      ensures abs == Apply(old(abs), Tick(client, pid, m.session in connected), Cfg())
      ensures outbox == old(outbox)
                        + if m.session in connected then [Delivery(client, m.session, RetryPacket(m, pid))] else []
    {
      RetryConsistent(outgoing, outbox, abs, Cfg(), client, pid, m, m.session in connected);
      outgoing := Replace(outgoing, client, pid, m.(retryCount := m.retryCount + 1));
      outbox := if m.session in connected then outbox + [Delivery(client, m.session, RetryPacket(m, pid))] else outbox;
      Advance(Tick(client, pid, m.session in connected));
    }

    /** One round of the loop in `deliver`. */
    method DeliverOne(entry: Entry, pub: Packet, expired: set<nat>, clientOf: nat -> string)
      returns (ghost sent: Option<Event>)
      requires Valid() && pub.Publish?
      modifies this
      ensures Valid()
      ensures FannedOut(Qos2, old(abs), abs, [entry], [sent], Publication(pub, expired, clientOf), Cfg())
    {
      ghost var before, p := abs, Publication(pub, expired, clientOf);
      PoolsFit();
      sent := None;
      if entry.session in expired {
        SkippedOne(Qos2, before, entry, p, Cfg());
        return;
      }
      var client := clientOf(entry.session);
      var granted := Min(entry.qos, pub.qos);
      if granted < 2 {
        var packet := Publish(pub.topic, pub.payload, granted, false, false, 0);
        PlainOne(Qos2, before, entry, p, Cfg());
        sent := Some(Sent(client, entry.session, packet, None));
        SendPlain(client, entry.session, packet);
        return;
      }
      var pid := DeliverTracked(client, entry.session, pub);
      if pid == 0 {
        SkippedOne(Qos2, before, entry, p, Cfg());
      } else {
        ghost var packet := FirstPublish(Qos2, pub, pid);
        CopiedOne(Qos2, before, entry, pid, p, Cfg());
        sent := Some(Sent(client, entry.session, packet, Some(before.serials)));
      }
    }

    method SendPlain(client: string, session: nat, packet: Packet)
      requires Valid() && packet.Publish? && packet.qos < 2
      modifies this`outbox, this`abs, this`trace
      ensures Valid()
      ensures abs == Apply(old(abs), Plain(client, session, packet), Cfg())
    {
      PlainConsistent(outgoing, Shows, outbox, abs, Cfg(), client, session, packet);
      outbox := outbox + [Delivery(client, session, packet)];
      Advance(Plain(client, session, packet));
    }

    lemma PoolsFit()
      requires Valid()
      ensures forall c :: |Pids(abs.flat, c)| <= ID_COUNT
    {
      forall c ensures |Pids(abs.flat, c)| <= ID_COUNT {
        PidsAreInUse(outgoing, abs.flat, Shows, c);
        ExhaustedIff(TableOf(outgoing, c).inUse);
      }
    }

    /** `deliver`, called with what `lookup` found. */
    method Deliver(entries: seq<Entry>, pub: Packet, expired: set<nat>, clientOf: nat -> string)
      returns (ghost sent: seq<Option<Event>>)
      requires Valid() && pub.Publish?
      modifies this
      ensures Valid()
      ensures FannedOut(Qos2, old(abs), abs, entries, sent, Publication(pub, expired, clientOf), Cfg())
    {
      ghost var p := Publication(pub, expired, clientOf);
      sent := [];
      PoolsFit();
      for i := 0 to |entries|
        invariant Valid()
        invariant FannedOut(Qos2, old(abs), abs, entries[..i], sent, p, Cfg())
      {
        ghost var mid := abs;
        var s := DeliverOne(entries[i], pub, expired, clientOf);
        FannedOutMore(Qos2, old(abs), mid, abs, entries, i, sent, s, p, Cfg());
        sent := sent + [s];
      }
      assert entries[..|entries|] == entries;
    }
  }
}
