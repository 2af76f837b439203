/** The QoS 1 handler (src/qos/qos1.cpp). */
module Qos1Handler {
  import opened Wrappers
  import opened PacketIds
  import opened InFlight
  import opened Retransmission
  import opened ClientTables
  import opened TrieSpec
  import opened FanOut

  datatype PendingMessage = PendingMessage(session: nat, publishPacket: Packet, retryCount: int)

  predicate Shows(t: Tracked, m: PendingMessage, pid: nat) {
    && t.session == m.session && t.publish == m.publishPacket
    && t.phase == PublishSent && t.retries == m.retryCount
  }

  lemma {:induction false} RetryConsistent(nested: Nested<PendingMessage>, outbox: seq<Delivery>, st: State,
                                           cfg: Config,
                                           client: string, pid: nat, m: PendingMessage, up: bool)
    requires Consistent(nested, Shows, outbox, st, cfg)
    requires Holds(nested, (client, pid)) && m == nested[client].messages[pid]
    requires m.retryCount < cfg.maxRetries && cfg.dupOnRetry == false
    ensures Consistent(Replace(nested, client, pid, m.(retryCount := m.retryCount + 1)), Shows,
                       if up then outbox + [Delivery(client, m.session, m.publishPacket)] else outbox,
                       Apply(st, Tick(client, pid, up), cfg), cfg)
  {
    var t, step := st.flat[(client, pid)], Tick(client, pid, up);
    assert Shows(t, m, pid);
    ReplaceConsistent(nested, Shows, outbox, st, cfg, step, m.(retryCount := m.retryCount + 1),
                      t.(retries := t.retries + 1));
    assert Calls(st, step, cfg) == if up then [Delivery(client, m.session, m.publishPacket)] else [];
    assert outbox + [] == outbox;
  }

  class Qos1Handler {
    const maxRetries: int
    var pending: map<string, Table<PendingMessage>>
    /** The packets handed to sessions, in order. */
    var outbox: seq<Delivery>
    ghost var abs: State
    /** The steps taken so far. */
    ghost var trace: seq<Step>

    ghost function Cfg(): Config {
      Config(maxRetries, false)
    }

    ghost predicate Valid()
      reads this
    {
      Consistent(pending, Shows, outbox, abs, Cfg()) && Reached(abs, trace, Cfg())
    }

    constructor (maxRetries: int)
      ensures Valid() && abs == INITIAL && this.maxRetries == maxRetries
    {
      this.maxRetries := maxRetries;
      pending := map[];
      outbox := [];
      abs, trace := INITIAL, [];
    }

    /** One step of the machine that this handler refines. */
    ghost method Advance(step: Step)
      requires Reached(abs, trace, Cfg())
      modifies this`abs, this`trace
      ensures abs == Apply(old(abs), step, Cfg())
      ensures Reached(abs, trace, Cfg())
    {
      ReachedMore(abs, trace, step, Cfg());
      abs, trace := Apply(abs, step, Cfg()), trace + [step];
    }

    /** Whatever this handler has been through, the packets in `outbox` hold each
        message at most 1 + max_retry_count times, the very same packet each time. */
    lemma Guarantees(m: nat)
      requires Valid()
      ensures outbox == Deliveries(abs.log)
      ensures Steady(abs.log, m, Cfg())
      ensures Count(abs.log, PublishSend, m) <= 1 + Limit(Cfg())
    {
      ReachedIff(abs, trace, Cfg());
      RetriesAreBounded(trace, Cfg(), m);
      RetriesRepeat(trace, Cfg(), m);
    }

    /** The locked section of `deliver`: allocate, store, send. */
    method DeliverTracked(client: string, session: nat, pub: Packet) returns (pid: nat)
      requires Valid() && pub.Publish?
      modifies this
      ensures Valid()
      ensures pid == 0 <==> |Pids(old(abs.flat), client)| == ID_COUNT
      ensures pid == 0 ==> abs == old(abs)
      ensures pid != 0 ==>
                && pid in Ids() && (client, pid) !in old(abs.flat)
                && abs == Apply(old(abs), Copy(client, session, FirstPublish(Qos1, pub, pid)), Cfg())
    {
      var table, id, k := TakeId(client);
      pid := id;
      if pid != 0 {
        StoreCopy(client, session, pub, table, pid);
      }
    }

    method TakeId(client: string) returns (table: Table<PendingMessage>, pid: nat, ghost k: nat)
      requires Valid()
      ensures pid == 0 <==> |Pids(abs.flat, client)| == ID_COUNT
      ensures pid != 0 ==> Takes(TableOf(pending, client), table, pid)
      ensures pid != 0 ==>
                var t := TableOf(pending, client);
                FirstFree(t.inUse, t.nextId, k) && pid == Cyclic(t.nextId, k) && table.nextId == Cyclic(t.nextId, k + 1)
    {
      PidsAreInUse(pending, abs.flat, Shows, client);
      ExhaustedIff(TableOf(pending, client).inUse);
      table, pid, k := AllocatePacketId(TableOf(pending, client));
    }

    method StoreCopy(client: string, session: nat, pub: Packet, table: Table<PendingMessage>, pid: nat)
      requires Valid() && pub.Publish? && Takes(TableOf(pending, client), table, pid)
      modifies this
      ensures Valid()
      ensures (client, pid) !in old(abs.flat)
      ensures abs == Apply(old(abs), Copy(client, session, FirstPublish(Qos1, pub, pid)), Cfg())
    {
      var m := PendingMessage(session, FirstPublish(Qos1, pub, pid), 0);
      ghost var step := Copy(client, session, FirstPublish(Qos1, pub, pid));
      InsertShown(pending, abs.flat, Shows, client, table, pid, m,
                  Tracked(abs.serials, session, FirstPublish(Qos1, pub, pid), PublishSent, 0));
      StepConsistent(pending, Insert(pending, client, table, pid, m), Shows, outbox, abs, Cfg(), step);
      pending := Insert(pending, client, table, pid, m);
      outbox := outbox + [Delivery(client, session, FirstPublish(Qos1, pub, pid))];
      Advance(step);
    }

    method HandlePuback(client: string, pid: nat)
      requires Valid()
      modifies this
      ensures Valid()
      ensures abs == Apply(old(abs), Remove(client, pid), Cfg())
      ensures (client, pid) !in abs.flat && outbox == old(outbox)
    {
      if client !in pending { return; }
      if pid !in pending[client].messages { return; }
      EraseConsistent(pending, Shows, outbox, abs, Cfg(), Remove(client, pid));
      pending := Erase(pending, client, pid);
      Advance(Remove(client, pid));
    }

    method RetryMessage(client: string, pid: nat, connected: set<nat>)
      requires Valid()
      modifies this
      ensures Valid()
      ensures abs == Apply(old(abs), Tick(client, pid, Up(old(abs), client, pid, connected)), Cfg())
      ensures !old(Holds(pending, (client, pid))) ==> outbox == old(outbox)
      ensures old(Holds(pending, (client, pid))) ==>
                var m := old(pending)[client].messages[pid];
                outbox == old(outbox)
                          + if m.retryCount < maxRetries && m.session in connected
                            then [Delivery(client, m.session, m.publishPacket)] else []
    {
      if client !in pending { return; }
      if pid !in pending[client].messages { return; }
      var m := pending[client].messages[pid];
      if m.retryCount >= maxRetries {
        GiveUp(client, pid, m, connected);
      } else {
        CountRetry(client, pid, m, connected);
      }
    }

    method GiveUp(client: string, pid: nat, m: PendingMessage, connected: set<nat>)
      requires Valid() && Holds(pending, (client, pid)) && m == pending[client].messages[pid]
      requires m.retryCount >= maxRetries
      modifies this
      ensures Valid()
      ensures outbox == old(outbox)
      ensures abs == Apply(old(abs), Tick(client, pid, m.session in connected), Cfg())
    {
      EraseConsistent(pending, Shows, outbox, abs, Cfg(), Tick(client, pid, m.session in connected));
      pending := Erase(pending, client, pid);
      Advance(Tick(client, pid, m.session in connected));
    }

    method CountRetry(client: string, pid: nat, m: PendingMessage, connected: set<nat>)
      requires Valid() && Holds(pending, (client, pid)) && m == pending[client].messages[pid]
      requires m.retryCount < maxRetries
      modifies this
      ensures Valid()
      ensures abs == Apply(old(abs), Tick(client, pid, m.session in connected), Cfg())
      ensures outbox == old(outbox)
                        + if m.session in connected then [Delivery(client, m.session, m.publishPacket)] else []
    {
      RetryConsistent(pending, outbox, abs, Cfg(), client, pid, m, m.session in connected);
      pending := Replace(pending, client, pid, m.(retryCount := m.retryCount + 1));
      outbox := if m.session in connected then outbox + [Delivery(client, m.session, m.publishPacket)] else outbox;
      Advance(Tick(client, pid, m.session in connected));
    }

    /** One round of the loop in `deliver`. */
    method DeliverOne(entry: Entry, pub: Packet, expired: set<nat>, clientOf: nat -> string)
      returns (ghost sent: Option<Event>)
      requires Valid() && pub.Publish?
      modifies this
      ensures Valid()
      ensures FannedOut(Qos1, old(abs), abs, [entry], [sent], Publication(pub, expired, clientOf), Cfg())
    {
      ghost var before, p := abs, Publication(pub, expired, clientOf);
      PoolsFit();
      sent := None;
      if entry.session in expired {
        SkippedOne(Qos1, before, entry, p, Cfg());
        return;
      }
      var client := clientOf(entry.session);
      var pid := DeliverTracked(client, entry.session, pub);
      if pid == 0 {
        SkippedOne(Qos1, before, entry, p, Cfg());
      } else {
        ghost var packet := FirstPublish(Qos1, pub, pid);
        CopiedOne(Qos1, before, entry, pid, p, Cfg());
        sent := Some(Sent(client, entry.session, packet, Some(before.serials)));
      }
    }

    lemma PoolsFit()
      requires Valid()
      ensures forall c :: |Pids(abs.flat, c)| <= ID_COUNT
    {
      forall c ensures |Pids(abs.flat, c)| <= ID_COUNT {
        PidsAreInUse(pending, abs.flat, Shows, c);
        ExhaustedIff(TableOf(pending, c).inUse);
      }
    }

    /** `deliver`, called with what `lookup` found. */
    method Deliver(entries: seq<Entry>, pub: Packet, expired: set<nat>, clientOf: nat -> string)
      returns (ghost sent: seq<Option<Event>>)
      requires Valid() && pub.Publish?
      modifies this
      ensures Valid()
      ensures FannedOut(Qos1, old(abs), abs, entries, sent, Publication(pub, expired, clientOf), Cfg())
    {
      ghost var p := Publication(pub, expired, clientOf);
      sent := [];
      PoolsFit();
      for i := 0 to |entries|
        invariant Valid()
        invariant FannedOut(Qos1, old(abs), abs, entries[..i], sent, p, Cfg())
      {
        ghost var mid := abs;
        var s := DeliverOne(entries[i], pub, expired, clientOf);
        FannedOutMore(Qos1, old(abs), mid, abs, entries, i, sent, s, p, Cfg());
        sent := sent + [s];
      }
      assert entries[..|entries|] == entries;
    }
  }
}
