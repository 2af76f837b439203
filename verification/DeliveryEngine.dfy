/** The delivery engine (src/core/delivery_engine.cpp): routing of a publication
    to a handler, and the incoming half of QoS 2. */
module DeliveryEngine {
  import opened Wrappers
  import opened Octets
  import opened TrieSpec
  import Tree = TopicTree
  import opened InFlight
  import opened FanOut
  import opened ClientTables
  import Q1 = Qos1Handler
  import Q2 = Qos2Handler

  datatype IncomingMessage = IncomingMessage(topic: string, payload: Bytes, qos: nat)

  // ------------------------------------------------------ incoming QoS 2, abstractly

  /** What happened to incoming QoS 2 messages, in order: PUBLISH, PUBREL, close. */
  datatype Incident =
    | Store(client: string, pid: nat, message: IncomingMessage)
    | Release(client: string, pid: nat)
    | Clear(client: string)

  /** The message a PUBREL would release now, told by the history alone. */
  function Waiting(history: seq<Incident>, client: string, pid: nat): Option<IncomingMessage> {
    if history == [] then None
    else
      match history[|history| - 1]
      case Store(c, i, m) => if c == client && i == pid then Some(m) else Waiting(history[..|history| - 1], client, pid)
      case Release(c, i) => if c == client && i == pid then None else Waiting(history[..|history| - 1], client, pid)
      case Clear(c) => if c == client then None else Waiting(history[..|history| - 1], client, pid)
  }

  predicate Touches(x: Incident, client: string, pid: nat) {
    x.client == client && (x.Clear? || x.pid == pid)
  }

  function Stores(history: seq<Incident>, client: string, pid: nat): nat {
    if history == [] then 0
    else Stores(history[..|history| - 1], client, pid)
         + One(history[|history| - 1].Store? && Touches(history[|history| - 1], client, pid))
  }

  /** PUBRELs that found a message to release. */
  function Releases(history: seq<Incident>, client: string, pid: nat): nat {
    if history == [] then 0
    else
      var init, x := history[..|history| - 1], history[|history| - 1];
      Releases(init, client, pid) + One(x.Release? && Touches(x, client, pid) && Waiting(init, client, pid).Some?)
  }

  lemma {:induction false} WaitingMore(history: seq<Incident>, x: Incident, client: string, pid: nat)
    ensures Waiting(history + [x], client, pid)
         == if !Touches(x, client, pid) then Waiting(history, client, pid)
            else if x.Store? then Some(x.message) else None
  {
    assert (history + [x])[..|history|] == history;
  }

  /** However many PUBLISHes arrive before a PUBREL, it releases the content of
      the last one. */
  lemma {:induction false} ReleasesTheLast(history: seq<Incident>, m: IncomingMessage, later: seq<Incident>,
                                           client: string, pid: nat)
    requires forall j :: 0 <= j < |later| ==> !Touches(later[j], client, pid)
    ensures Waiting(history + [Store(client, pid, m)] + later, client, pid) == Some(m)
    decreases |later|
  {
    var start := history + [Store(client, pid, m)];
    if later == [] {
      assert start + later == start;
      WaitingMore(history, Store(client, pid, m), client, pid);
    } else {
      var init, x := later[..|later| - 1], later[|later| - 1];
      ReleasesTheLast(history, m, init, client, pid);
      assert start + later == (start + init) + [x];
      WaitingMore(start + init, x, client, pid);
    }
  }

  /** After a PUBREL, or once the client has gone, there is nothing left to
      release until a new PUBLISH. */
  lemma {:induction false} NeedsNewPublish(history: seq<Incident>, x: Incident, later: seq<Incident>, client: string,
                                           pid: nat)
    requires x == Release(client, pid) || x == Clear(client)
    requires forall j :: 0 <= j < |later| && later[j].Store? ==> !Touches(later[j], client, pid)
    ensures Waiting(history + [x] + later, client, pid) == None
    decreases |later|
  {
    var start := history + [x];
    if later == [] {
      assert start + later == start;
      WaitingMore(history, x, client, pid);
    } else {
      var init, y := later[..|later| - 1], later[|later| - 1];
      NeedsNewPublish(history, x, init, client, pid);
      assert start + later == (start + init) + [y];
      WaitingMore(start + init, y, client, pid);
    }
  }

  /** A stored message is released at most once, over any history. */
  lemma {:induction false} ReleasedAtMostOnce(history: seq<Incident>, client: string, pid: nat)
    ensures Releases(history, client, pid) + One(Waiting(history, client, pid).Some?) <= Stores(history, client, pid)
    decreases |history|
  {
    if history != [] {
      ReleasedAtMostOnce(history[..|history| - 1], client, pid);
    }
  }

  // ------------------------------------------------------------ the nested table

  type IncomingTable = map<string, map<nat, IncomingMessage>>

  function Slot(table: IncomingTable, client: string, pid: nat): Option<IncomingMessage> {
    if client in table && pid in table[client] then Some(table[client][pid]) else None
  }

  ghost predicate Refines(table: IncomingTable, history: seq<Incident>) {
    && (forall c :: c in table ==> table[c] != map[])
    && (forall c, i :: Slot(table, c, i) == Waiting(history, c, i))
  }

  function StoreIn(table: IncomingTable, client: string, pid: nat, m: IncomingMessage): IncomingTable {
    table[client := (if client in table then table[client] else map[])[pid := m]]
  }

  function EraseFrom(table: IncomingTable, client: string, pid: nat): IncomingTable {
    if client !in table || pid !in table[client] then table
    else
      var rest := table[client] - {pid};
      if rest == map[] then table - {client} else table[client := rest]
  }

  lemma {:induction false} StoreRefines(table: IncomingTable, history: seq<Incident>, client: string, pid: nat,
                                        m: IncomingMessage)
    requires Refines(table, history)
    ensures Refines(StoreIn(table, client, pid, m), history + [Store(client, pid, m)])
  {
    var table' := StoreIn(table, client, pid, m);
    assert pid in table'[client];
    forall c, i ensures Slot(table', c, i) == Waiting(history + [Store(client, pid, m)], c, i) {
      WaitingMore(history, Store(client, pid, m), c, i);
      assert Slot(table, c, i) == Waiting(history, c, i);
    }
  }

  lemma {:induction false} EraseRefines(table: IncomingTable, history: seq<Incident>, client: string, pid: nat)
    requires Refines(table, history)
    ensures Refines(EraseFrom(table, client, pid), history + [Release(client, pid)])
  {
    var table' := EraseFrom(table, client, pid);
    if client in table {
      var rest := table[client] - {pid};
      assert forall i :: i in table[client] && i != pid ==> i in rest;
    }
    forall c, i ensures Slot(table', c, i) == Waiting(history + [Release(client, pid)], c, i) {
      WaitingMore(history, Release(client, pid), c, i);
      assert Slot(table, c, i) == Waiting(history, c, i);
    }
  }

  lemma {:induction false} ClearRefines(table: IncomingTable, history: seq<Incident>, client: string)
    requires Refines(table, history)
    ensures Refines(table - {client}, history + [Clear(client)])
  {
    forall c, i ensures Slot(table - {client}, c, i) == Waiting(history + [Clear(client)], c, i) {
      WaitingMore(history, Clear(client), c, i);
      assert Slot(table, c, i) == Waiting(history, c, i);
    }
  }

  // ------------------------------------------------------------------- the engine

  /** What a released message is published as. */
  function ReleasedPublish(m: IncomingMessage): Packet {
    Publish(m.topic, m.payload, m.qos, false, false, 0)
  }

  /** So the PUBLISH stored last, however many came before, is what its PUBREL
      sends to the subscribers. */
  lemma {:induction false} LastStoredGoesOut(history: seq<Incident>, m: IncomingMessage, later: seq<Incident>,
                                             client: string, pid: nat, entries: seq<Entry>, sent: seq<Option<Event>>,
                                             expired: set<nat>, clientOf: nat -> string)
    requires forall j :: 0 <= j < |later| ==> !Touches(later[j], client, pid)
    requires var slot := Waiting(history + [Store(client, pid, m)] + later, client, pid);
             slot.Some? ==>
               EachServed(Qos2, entries, sent, Publication(ReleasedPublish(slot.value), expired, clientOf))
    ensures Waiting(history + [Store(client, pid, m)] + later, client, pid).Some?
    ensures Carry(Qos2, entries, sent, m.topic, m.payload, m.qos)
  {
    ReleasesTheLast(history, m, later, client, pid);
    ServedCarry(Qos2, entries, sent, Publication(ReleasedPublish(m), expired, clientOf));
  }

  /** `Qos0Handler::deliver` over the subscribers found. */
  method DeliverQos0(entries: seq<Entry>, pub: Packet, expired: set<nat>, clientOf: nat -> string)
    returns (sent: seq<Option<Event>>)
    requires pub.Publish?
    ensures EachServed(Qos0, entries, sent, Publication(pub, expired, clientOf))
  {
    sent := [];
    for i := 0 to |entries|
      invariant |sent| == i
      invariant forall j :: 0 <= j < i ==> DeliveredTo(Qos0, entries[j], sent[j], Publication(pub, expired, clientOf))
    {
      var s := entries[i].session;
      if s in expired {
        sent := sent + [None];
      } else {
        sent := sent + [Some(Sent(clientOf(s), s, Publish(pub.topic, pub.payload, 0, false, false, 0), None))];
      }
    }
  }

  class DeliveryEngine {
    const qos1: Q1.Qos1Handler
    const qos2: Q2.Qos2Handler
    var incoming: IncomingTable
    /** The packets that the QoS 0 handler, which has no state, handed to sessions. */
    var direct: seq<Delivery>
    ghost var history: seq<Incident>

    ghost predicate Valid()
      reads this, qos1, qos2
    {
      qos1.Valid() && qos2.Valid() && Refines(incoming, history)
    }

    constructor (maxRetries: int)
      ensures Valid() && fresh(qos1) && fresh(qos2)
      ensures history == [] && direct == [] && qos1.abs == INITIAL && qos2.abs == INITIAL
    {
      qos1 := new Q1.Qos1Handler(maxRetries);
      qos2 := new Q2.Qos2Handler(maxRetries);
      incoming, direct := map[], [];
      history := [];
    }

    /** `Qos0Handler::deliver`: look the subscribers up, then send to each. */
    method ViaQos0(tree: Tree.TopicTree, pub: Packet, expired: set<nat>, clientOf: nat -> string)
      returns (ghost entries: seq<Entry>, ghost sent: seq<Option<Event>>)
      requires tree.Valid() && pub.Publish?
      modifies this`direct
      ensures FoundFor(entries, tree.entries, pub.topic)
      ensures EachServed(Qos0, entries, sent, Publication(pub, expired, clientOf))
      ensures direct == old(direct) + Deliveries(Somes(sent))
    {
      var found, visited := tree.Lookup(pub.topic);
      var out := DeliverQos0(found, pub, expired, clientOf);
      entries, sent := found, out;
      direct := direct + Deliveries(Somes(out));
    }

    /** `Qos1Handler::deliver`. */
    method ViaQos1(tree: Tree.TopicTree, pub: Packet, expired: set<nat>, clientOf: nat -> string)
      returns (ghost entries: seq<Entry>, ghost sent: seq<Option<Event>>)
      requires qos1.Valid() && tree.Valid() && pub.Publish?
      modifies qos1
      ensures qos1.Valid()
      ensures FoundFor(entries, tree.entries, pub.topic)
      ensures FannedOut(Qos1, old(qos1.abs), qos1.abs, entries, sent, Publication(pub, expired, clientOf),
                        qos1.Cfg())
    {
      var found, visited := tree.Lookup(pub.topic);
      entries := found;
      sent := qos1.Deliver(found, pub, expired, clientOf);
    }

    /** `Qos2Handler::deliver`. */
    method ViaQos2(tree: Tree.TopicTree, pub: Packet, expired: set<nat>, clientOf: nat -> string)
      returns (ghost entries: seq<Entry>, ghost sent: seq<Option<Event>>)
      requires qos2.Valid() && tree.Valid() && pub.Publish?
      modifies qos2
      ensures qos2.Valid()
      ensures FoundFor(entries, tree.entries, pub.topic)
      ensures FannedOut(Qos2, old(qos2.abs), qos2.abs, entries, sent, Publication(pub, expired, clientOf),
                        qos2.Cfg())
    {
      var found, visited := tree.Lookup(pub.topic);
      entries := found;
      sent := qos2.Deliver(found, pub, expired, clientOf);
    }

    /** `publish_from_client`: hand over to the handler of that QoS; a QoS of 3
        goes nowhere. */
    method PublishFromClient(tree: Tree.TopicTree, pub: Packet, expired: set<nat>, clientOf: nat -> string)
      returns (ghost entries: seq<Entry>, ghost sent: seq<Option<Event>>)
      requires Valid() && tree.Valid() && pub.Publish?
      modifies this`direct, qos1, qos2
      ensures Valid()
      ensures pub.qos <= 2 ==> FoundFor(entries, tree.entries, pub.topic)
      ensures pub.qos == 0 ==> EachServed(Qos0, entries, sent, Publication(pub, expired, clientOf))
      ensures direct == old(direct) + if pub.qos == 0 then Deliveries(Somes(sent)) else []
      ensures if pub.qos == 1 then
                FannedOut(Qos1, old(qos1.abs), qos1.abs, entries, sent, Publication(pub, expired, clientOf), qos1.Cfg())
              else qos1.abs == old(qos1.abs)
      ensures if pub.qos == 2 then
                FannedOut(Qos2, old(qos2.abs), qos2.abs, entries, sent, Publication(pub, expired, clientOf), qos2.Cfg())
              else qos2.abs == old(qos2.abs)
    {
      entries, sent := [], [];
      if pub.qos == 0 {
        entries, sent := ViaQos0(tree, pub, expired, clientOf);
      } else if pub.qos == 1 {
        entries, sent := ViaQos1(tree, pub, expired, clientOf);
      } else if pub.qos == 2 {
        entries, sent := ViaQos2(tree, pub, expired, clientOf);
      }
    }

    method StoreIncomingQos2(client: string, pub: Packet)
      requires Valid() && pub.Publish?
      modifies this
      ensures Valid()
      ensures history == old(history) + [Store(client, pub.pid, IncomingMessage(pub.topic, pub.payload, pub.qos))]
    {
      var m := IncomingMessage(pub.topic, pub.payload, pub.qos);
      StoreRefines(incoming, history, client, pub.pid, m);
      incoming := StoreIn(incoming, client, pub.pid, m);
      history := history + [Store(client, pub.pid, m)];
    }

    /** PUBREL: releases what the history says is waiting, by one fan-out. */
    method CompleteIncomingQos2(client: string, pid: nat, tree: Tree.TopicTree, expired: set<nat>,
                                clientOf: nat -> string)
      returns (ok: bool, ghost entries: seq<Entry>, ghost sent: seq<Option<Event>>)
      requires Valid() && tree.Valid()
      modifies this, qos2
      ensures Valid()
      ensures history == old(history) + [Release(client, pid)]
      ensures ok == Waiting(old(history), client, pid).Some?
      ensures !ok ==> qos2.abs == old(qos2.abs)
      ensures ok ==>
                var m := Waiting(old(history), client, pid).value;
                && FoundFor(entries, tree.entries, m.topic)
                && FannedOut(Qos2, old(qos2.abs), qos2.abs, entries, sent,
                             Publication(ReleasedPublish(m), expired, clientOf), qos2.Cfg())
                && Carry(Qos2, entries, sent, m.topic, m.payload, m.qos)
    {
      var slot := TakeIncoming(client, pid);
      ok := slot.Some?;
      entries, sent := ReleaseTo(slot, tree, expired, clientOf);
    }

    /** The fan-out of what was taken, if anything was. */
    method ReleaseTo(slot: Option<IncomingMessage>, tree: Tree.TopicTree, expired: set<nat>, clientOf: nat -> string)
      returns (ghost entries: seq<Entry>, ghost sent: seq<Option<Event>>)
      requires qos2.Valid() && tree.Valid()
      modifies qos2
      ensures qos2.Valid()
      ensures match slot
              case None => qos2.abs == old(qos2.abs)
              case Some(m) =>
                && FoundFor(entries, tree.entries, m.topic)
                && FannedOut(Qos2, old(qos2.abs), qos2.abs, entries, sent,
                             Publication(ReleasedPublish(m), expired, clientOf), qos2.Cfg())
                && Carry(Qos2, entries, sent, m.topic, m.payload, m.qos)
    {
      entries, sent := [], [];
      if slot.Some? {
        entries, sent := ViaQos2(tree, ReleasedPublish(slot.value), expired, clientOf);
        ServedCarry(Qos2, entries, sent, Publication(ReleasedPublish(slot.value), expired, clientOf));
      }
    }

    /** Its locked section. */
    method TakeIncoming(client: string, pid: nat) returns (slot: Option<IncomingMessage>)
      requires Refines(incoming, history)
      modifies this`incoming, this`history
      ensures Refines(incoming, history)
      ensures history == old(history) + [Release(client, pid)]
      ensures slot == Waiting(old(history), client, pid)
    {
      slot := Slot(incoming, client, pid);
      EraseRefines(incoming, history, client, pid);
      incoming := EraseFrom(incoming, client, pid);
      history := history + [Release(client, pid)];
    }

    method ClearClientIncoming(client: string)
      requires Valid()
      modifies this
      ensures Valid() && history == old(history) + [Clear(client)]
    {
      ClearRefines(incoming, history, client);
      incoming := incoming - {client};
      history := history + [Clear(client)];
    }

    /** `Session::handle_pubrel`: an unmatched PUBREL erases an outgoing message
        with the same identifier; the result says whether PUBCOMP is sent. */
    method HandlePubrel(client: string, pid: nat, tree: Tree.TopicTree, expired: set<nat>, clientOf: nat -> string)
      returns (pubcomp: bool, ghost entries: seq<Entry>, ghost sent: seq<Option<Event>>)
      requires Valid() && tree.Valid()
      modifies this, qos2
      ensures Valid()
      ensures history == old(history) + [Release(client, pid)]
      ensures pubcomp == Waiting(old(history), client, pid).Some?
      ensures !pubcomp ==> qos2.abs == Apply(old(qos2.abs), Remove(client, pid), qos2.Cfg())
      ensures pubcomp ==>
                var m := Waiting(old(history), client, pid).value;
                && FoundFor(entries, tree.entries, m.topic)
                && FannedOut(Qos2, old(qos2.abs), qos2.abs, entries, sent,
                             Publication(ReleasedPublish(m), expired, clientOf), qos2.Cfg())
                && Carry(Qos2, entries, sent, m.topic, m.payload, m.qos)
    {
      pubcomp, entries, sent := CompleteIncomingQos2(client, pid, tree, expired, clientOf);
      if !pubcomp {
        qos2.HandlePubrel(client, pid);
      }
    }
  }
}
