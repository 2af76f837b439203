/** One publication going out to the subscribers that `lookup` found, for each
    of the three handlers (src/qos/qos0.cpp, src/qos/qos1.cpp, src/qos/qos2.cpp). */
module FanOut {
  import opened Wrappers
  import opened Octets
  import opened PacketIds
  import opened InFlight
  import opened ClientTables
  import opened TrieSpec

  datatype Level = Qos0 | Qos1 | Qos2

  /** What is published, the sessions that are gone by then, and the client
      identifier of each session. */
  datatype Publication = Publication(pub: Packet, expired: set<nat>, clientOf: nat -> string)

  /** QoS 1 tracks every copy; QoS 2 only those granted QoS 2. */
  predicate IsTracked(level: Level, entry: Entry, pub: Packet)
    requires pub.Publish?
  {
    match level
    case Qos0 => false
    case Qos1 => true
    case Qos2 => Min(entry.qos, pub.qos) >= 2
  }

  /** The PUBLISH by which a tracked copy goes out first. */
  function FirstPublish(level: Level, pub: Packet, pid: nat): Packet
    requires pub.Publish?
  {
    if level == Qos1 then Publish(pub.topic, pub.payload, 1, pub.retain, false, pid)
    else Publish(pub.topic, pub.payload, 2, false, false, pid)
  }

  /** An untracked copy goes out at the lower of the two qualities of service. */
  function PlainPublish(level: Level, entry: Entry, pub: Packet): Packet
    requires pub.Publish?
  {
    Publish(pub.topic, pub.payload, if level == Qos0 then 0 else Min(entry.qos, pub.qos), false, false, 0)
  }

  /** Whether the session of a tracked message is connected. */
  ghost predicate Up(st: State, client: string, pid: nat, connected: set<nat>) {
    (client, pid) in st.flat && st.flat[(client, pid)].session in connected
  }

  /** What one subscriber is sent: nothing once its session is gone, else one
      packet; only a tracked copy may be skipped. */
  ghost predicate DeliveredTo(level: Level, entry: Entry, sent: Option<Event>, p: Publication)
    requires p.pub.Publish?
  {
    if entry.session in p.expired then sent == None
    else if !IsTracked(level, entry, p.pub) then
      sent == Some(Sent(p.clientOf(entry.session), entry.session, PlainPublish(level, entry, p.pub), None))
    else
      sent.Some? ==>
        && sent.value.Sent? && sent.value.tag.Some?
        && sent.value.client == p.clientOf(entry.session) && sent.value.session == entry.session
        && sent.value.packet == FirstPublish(level, p.pub, sent.value.packet.pid)
        && 1 <= sent.value.packet.pid <= ID_COUNT
  }

  /** The subscriber wants a tracked copy. */
  predicate Wants(level: Level, entry: Entry, p: Publication)
    requires p.pub.Publish?
  {
    entry.session !in p.expired && IsTracked(level, entry, p.pub)
  }

  /** Tracked copies that a publication wants to send to a client. */
  function Wanted(level: Level, entries: seq<Entry>, p: Publication, client: string): nat
    requires p.pub.Publish?
  {
    if entries == [] then 0
    else
      var e := entries[|entries| - 1];
      Wanted(level, entries[..|entries| - 1], p, client) + One(Wants(level, e, p) && p.clientOf(e.session) == client)
  }

  /** The machine's steps for what was sent: one `Copy` per tracked packet, one
      `Plain` per other packet, none for a subscriber that was sent nothing. */
  function StepsFor(sent: seq<Option<Event>>): seq<Step> {
    if sent == [] then [] else StepsFor(sent[..|sent| - 1]) + StepFor(sent[|sent| - 1])
  }

  function StepFor(s: Option<Event>): seq<Step> {
    match s
    case Some(Sent(c, session, packet, tag)) =>
      [if tag.Some? then Copy(c, session, packet) else Plain(c, session, packet)]
    case _ => []
  }

  /** A fan-out: one packet per live subscriber in order, a tracked copy skipped
      only for a client that has all 65535 identifiers in flight; the machine
      takes one step per packet sent and no other; so every tracked copy adds one
      message in flight, up to those 65535, and none is taken away. */
  ghost predicate FannedOut(level: Level, before: State, after: State, entries: seq<Entry>, sent: seq<Option<Event>>,
                            p: Publication, cfg: Config)
    requires p.pub.Publish?
  {
    && EachServed(level, entries, sent, p)
    && SkippedOnlyWhenFull(level, after, entries, sent, p)
    && after.log == before.log + Somes(sent)
    && after == Exec(before, StepsFor(sent), cfg)
    && (forall c :: Grown(level, before, after, entries, p, c))
  }

  ghost predicate EachServed(level: Level, entries: seq<Entry>, sent: seq<Option<Event>>, p: Publication)
    requires p.pub.Publish?
  {
    && |sent| == |entries|
    && forall j :: 0 <= j < |entries| ==> DeliveredTo(level, entries[j], sent[j], p)
  }

  ghost predicate SkippedOnlyWhenFull(level: Level, after: State, entries: seq<Entry>, sent: seq<Option<Event>>,
                                      p: Publication)
    requires p.pub.Publish? && |sent| == |entries|
  {
    forall j :: 0 <= j < |entries| && sent[j] == None && Wants(level, entries[j], p) ==>
      Full(after, p.clientOf(entries[j].session))
  }

  ghost predicate Full(st: State, client: string) {
    |Pids(st.flat, client)| == ID_COUNT
  }

  ghost predicate Grown(level: Level, before: State, after: State, entries: seq<Entry>, p: Publication, c: string)
    requires p.pub.Publish?
  {
    |Pids(after.flat, c)| == Min(ID_COUNT, |Pids(before.flat, c)| + Wanted(level, entries, p, c))
  }

  // ------------------------------------------------------------ what is sent to whom

  /** The quality of service of a packet to `entry`: 0 and 1 at those levels, and
      at level 2 the lowest of what was subscribed, what was published, and 2. */
  predicate RightQos(level: Level, entry: Entry, published: nat, qos: nat) {
    match level
    case Qos0 => qos == 0
    case Qos1 => qos == 1
    case Qos2 =>
      && qos <= entry.qos && qos <= published && qos <= 2
      && (qos == entry.qos || qos == published || qos == 2)
  }

  /** A packet of the publication, to that subscriber and in its quality of
      service; it has an identifier exactly when it is tracked. */
  predicate RightPacket(level: Level, entry: Entry, e: Event, p: Publication)
    requires p.pub.Publish?
  {
    && e.Sent? && e.client == p.clientOf(entry.session) && e.session == entry.session
    && e.packet.Publish? && e.packet.topic == p.pub.topic && e.packet.payload == p.pub.payload
    && !e.packet.dup && (e.packet.retain <==> level == Qos1 && p.pub.retain)
    && RightQos(level, entry, p.pub.qos, e.packet.qos)
    && e.packet.pid <= 65535 && (e.packet.pid != 0 <==> e.tag.Some?)
    && (e.tag.Some? <==> level == Qos1 || e.packet.qos == 2)
  }

  /** Whoever is served gets that packet; whoever is gone gets nothing; and a live
      subscriber is passed over only where a packet would be tracked. */
  lemma {:induction false} ServedRightly(level: Level, entries: seq<Entry>, sent: seq<Option<Event>>, p: Publication,
                                         j: nat)
    requires p.pub.Publish? && EachServed(level, entries, sent, p) && j < |sent|
    ensures sent[j].Some? ==> entries[j].session !in p.expired && RightPacket(level, entries[j], sent[j].value, p)
    ensures sent[j] == None && entries[j].session !in p.expired ==>
              level == Qos1 || (level == Qos2 && entries[j].qos >= 2 && p.pub.qos >= 2)
  {
    assert DeliveredTo(level, entries[j], sent[j], p);
  }

  /** The same of a fan-out, where those passed over had no identifier left. */
  lemma {:induction false} FannedOutRightly(level: Level, before: State, after: State, entries: seq<Entry>,
                                            sent: seq<Option<Event>>, p: Publication, cfg: Config, j: nat)
    requires p.pub.Publish? && FannedOut(level, before, after, entries, sent, p, cfg) && j < |sent|
    ensures sent[j].Some? ==> entries[j].session !in p.expired && RightPacket(level, entries[j], sent[j].value, p)
    ensures sent[j].Some? && level == Qos2 && p.pub.qos <= 2 ==>
              sent[j].value.packet.qos == entries[j].qos || sent[j].value.packet.qos == p.pub.qos
    ensures sent[j] == None && entries[j].session !in p.expired ==>
              |Pids(after.flat, p.clientOf(entries[j].session))| == 65535
  {
    ServedRightly(level, entries, sent, p, j);
    assert DeliveredTo(level, entries[j], sent[j], p);
    assert SkippedOnlyWhenFull(level, after, entries, sent, p);
    if sent[j] == None && entries[j].session !in p.expired {
      assert Wants(level, entries[j], p);
    }
  }

  /** Every packet sent has this content, at the right quality of service. */
  ghost predicate Carry(level: Level, entries: seq<Entry>, sent: seq<Option<Event>>, topic: string, payload: Bytes,
                        published: nat) {
    && |sent| == |entries|
    && forall j :: 0 <= j < |sent| && sent[j].Some? ==>
         && sent[j].value.Sent? && sent[j].value.session == entries[j].session
         && sent[j].value.packet.Publish?
         && sent[j].value.packet.topic == topic && sent[j].value.packet.payload == payload
         && RightQos(level, entries[j], published, sent[j].value.packet.qos)
  }

  lemma {:induction false} ServedCarry(level: Level, entries: seq<Entry>, sent: seq<Option<Event>>, p: Publication)
    requires p.pub.Publish? && EachServed(level, entries, sent, p)
    ensures Carry(level, entries, sent, p.pub.topic, p.pub.payload, p.pub.qos)
  {
    forall j | 0 <= j < |sent| && sent[j].Some? ensures RightPacket(level, entries[j], sent[j].value, p) {
      ServedRightly(level, entries, sent, p, j);
    }
  }

  // --------------------------------------------------------------- one after another

  lemma {:induction false} FannedOutMore(level: Level, before: State, mid: State, after: State, entries: seq<Entry>,
                                         i: nat, sent: seq<Option<Event>>, s: Option<Event>, p: Publication,
                                         cfg: Config)
    requires p.pub.Publish? && i < |entries|
    requires FannedOut(level, before, mid, entries[..i], sent, p, cfg)
    requires FannedOut(level, mid, after, [entries[i]], [s], p, cfg)
    ensures FannedOut(level, before, after, entries[..i + 1], sent + [s], p, cfg)
  {
    var served := entries[..i + 1];
    forall c ensures Grown(level, before, after, served, p, c) {
      GrownMore(level, before, mid, after, entries, i, p, c);
    }
    ServedMore(level, entries, i, sent, s, p);
    SkippedMore(level, mid, after, entries, i, sent, s, p);
    StepsMore(before, mid, after, sent, s, cfg);
  }

  lemma {:induction false} GrownMore(level: Level, before: State, mid: State, after: State, entries: seq<Entry>,
                                     i: nat, p: Publication, c: string)
    requires p.pub.Publish? && i < |entries|
    requires Grown(level, before, mid, entries[..i], p, c) && Grown(level, mid, after, [entries[i]], p, c)
    ensures Grown(level, before, after, entries[..i + 1], p, c)
  {
    WantedMore(level, entries, i, p, c);
  }

  lemma {:induction false} StepsMore(before: State, mid: State, after: State, sent: seq<Option<Event>>,
                                     s: Option<Event>, cfg: Config)
    requires mid.log == before.log + Somes(sent) && mid == Exec(before, StepsFor(sent), cfg)
    requires after.log == mid.log + Somes([s]) && after == Exec(mid, StepsFor([s]), cfg)
    ensures after.log == before.log + Somes(sent + [s]) && after == Exec(before, StepsFor(sent + [s]), cfg)
  {
    SomesConcat(sent, s, before.log);
    StepsConcat(sent, s);
    ExecConcat(before, StepsFor(sent), StepsFor([s]), cfg);
  }

  lemma {:induction false} ServedMore(level: Level, entries: seq<Entry>, i: nat, sent: seq<Option<Event>>,
                                      s: Option<Event>, p: Publication)
    requires p.pub.Publish? && i < |entries|
    requires EachServed(level, entries[..i], sent, p)
    requires EachServed(level, [entries[i]], [s], p)
    ensures EachServed(level, entries[..i + 1], sent + [s], p)
  {
    assert DeliveredTo(level, [entries[i]][0], [s][0], p);
    forall j | 0 <= j < i ensures DeliveredTo(level, entries[j], sent[j], p) {
      assert entries[..i][j] == entries[j];
    }
  }

  /** A client that is full stays full. */
  lemma {:induction false} SkippedMore(level: Level, mid: State, after: State, entries: seq<Entry>, i: nat,
                                       sent: seq<Option<Event>>, s: Option<Event>, p: Publication)
    requires p.pub.Publish? && i < |entries| && |sent| == i
    requires SkippedOnlyWhenFull(level, mid, entries[..i], sent, p)
    requires SkippedOnlyWhenFull(level, after, [entries[i]], [s], p)
    requires forall c :: Grown(level, mid, after, [entries[i]], p, c)
    ensures SkippedOnlyWhenFull(level, after, entries[..i + 1], sent + [s], p)
  {
    var served, sent' := entries[..i + 1], sent + [s];
    forall j | 0 <= j <= i && sent'[j] == None && Wants(level, served[j], p)
      ensures Full(after, p.clientOf(served[j].session))
    {
      if j < i {
        assert entries[..i][j] == served[j];
        assert Full(mid, p.clientOf(served[j].session));
        assert Grown(level, mid, after, [entries[i]], p, p.clientOf(served[j].session));
      } else {
        assert [entries[i]][0] == served[j] && [s][0] == sent'[j];
      }
    }
  }

  lemma {:induction false} SomesConcat<T>(sent: seq<Option<T>>, s: Option<T>, log: seq<T>)
    ensures log + Somes(sent) + Somes([s]) == log + Somes(sent + [s])
  {
    SomesMore(sent, s);
    SomesMore([], s);
    assert [] + [s] == [s];
  }

  lemma {:induction false} StepsConcat(sent: seq<Option<Event>>, s: Option<Event>)
    ensures StepsFor(sent + [s]) == StepsFor(sent) + StepsFor([s])
  {
    assert (sent + [s])[..|sent|] == sent;
    SentOne(s);
  }

  /** A fan-out to one subscriber, from its parts. */
  lemma {:induction false} ServedOne(level: Level, st: State, after: State, entry: Entry, s: Option<Event>,
                                     p: Publication, cfg: Config)
    requires p.pub.Publish? && DeliveredTo(level, entry, s, p)
    requires s == None && Wants(level, entry, p) ==> Full(after, p.clientOf(entry.session))
    requires after.log == st.log + (if s.Some? then [s.value] else [])
    requires after == Exec(st, StepFor(s), cfg)
    requires forall c :: Grown(level, st, after, [entry], p, c)
    ensures FannedOut(level, st, after, [entry], [s], p, cfg)
  {
    SentOne(s);
    assert EachServed(level, [entry], [s], p);
    assert SkippedOnlyWhenFull(level, after, [entry], [s], p);
  }

  lemma {:induction false} SentOne(s: Option<Event>)
    ensures Somes([s]) == if s.Some? then [s.value] else []
    ensures StepsFor([s]) == StepFor(s)
  {
    assert [s][..0] == [];
  }

  /** One subscriber, when nothing, an untracked packet or a tracked copy is sent. */
  lemma {:induction false} SkippedOne(level: Level, st: State, entry: Entry, p: Publication, cfg: Config)
    requires p.pub.Publish? && forall c :: |Pids(st.flat, c)| <= ID_COUNT
    requires Wants(level, entry, p) ==> Full(st, p.clientOf(entry.session))
    requires entry.session in p.expired || IsTracked(level, entry, p.pub)
    ensures FannedOut(level, st, st, [entry], [None], p, cfg)
  {
    assert st.log == st.log + [];
    var one := [entry];
    forall c ensures Grown(level, st, st, one, p, c) {
      WantedOne(level, entry, p, c);
    }
    ServedOne(level, st, st, entry, None, p, cfg);
  }

  lemma {:induction false} PlainOne(level: Level, st: State, entry: Entry, p: Publication, cfg: Config)
    requires p.pub.Publish? && forall c :: |Pids(st.flat, c)| <= ID_COUNT
    requires entry.session !in p.expired && !IsTracked(level, entry, p.pub)
    ensures var client, packet := p.clientOf(entry.session), PlainPublish(level, entry, p.pub);
            FannedOut(level, st, Apply(st, Plain(client, entry.session, packet), cfg), [entry],
                      [Some(Sent(client, entry.session, packet, None))], p, cfg)
  {
    var client, packet := p.clientOf(entry.session), PlainPublish(level, entry, p.pub);
    var after := Apply(st, Plain(client, entry.session, packet), cfg);
    ExecOne(st, Plain(client, entry.session, packet), cfg);
    var one := [entry];
    forall c ensures Grown(level, st, after, one, p, c) {
      WantedOne(level, entry, p, c);
    }
    ServedOne(level, st, after, entry, Some(Sent(client, entry.session, packet, None)), p, cfg);
  }

  lemma {:induction false} CopiedOne(level: Level, st: State, entry: Entry, pid: nat, p: Publication, cfg: Config)
    requires p.pub.Publish? && forall c :: |Pids(st.flat, c)| <= ID_COUNT
    requires Wants(level, entry, p) && !Full(st, p.clientOf(entry.session))
    requires (p.clientOf(entry.session), pid) !in st.flat && 1 <= pid <= ID_COUNT
    ensures var client, packet := p.clientOf(entry.session), FirstPublish(level, p.pub, pid);
            FannedOut(level, st, Apply(st, Copy(client, entry.session, packet), cfg), [entry],
                      [Some(Sent(client, entry.session, packet, Some(st.serials)))], p, cfg)
  {
    var client, packet := p.clientOf(entry.session), FirstPublish(level, p.pub, pid);
    var after := Apply(st, Copy(client, entry.session, packet), cfg);
    ExecOne(st, Copy(client, entry.session, packet), cfg);
    var one := [entry];
    forall c ensures Grown(level, st, after, one, p, c) {
      WantedOne(level, entry, p, c);
      PidsAfterCopy(st.flat, (client, pid), Tracked(st.serials, entry.session, packet, PublishSent, 0), c);
    }
    ServedOne(level, st, after, entry, Some(Sent(client, entry.session, packet, Some(st.serials))), p, cfg);
  }

  lemma {:induction false} WantedMore(level: Level, entries: seq<Entry>, i: nat, p: Publication, c: string)
    requires p.pub.Publish? && i < |entries|
    ensures Wanted(level, entries[..i + 1], p, c)
         == Wanted(level, entries[..i], p, c) + Wanted(level, [entries[i]], p, c)
  {
    assert entries[..i + 1][..i] == entries[..i];
    assert [entries[i]][..0] == [];
  }

  lemma {:induction false} WantedOne(level: Level, entry: Entry, p: Publication, c: string)
    requires p.pub.Publish?
    ensures Wanted(level, [entry], p, c) == One(Wants(level, entry, p) && p.clientOf(entry.session) == c)
  {
    assert [entry][..0] == [];
  }

  lemma {:induction false} ExecOne(st: State, step: Step, cfg: Config)
    ensures Exec(st, [step], cfg) == Apply(st, step, cfg)
  {
    assert [step][..0] == [];
  }
}
