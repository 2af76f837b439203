/** The in-flight messages of a QoS handler as a flat state machine: every
    locked section of src/qos/qos1.cpp and src/qos/qos2.cpp is one step, and a
    log records the calls of `session->deliver` in order. The handlers, with
    their nested tables and identifier pools, refine it. */
module InFlight {
  import opened Wrappers
  import opened Octets

  datatype Packet =
    | Publish(topic: string, payload: Bytes, qos: nat, retain: bool, dup: bool, pid: nat)
    | Pubrel(pid: nat)

  datatype Phase = PublishSent | PubrecReceived

  /** `serial` numbers the tracked messages of a run; no wire field carries it. */
  datatype Tracked = Tracked(serial: nat, session: nat, publish: Packet, phase: Phase, retries: int)

  datatype Event =
    | Sent(client: string, session: nat, packet: Packet, tag: Option<nat>)
    | GotPubrec(client: string, pid: nat, serial: nat)

  /** One call of `session->deliver`. */
  datatype Delivery = Delivery(client: string, session: nat, packet: Packet)

  /** The calls that a log records. */
  function Deliveries(log: seq<Event>): seq<Delivery> {
    if log == [] then [] else Deliveries(log[..|log| - 1]) + DeliveryOf(log[|log| - 1])
  }

  function DeliveryOf(e: Event): seq<Delivery> {
    if e.Sent? then [Delivery(e.client, e.session, e.packet)] else []
  }

  /** A client identifier and a packet identifier. */
  type Key = (string, nat)

  datatype State = State(flat: map<Key, Tracked>, log: seq<Event>, serials: nat)

  const INITIAL := State(map[], [], 0)

  datatype Config = Config(maxRetries: int, dupOnRetry: bool)

  /** `Remove` is PUBACK, PUBCOMP or an unmatched PUBREL; `up` says whether the
      session is connected at that moment. */
  datatype Step =
    | Copy(client: string, session: nat, publish: Packet)
    | Plain(client: string, session: nat, publish: Packet)
    | Remove(client: string, pid: nat)
    | Pubrec(client: string, pid: nat, up: bool)
    | Tick(client: string, pid: nat, up: bool)

  predicate Accepted(st: State, step: Step) {
    match step
    case Copy(c, s, pub) => pub.Publish? && (c, pub.pid) !in st.flat
    case Plain(c, s, pub) => pub.Publish? && pub.qos < 2
    case _ => (step.client, step.pid) in st.flat
  }

  function Resend(t: Tracked, pid: nat, cfg: Config): Packet {
    if t.phase == PublishSent && t.publish.Publish? then t.publish.(dup := t.publish.dup || cfg.dupOnRetry)
    else Pubrel(pid)
  }

  function FlatAfter(st: State, step: Step, cfg: Config): map<Key, Tracked>
    requires Accepted(st, step)
  {
    match step
    case Copy(c, s, pub) => st.flat[(c, pub.pid) := Tracked(st.serials, s, pub, PublishSent, 0)]
    case Plain(c, s, pub) => st.flat
    case Remove(c, i) => st.flat - {(c, i)}
    case Pubrec(c, i, up) => st.flat[(c, i) := st.flat[(c, i)].(phase := PubrecReceived, retries := 0)]
    case Tick(c, i, up) =>
      var t := st.flat[(c, i)];
      if t.retries >= cfg.maxRetries then st.flat - {(c, i)}
      else st.flat[(c, i) := t.(retries := t.retries + 1)]
  }

  function Emitted(st: State, step: Step, cfg: Config): seq<Event>
    requires Accepted(st, step)
  {
    match step
    case Copy(c, s, pub) => [Sent(c, s, pub, Some(st.serials))]
    case Plain(c, s, pub) => [Sent(c, s, pub, None)]
    case Remove(c, i) => []
    case Pubrec(c, i, up) =>
      var t := st.flat[(c, i)];
      if up then [GotPubrec(c, i, t.serial), Sent(c, t.session, Pubrel(i), Some(t.serial))]
      else [GotPubrec(c, i, t.serial)]
    case Tick(c, i, up) =>
      var t := st.flat[(c, i)];
      if t.retries < cfg.maxRetries && up then [Sent(c, t.session, Resend(t, i, cfg), Some(t.serial))] else []
  }

  /** One step; a step that finds nothing to act on changes nothing. */
  function Apply(st: State, step: Step, cfg: Config): State {
    if !Accepted(st, step) then st
    else State(FlatAfter(st, step, cfg), st.log + Emitted(st, step, cfg),
               st.serials + One(step.Copy?))
  }

  function Exec(st: State, steps: seq<Step>, cfg: Config): State {
    if steps == [] then st
    else Apply(Exec(st, steps[..|steps| - 1], cfg), steps[|steps| - 1], cfg)
  }

  function Run(steps: seq<Step>, cfg: Config): State {
    Exec(INITIAL, steps, cfg)
  }

  /** The state has come about by this history of steps. The quantifier stands
      for `trace` alone; it keeps the verifier from unrolling the run wherever
      the predicate is mentioned. */
  ghost predicate Reached(st: State, trace: seq<Step>, cfg: Config) {
    forall past {:trigger Run(past, cfg)} :: past == trace ==> st == Run(past, cfg)
  }

  lemma {:induction false} ReachedIff(st: State, trace: seq<Step>, cfg: Config)
    ensures Reached(st, trace, cfg) <==> st == Run(trace, cfg)
  {}

  lemma {:induction false} ReachedMore(st: State, trace: seq<Step>, step: Step, cfg: Config)
    requires Reached(st, trace, cfg)
    ensures Reached(Apply(st, step, cfg), trace + [step], cfg)
  {
    assert (trace + [step])[..|trace|] == trace;
    assert Run(trace, cfg) == st;
    assert Run(trace + [step], cfg) == Apply(st, step, cfg);
  }

  lemma {:induction false} ExecConcat(st: State, a: seq<Step>, b: seq<Step>, cfg: Config)
    ensures Exec(st, a + b, cfg) == Exec(Exec(st, a, cfg), b, cfg)
    decreases |b|
  {
    if b == [] {
      assert a + b == a;
    } else {
      assert (a + b)[..|a + b| - 1] == a + b[..|b| - 1];
      ExecConcat(st, a, b[..|b| - 1], cfg);
    }
  }

  function Limit(cfg: Config): nat {
    if cfg.maxRetries < 0 then 0 else cfg.maxRetries
  }

  /** The calls among the events of one step, which are at most two. */
  function CallsOf(es: seq<Event>): seq<Delivery> {
    (if |es| > 0 then DeliveryOf(es[0]) else []) + (if |es| > 1 then DeliveryOf(es[1]) else [])
  }

  function Calls(st: State, step: Step, cfg: Config): seq<Delivery> {
    if Accepted(st, step) then CallsOf(Emitted(st, step, cfg)) else []
  }

  lemma {:induction false} CallsRecorded(st: State, step: Step, cfg: Config)
    ensures Deliveries(Apply(st, step, cfg).log) == Deliveries(st.log) + Calls(st, step, cfg)
  {
    if Accepted(st, step) {
      DeliveriesMore(st.log, Emitted(st, step, cfg));
    }
  }

  lemma {:induction false} DeliveriesMore(log: seq<Event>, es: seq<Event>)
    requires |es| <= 2
    ensures Deliveries(log + es) == Deliveries(log) + CallsOf(es)
  {
    if |es| == 0 {
      assert log + es == log;
    } else {
      assert (log + [es[0]])[..|log|] == log;
      if |es| == 1 {
        assert es == [es[0]];
      } else {
        assert log + es == log + [es[0]] + [es[1]];
        assert (log + es)[..|log| + 1] == log + [es[0]];
      }
    }
  }

  // ------------------------------------------------------------ basic invariant

  ghost predicate Sound(st: State, cfg: Config) {
    && (forall k :: k in st.flat ==> TrackedOk(st.flat[k], k, st.serials, cfg))
    && (forall k, l :: k in st.flat && l in st.flat && st.flat[k].serial == st.flat[l].serial ==> k == l)
  }

  predicate TrackedOk(t: Tracked, k: Key, serials: nat, cfg: Config) {
    && t.publish.Publish? && t.publish.pid == k.1
    && t.serial < serials
    && 0 <= t.retries <= Limit(cfg)
  }

  lemma SoundStep(st: State, step: Step, cfg: Config)
    requires Sound(st, cfg)
    ensures Sound(Apply(st, step, cfg), cfg)
  {}

  lemma {:induction false} SoundRun(steps: seq<Step>, cfg: Config)
    ensures Sound(Run(steps, cfg), cfg)
    decreases |steps|
  {
    if steps != [] {
      SoundRun(steps[..|steps| - 1], cfg);
      SoundStep(Run(steps[..|steps| - 1], cfg), steps[|steps| - 1], cfg);
    }
  }

  // --------------------------------------------------------------- retry bounds

  datatype Kind = PublishSend | PubrelSend | PubrecReceipt

  predicate Is(e: Event, kind: Kind, serial: nat) {
    match kind
    case PublishSend => e.Sent? && e.packet.Publish? && e.tag == Some(serial)
    case PubrelSend => e.Sent? && e.packet.Pubrel? && e.tag == Some(serial)
    case PubrecReceipt => e.GotPubrec? && e.serial == serial
  }

  function Count(log: seq<Event>, kind: Kind, serial: nat): nat {
    if log == [] then 0
    else Count(log[..|log| - 1], kind, serial) + if Is(log[|log| - 1], kind, serial) then 1 else 0
  }

  lemma {:induction false} CountOneMore(log: seq<Event>, e: Event, kind: Kind, serial: nat)
    ensures Count(log + [e], kind, serial) == Count(log, kind, serial) + if Is(e, kind, serial) then 1 else 0
  {
    assert (log + [e])[..|log|] == log;
  }

  function One(b: bool): nat {
    if b then 1 else 0
  }

  /** A step emits at most two events. */
  function Hits(es: seq<Event>, kind: Kind, serial: nat): nat {
    One(|es| > 0 && Is(es[0], kind, serial)) + One(|es| > 1 && Is(es[1], kind, serial))
  }

  lemma {:induction false} CountEmitted(log: seq<Event>, es: seq<Event>, kind: Kind, serial: nat)
    requires |es| <= 2
    ensures Count(log + es, kind, serial) == Count(log, kind, serial) + Hits(es, kind, serial)
  {
    if |es| == 0 {
      assert log + es == log;
    } else {
      CountOneMore(log, es[0], kind, serial);
      if |es| == 1 {
        assert es == [es[0]];
      } else {
        CountOneMore(log + [es[0]], es[1], kind, serial);
        assert log + es == log + [es[0]] + [es[1]];
      }
    }
  }

  ghost predicate Bounded(st: State, cfg: Config, m: nat) {
    BoundedBy(st.flat, st.serials, cfg, m,
              Count(st.log, PublishSend, m), Count(st.log, PubrelSend, m), Count(st.log, PubrecReceipt, m))
  }

  /** Sends of message `m` so far, against its retry counter while it is tracked. */
  ghost predicate BoundedBy(flat: map<Key, Tracked>, serials: nat, cfg: Config, m: nat, pub: nat, rel: nat, rec: nat) {
    && (m >= serials ==> pub == rel == rec == 0)
    && pub <= 1 + Limit(cfg)
    && rel <= (1 + Limit(cfg)) * rec
    && (forall k :: k in flat && flat[k].serial == m ==> Spent(flat[k], pub, rel, rec, cfg))
  }

  predicate Spent(t: Tracked, pub: nat, rel: nat, rec: nat, cfg: Config) {
    if t.phase == PublishSent then pub <= 1 + t.retries
    else rel + (Limit(cfg) - t.retries) <= (1 + Limit(cfg)) * rec
  }

  lemma {:induction false} BoundedStep(st: State, step: Step, cfg: Config, m: nat)
    requires Sound(st, cfg) && Bounded(st, cfg, m)
    ensures Bounded(Apply(st, step, cfg), cfg, m)
  {
    if Accepted(st, step) {
      BoundedFrom(st, step, cfg, m, Count(st.log, PublishSend, m), Count(st.log, PubrelSend, m),
                  Count(st.log, PubrecReceipt, m));
      BoundedLog(st.log, Emitted(st, step, cfg), FlatAfter(st, step, cfg), st.serials + One(step.Copy?), cfg, m);
    }
  }

  lemma {:induction false} BoundedLog(log: seq<Event>, es: seq<Event>, flat: map<Key, Tracked>, serials: nat,
                                      cfg: Config, m: nat)
    requires |es| <= 2
    requires BoundedBy(flat, serials, cfg, m,
                       Count(log, PublishSend, m) + Hits(es, PublishSend, m),
                       Count(log, PubrelSend, m) + Hits(es, PubrelSend, m),
                       Count(log, PubrecReceipt, m) + Hits(es, PubrecReceipt, m))
    ensures Bounded(State(flat, log + es, serials), cfg, m)
  {
    CountEmitted(log, es, PublishSend, m);
    CountEmitted(log, es, PubrelSend, m);
    CountEmitted(log, es, PubrecReceipt, m);
  }

  /** The step on the counters alone. */
  lemma {:induction false} BoundedFrom(st: State, step: Step, cfg: Config, m: nat, pub: nat, rel: nat, rec: nat)
    requires Sound(st, cfg) && Accepted(st, step)
    requires BoundedBy(st.flat, st.serials, cfg, m, pub, rel, rec)
    ensures var es := Emitted(st, step, cfg);
            BoundedBy(FlatAfter(st, step, cfg), st.serials + One(step.Copy?), cfg, m,
                      pub + Hits(es, PublishSend, m), rel + Hits(es, PubrelSend, m), rec + Hits(es, PubrecReceipt, m))
  {
    assert (1 + Limit(cfg)) * (rec + 1) == (1 + Limit(cfg)) * rec + 1 + Limit(cfg);
    match step {
      case Copy(c, s, p) =>
      case Plain(c, s, p) =>
      case Remove(c, i) =>
      case Pubrec(c, i, up) => assert TrackedOk(st.flat[(c, i)], (c, i), st.serials, cfg);
      case Tick(c, i, up) => assert TrackedOk(st.flat[(c, i)], (c, i), st.serials, cfg);
    }
  }

  lemma {:induction false} BoundedRun(steps: seq<Step>, cfg: Config, m: nat)
    ensures Bounded(Run(steps, cfg), cfg, m)
    decreases |steps|
  {
    if steps != [] {
      var init := steps[..|steps| - 1];
      BoundedRun(init, cfg, m);
      SoundRun(init, cfg);
      BoundedStep(Run(init, cfg), steps[|steps| - 1], cfg, m);
    }
  }

  /** In every run a message is published at most 1 + max_retry_count times and
      released at most that often per PUBREC received for it. */
  lemma RetriesAreBounded(steps: seq<Step>, cfg: Config, m: nat)
    ensures Count(Run(steps, cfg).log, PublishSend, m) <= 1 + Limit(cfg)
    ensures Count(Run(steps, cfg).log, PubrelSend, m)
         <= (1 + Limit(cfg)) * Count(Run(steps, cfg).log, PubrecReceipt, m)
  {
    BoundedRun(steps, cfg, m);
  }

  // -------------------------------------------------------------- giving up

  predicate Concerns(step: Step, c: string, i: nat) {
    (step.Remove? || step.Pubrec? || step.Tick?) && step.client == c && step.pid == i
  }

  function Ticks(steps: seq<Step>, c: string, i: nat): nat {
    if steps == [] then 0
    else Ticks(steps[..|steps| - 1], c, i) + One(steps[|steps| - 1].Tick? && Concerns(steps[|steps| - 1], c, i))
  }

  ghost predicate Tracks(st: State, c: string, i: nat, m: nat) {
    (c, i) in st.flat && st.flat[(c, i)].serial == m
  }

  /** Without an acknowledgement, a message stays through max_retry_count ticks of
      its timer and is gone after one more, whatever else happens meanwhile. */
  lemma {:induction false} GivesUp(st: State, steps: seq<Step>, cfg: Config, c: string, i: nat, m: nat)
    requires Sound(st, cfg) && Tracks(st, c, i, m)
    requires forall j :: 0 <= j < |steps| && Concerns(steps[j], c, i) ==> steps[j].Tick?
    ensures var end := Exec(st, steps, cfg);
            && Sound(end, cfg) && end.serials >= st.serials
            && (Tracks(end, c, i, m) ==> end.flat[(c, i)].retries == st.flat[(c, i)].retries + Ticks(steps, c, i))
            && (Tracks(end, c, i, m) <==> st.flat[(c, i)].retries + Ticks(steps, c, i) <= Limit(cfg))
    decreases |steps|
  {
    if steps != [] {
      var init, step := steps[..|steps| - 1], steps[|steps| - 1];
      assert forall j :: 0 <= j < |init| ==> init[j] == steps[j];
      GivesUp(st, init, cfg, c, i, m);
      var mid := Exec(st, init, cfg);
      SoundStep(mid, step, cfg);
      if Tracks(Apply(mid, step, cfg), c, i, m) {
        TrackedBackward(mid, step, cfg, c, i, m);
      } else if Tracks(mid, c, i, m) {
        TrackedForward(mid, step, cfg, c, i, m);
      }
    }
  }

  /** PUBREC starts the count afresh. */
  lemma {:induction false} PubrecRestarts(st: State, steps: seq<Step>, cfg: Config, c: string, i: nat, m: nat, up: bool)
    requires Sound(st, cfg) && Tracks(st, c, i, m)
    requires forall j :: 0 <= j < |steps| && Concerns(steps[j], c, i) ==> steps[j].Tick?
    ensures Tracks(Exec(Apply(st, Pubrec(c, i, up), cfg), steps, cfg), c, i, m) <==> Ticks(steps, c, i) <= Limit(cfg)
  {
    SoundStep(st, Pubrec(c, i, up), cfg);
    GivesUp(Apply(st, Pubrec(c, i, up), cfg), steps, cfg, c, i, m);
  }

  /** Only a tick that finds the limit reached takes it away. */
  lemma TrackedForward(st: State, step: Step, cfg: Config, c: string, i: nat, m: nat)
    requires Sound(st, cfg) && Tracks(st, c, i, m) && !Tracks(Apply(st, step, cfg), c, i, m)
    requires Concerns(step, c, i) ==> step.Tick?
    ensures step.Tick? && Concerns(step, c, i) && st.flat[(c, i)].retries >= cfg.maxRetries
  {}

  /** A message tracked after a step, other than a new one, was tracked before. */
  lemma TrackedBackward(st: State, step: Step, cfg: Config, c: string, i: nat, m: nat)
    requires Sound(st, cfg) && m < st.serials && Tracks(Apply(st, step, cfg), c, i, m)
    ensures Tracks(st, c, i, m)
    ensures !Concerns(step, c, i) ==> Apply(st, step, cfg).flat[(c, i)] == st.flat[(c, i)]
  {}
}
