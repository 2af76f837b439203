/** When QoS 2 delivery is exactly once. The broker may forget a message before
    it has sent PUBREL for it (retry exhaustion, an early PUBCOMP, an unmatched
    PUBREL, or no connection while PUBREC arrives). The receiver then still
    holds the identifier, and the next message under it is lost, however much
    happens in between. `AcceptedAre` says that nothing else is lost and nothing
    is repeated, in every run. */
module ExactlyOnce {
  import opened Wrappers
  import opened InFlight
  import opened AtMostOnce

  /** Messages for which PUBREL has been sent. */
  function Released(log: seq<Event>): set<nat> {
    if log == [] then {} else Released(log[..|log| - 1]) + ReleasedBy(log[|log| - 1])
  }

  function ReleasedBy(e: Event): set<nat> {
    if e.Sent? && e.packet.Pubrel? && e.tag.Some? then {e.tag.value} else {}
  }

  /** Messages in the order in which they were first sent to a client. */
  function Originals(log: seq<Event>, client: string): seq<nat> {
    if log == [] then [] else Originals(log[..|log| - 1], client) + OriginalOf(log[|log| - 1], client)
  }

  function OriginalOf(e: Event, client: string): seq<nat> {
    if e.Sent? && e.client == client && e.packet.Publish? && !e.packet.dup && e.packet.qos == 2 && e.tag.Some?
    then [e.tag.value] else []
  }

  function ReleasedByAll(es: seq<Event>): set<nat> {
    (if |es| > 0 then ReleasedBy(es[0]) else {}) + (if |es| > 1 then ReleasedBy(es[1]) else {})
  }

  function OriginalsOfAll(es: seq<Event>, client: string): seq<nat> {
    (if |es| > 0 then OriginalOf(es[0], client) else []) + (if |es| > 1 then OriginalOf(es[1], client) else [])
  }

  lemma {:induction false} LogMore(log: seq<Event>, es: seq<Event>, client: string)
    requires |es| <= 2
    ensures Released(log + es) == Released(log) + ReleasedByAll(es)
    ensures Originals(log + es, client) == Originals(log, client) + OriginalsOfAll(es, client)
  {
    if |es| == 0 {
      assert log + es == log;
    } else {
      assert (log + [es[0]])[..|log|] == log;
      if |es| == 1 {
        assert es == [es[0]];
      } else {
        assert log + es == log + [es[0]] + [es[1]];
        assert (log + es)[..|log| + 1] == log + [es[0]];
      }
    }
  }

  /** The message is being forgotten by this step. */
  predicate Forgets(st: State, step: Step, cfg: Config) {
    && Accepted(st, step)
    && (step.Remove? || (step.Tick? && st.flat[(step.client, step.pid)].retries >= cfg.maxRetries))
  }

  /** Steps of the QoS 2 handler: copies are first sent with DUP clear. */
  predicate Qos2Step(step: Step) {
    step.Copy? && step.publish.Publish? ==> step.publish.qos == 2 && !step.publish.dup
  }

  predicate Qos2Run(steps: seq<Step>, cfg: Config) {
    cfg.dupOnRetry && forall j :: 0 <= j < |steps| ==> Qos2Step(steps[j])
  }

  /** The keys whose last message was forgotten with no PUBREL sent for it. A new
      message under such a key takes it out again. */
  function Stale(steps: seq<Step>, cfg: Config): set<Key> {
    if steps == [] then {}
    else
      var init := steps[..|steps| - 1];
      var st := Run(init, cfg);
      StaleAfter(Stale(init, cfg), st, Released(st.log), steps[|steps| - 1], cfg)
  }

  function StaleAfter(stale: set<Key>, st: State, released: set<nat>, step: Step, cfg: Config): set<Key> {
    if !Accepted(st, step) then stale
    else if step.Copy? then stale - {(step.client, step.publish.pid)}
    else if Forgets(st, step, cfg) && st.flat[(step.client, step.pid)].serial !in released
      then stale + {(step.client, step.pid)}
    else stale
  }

  predicate CopyTo(st: State, step: Step, client: string) {
    step.Copy? && step.client == client && Accepted(st, step)
  }

  /** Some message to the client is sent under a stale identifier. */
  predicate Reuses(steps: seq<Step>, cfg: Config, client: string) {
    steps != []
    && var init, step := steps[..|steps| - 1], steps[|steps| - 1];
       || Reuses(init, cfg, client)
       || (CopyTo(Run(init, cfg), step, client) && (client, step.publish.pid) in Stale(init, cfg))
  }

  /** The messages sent to the client under identifiers that were not stale. */
  function Survivors(steps: seq<Step>, cfg: Config, client: string): seq<nat> {
    if steps == [] then []
    else
      var init := steps[..|steps| - 1];
      Survivors(init, cfg, client) + Survivor(Run(init, cfg), Stale(init, cfg), steps[|steps| - 1], client)
  }

  function Survivor(st: State, stale: set<Key>, step: Step, client: string): seq<nat> {
    if CopyTo(st, step, client) && (client, step.publish.pid) !in stale then [st.serials] else []
  }

  /** The receiver holds the identifiers of unreleased messages and the stale ones. */
  ghost predicate Exact(flat: map<Key, Tracked>, serials: nat, released: set<nat>, stale: set<Key>,
                        held: set<nat>, client: string) {
    && (forall m :: m in released ==> m < serials)
    && (forall k :: k in flat ==> UnreleasedOk(flat[k], serials, released) && k !in stale)
    && (forall i :: i in held <==> HeldFor(flat, released, stale, (client, i)))
  }

  predicate UnreleasedOk(t: Tracked, serials: nat, released: set<nat>) {
    && t.publish.Publish? && t.publish.qos == 2 && t.serial < serials
    && (t.phase == PublishSent ==> t.serial !in released)
  }

  predicate HeldFor(flat: map<Key, Tracked>, released: set<nat>, stale: set<Key>, k: Key) {
    (k in flat && flat[k].serial !in released) || k in stale
  }

  ghost predicate StepExact(st: State, step: Step, cfg: Config, released: set<nat>, stale: set<Key>,
                            r: Receiver, client: string)
    requires Accepted(st, step)
  {
    var es := Emitted(st, step, cfg);
    var next := TakeAll(r, es, client);
    && Exact(FlatAfter(st, step, cfg), st.serials + One(step.Copy?), released + ReleasedByAll(es),
             StaleAfter(stale, st, released, step, cfg), next.held, client)
    && next.accepted == r.accepted + Survivor(st, stale, step, client)
  }

  lemma {:induction false} CopyExact(st: State, c: string, s: nat, p: Packet, cfg: Config, released: set<nat>,
                                     stale: set<Key>, r: Receiver, client: string)
    requires Accepted(st, Copy(c, s, p)) && Qos2Step(Copy(c, s, p))
    requires Exact(st.flat, st.serials, released, stale, r.held, client)
    ensures StepExact(st, Copy(c, s, p), cfg, released, stale, r, client)
  {
    assert !HeldFor(st.flat, released, stale, (c, p.pid)) || (c, p.pid) in stale;
  }

  lemma {:induction false} ForgetExact(st: State, step: Step, cfg: Config, released: set<nat>, stale: set<Key>,
                                       r: Receiver, client: string)
    requires Forgets(st, step, cfg)
    requires Exact(st.flat, st.serials, released, stale, r.held, client)
    ensures StepExact(st, step, cfg, released, stale, r, client)
  {
    var k := (step.client, step.pid);
    assert UnreleasedOk(st.flat[k], st.serials, released);
    assert Emitted(st, step, cfg) == [];
    assert FlatAfter(st, step, cfg) == st.flat - {k};
    assert released + {} == released;
  }

  /** A message that moves on without a PUBREL being sent. */
  lemma {:induction false} SameExact(flat: map<Key, Tracked>, serials: nat, released: set<nat>, stale: set<Key>,
                                     held: set<nat>, client: string, k: Key, t: Tracked)
    requires Exact(flat, serials, released, stale, held, client) && k in flat
    requires t.serial == flat[k].serial && t.publish == flat[k].publish
    requires t.phase == PublishSent ==> flat[k].phase == PublishSent
    ensures Exact(flat[k := t], serials, released, stale, held, client)
  {
    assert UnreleasedOk(flat[k], serials, released);
    forall i ensures i in held <==> HeldFor(flat[k := t], released, stale, (client, i)) {
      assert i in held <==> HeldFor(flat, released, stale, (client, i));
    }
  }

  /** A message for which PUBREL is sent. */
  lemma {:induction false} ReleaseExact(flat: map<Key, Tracked>, serials: nat, released: set<nat>, stale: set<Key>,
                                        held: set<nat>, client: string, k: Key, t: Tracked)
    requires Exact(flat, serials, released, stale, held, client) && k in flat
    requires t.serial == flat[k].serial && t.publish == flat[k].publish && t.phase == PubrecReceived
    requires forall l :: l in flat && flat[l].serial == t.serial ==> l == k
    ensures Exact(flat[k := t], serials, released + {t.serial}, stale,
                  if k.0 == client then held - {k.1} else held, client)
  {
    var flat', released', held' := flat[k := t], released + {t.serial}, if k.0 == client then held - {k.1} else held;
    assert UnreleasedOk(flat[k], serials, released) && k !in stale;
    forall i ensures i in held' <==> HeldFor(flat', released', stale, (client, i)) {
      assert i in held <==> HeldFor(flat, released, stale, (client, i));
    }
    forall l | l in flat' ensures UnreleasedOk(flat'[l], serials, released') && l !in stale {
      assert UnreleasedOk(flat[l], serials, released) && l !in stale;
    }
  }

  /** What the receiver makes of the packets sent when a message moves on. */
  lemma {:induction false} KeepTaken(st: State, step: Step, cfg: Config, r: Receiver, client: string)
    requires Accepted(st, step) && (step.Pubrec? || step.Tick?) && !Forgets(st, step, cfg)
    requires var k := (step.client, step.pid);
             && TrackedOk(st.flat[k], k, st.serials, cfg)
             && (k.0 == client && st.flat[k].phase == PublishSent ==> k.1 in r.held)
    ensures var k, es := (step.client, step.pid), Emitted(st, step, cfg);
            && ReleasedByAll(es) <= {st.flat[k].serial}
            && (ReleasedByAll(es) != {} ==> FlatAfter(st, step, cfg)[k].phase == PubrecReceived)
            && TakeAll(r, es, client)
            == if ReleasedByAll(es) == {} || k.0 != client then r else r.(held := r.held - {k.1})
  {
    match step {
      case Pubrec(c, i, up) =>
        if up { assert st.flat[(c, i)].serial in ReleasedByAll(Emitted(st, step, cfg)); }
      case Tick(c, i, up) =>
        if up && st.flat[(c, i)].phase == PubrecReceived {
          assert st.flat[(c, i)].serial in ReleasedByAll(Emitted(st, step, cfg));
        }
    }
  }

  lemma {:induction false} KeepExact(st: State, step: Step, cfg: Config, released: set<nat>, stale: set<Key>,
                                     r: Receiver, client: string)
    requires Accepted(st, step) && (step.Pubrec? || step.Tick?) && !Forgets(st, step, cfg)
    requires Sound(st, cfg)
    requires Exact(st.flat, st.serials, released, stale, r.held, client)
    ensures StepExact(st, step, cfg, released, stale, r, client)
  {
    var k, es := (step.client, step.pid), Emitted(st, step, cfg);
    var t, flat := st.flat[k], FlatAfter(st, step, cfg);
    assert UnreleasedOk(t, st.serials, released) && TrackedOk(t, k, st.serials, cfg);
    assert k.1 in r.held <==> HeldFor(st.flat, released, stale, (client, k.1));
    KeepTaken(st, step, cfg, r, client);
    assert flat == st.flat[k := flat[k]];
    if ReleasedByAll(es) == {} {
      assert released + {} == released;
      SameExact(st.flat, st.serials, released, stale, r.held, client, k, flat[k]);
    } else {
      assert ReleasedByAll(es) == {t.serial};
      ReleaseExact(st.flat, st.serials, released, stale, r.held, client, k, flat[k]);
    }
  }

  lemma {:induction false} ExactStep(st: State, step: Step, cfg: Config, released: set<nat>, stale: set<Key>,
                                     r: Receiver, client: string)
    requires Sound(st, cfg) && Accepted(st, step) && Qos2Step(step) && cfg.dupOnRetry
    requires Exact(st.flat, st.serials, released, stale, r.held, client)
    ensures StepExact(st, step, cfg, released, stale, r, client)
  {
    if step.Copy? {
      CopyExact(st, step.client, step.session, step.publish, cfg, released, stale, r, client);
    } else if Forgets(st, step, cfg) {
      ForgetExact(st, step, cfg, released, stale, r, client);
    } else if !step.Plain? {
      KeepExact(st, step, cfg, released, stale, r, client);
    }
  }

  lemma {:induction false} ExactRun(steps: seq<Step>, cfg: Config, client: string)
    requires Qos2Run(steps, cfg)
    ensures var st, r := Run(steps, cfg), Receive(Run(steps, cfg).log, client);
            && Exact(st.flat, st.serials, Released(st.log), Stale(steps, cfg), r.held, client)
            && r.accepted == Survivors(steps, cfg, client)
    decreases |steps|
  {
    if steps != [] {
      var init, step := steps[..|steps| - 1], steps[|steps| - 1];
      assert forall j :: 0 <= j < |init| ==> init[j] == steps[j];
      ExactRun(init, cfg, client);
      var st := Run(init, cfg);
      if Accepted(st, step) {
        SoundRun(init, cfg);
        ExactStep(st, step, cfg, Released(st.log), Stale(init, cfg), Receive(st.log, client), client);
        LogMore(st.log, Emitted(st, step, cfg), client);
        ReceiveMore(st.log, Emitted(st, step, cfg), client);
      }
    }
  }

  /** In every run, a client passes on exactly the messages sent to it under
      identifiers that were not stale: each once, in the order of sending. */
  lemma AcceptedAre(steps: seq<Step>, cfg: Config, client: string)
    requires Qos2Run(steps, cfg)
    ensures Receive(Run(steps, cfg).log, client).accepted == Survivors(steps, cfg, client)
    ensures Distinct(Survivors(steps, cfg, client))
  {
    ExactRun(steps, cfg, client);
    AcceptedAtMostOnce(steps, cfg, client);
  }

  /** Only a copy is an original; retries carry DUP. */
  lemma {:induction false} OriginalEmitted(st: State, step: Step, cfg: Config, client: string)
    requires Accepted(st, step) && Qos2Step(step) && cfg.dupOnRetry
    ensures OriginalsOfAll(Emitted(st, step, cfg), client) == if CopyTo(st, step, client) then [st.serials] else []
  {
    match step {
      case Copy(c, s, p) =>
      case Plain(c, s, p) =>
      case Remove(c, i) =>
      case Pubrec(c, i, up) =>
      case Tick(c, i, up) =>
        if st.flat[(c, i)].retries < cfg.maxRetries && up {
          assert OriginalOf(Emitted(st, step, cfg)[0], client) == [];
        }
    }
  }

  lemma {:induction false} OriginalStep(st: State, step: Step, cfg: Config, client: string)
    requires Accepted(st, step) && Qos2Step(step) && cfg.dupOnRetry
    ensures Originals(st.log + Emitted(st, step, cfg), client)
         == Originals(st.log, client) + if CopyTo(st, step, client) then [st.serials] else []
  {
    OriginalEmitted(st, step, cfg, client);
    LogMore(st.log, Emitted(st, step, cfg), client);
  }

  /** Each reuse costs one message. */
  lemma {:induction false} SurvivorsAmong(steps: seq<Step>, cfg: Config, client: string)
    requires Qos2Run(steps, cfg)
    ensures var survivors, originals := Survivors(steps, cfg, client), Originals(Run(steps, cfg).log, client);
            if Reuses(steps, cfg, client) then |survivors| < |originals| else survivors == originals
    decreases |steps|
  {
    if steps != [] {
      var init, step := steps[..|steps| - 1], steps[|steps| - 1];
      assert forall j :: 0 <= j < |init| ==> init[j] == steps[j];
      SurvivorsAmong(init, cfg, client);
      var st := Run(init, cfg);
      assert Run(steps, cfg) == Apply(st, step, cfg);
      if Accepted(st, step) {
        OriginalStep(st, step, cfg, client);
      }
    }
  }

  /** Exactly when delivery is exactly once and in order: no message goes out
      under an identifier whose last message was forgotten unreleased. */
  lemma ExactlyOnceIff(steps: seq<Step>, cfg: Config, client: string)
    requires Qos2Run(steps, cfg)
    ensures var log := Run(steps, cfg).log;
            Receive(log, client).accepted == Originals(log, client) <==> !Reuses(steps, cfg, client)
  {
    ExactRun(steps, cfg, client);
    SurvivorsAmong(steps, cfg, client);
  }

  const LOST := Publish("t", [], 2, false, false, 1)
  const LOSSY_RUN := [Copy("c", 0, LOST), Tick("c", 1, true), Copy("c", 0, LOST)]

  lemma {:induction false} ExecThree(st: State, s1: Step, s2: Step, s3: Step, cfg: Config)
    ensures Exec(st, [s1, s2, s3], cfg) == Apply(Apply(Apply(st, s1, cfg), s2, cfg), s3, cfg)
  {
    assert [s1, s2, s3][..2] == [s1, s2];
    assert [s1, s2][..1] == [s1];
    assert [s1][..0] == [];
    assert Exec(st, [s1], cfg) == Apply(st, s1, cfg);
    assert Exec(st, [s1, s2], cfg) == Apply(Exec(st, [s1], cfg), s2, cfg);
  }

  lemma {:induction false} LossyLog()
    ensures Run(LOSSY_RUN, Config(0, true)).log == [Sent("c", 0, LOST, Some(0)), Sent("c", 0, LOST, Some(1))]
  {
    var cfg := Config(0, true);
    var s1, s2 := Copy("c", 0, LOST), Tick("c", 1, true);
    ExecThree(INITIAL, s1, s2, s1, cfg);
    var a := Apply(INITIAL, s1, cfg);
    assert a.flat == map[("c", 1) := Tracked(0, 0, LOST, PublishSent, 0)];
    assert Forgets(a, s2, cfg);
    assert a.log + [] == a.log;
  }

  /** Such a loss happens: with no retries allowed, one tick forgets the first
      message and the second is never passed on. */
  lemma {:induction false} LossWitness()
    ensures var log := Run(LOSSY_RUN, Config(0, true)).log;
            Originals(log, "c") == [0, 1] && Receive(log, "c").accepted == [0]
  {
    var log := Run(LOSSY_RUN, Config(0, true)).log;
    LossyLog();
    LogMore([], log, "c");
    ReceiveMore([], log, "c");
    assert [] + log == log;
  }
}
