/** QoS 2 delivery over every interleaving of publishing, PUBREC, PUBREL,
    PUBCOMP and retry ticks (src/qos/qos2.cpp:26-166). */
module AtMostOnce {
  import opened Wrappers
  import opened InFlight

  // ------------------------------------------------------------- the receiver

  /** A receiver of section 4.3.3 of MQTT 3.1.1 that takes packets in order:
      the identifiers it holds, and the messages it passed on. */
  datatype Receiver = Receiver(held: set<nat>, accepted: seq<nat>)

  function Take(r: Receiver, e: Event, client: string): Receiver {
    if !e.Sent? || e.client != client then r
    else
      match e.packet
      case Pubrel(pid) => r.(held := r.held - {pid})
      case Publish(_, _, qos, _, _, pid) =>
        if qos != 2 || e.tag == None || pid in r.held then r
        else Receiver(r.held + {pid}, r.accepted + [e.tag.value])
  }

  function Receive(log: seq<Event>, client: string): Receiver {
    if log == [] then Receiver({}, []) else Take(Receive(log[..|log| - 1], client), log[|log| - 1], client)
  }

  function TakeAll(r: Receiver, es: seq<Event>, client: string): Receiver {
    if |es| == 0 then r
    else if |es| == 1 then Take(r, es[0], client)
    else Take(Take(r, es[0], client), es[1], client)
  }

  lemma {:induction false} ReceiveMore(log: seq<Event>, es: seq<Event>, client: string)
    requires |es| <= 2
    ensures Receive(log + es, client) == TakeAll(Receive(log, client), es, client)
  {
    if |es| == 0 {
      assert log + es == log;
    } else {
      assert (log + [es[0]])[..|log|] == log;
      if |es| == 1 {
        assert es == [es[0]];
      } else {
        assert log + es == log + [es[0]] + [es[1]];
        assert (log + es)[..|log| + 1] == log + [es[0]];
      }
    }
  }

  // ------------------------------------------------------------- at most once

  /** Whatever is still being published is held by the receiver, so a repeated
      PUBLISH is never passed on again. */
  ghost predicate Safe(flat: map<Key, Tracked>, serials: nat, r: Receiver, client: string) {
    && Distinct(r.accepted)
    && (forall x :: x in r.accepted ==> x < serials)
    && (forall k :: k in flat && k.0 == client && Unreleased(flat[k]) ==> k.1 in r.held)
  }

  predicate Unreleased(t: Tracked) {
    t.phase == PublishSent && t.publish.Publish? && t.publish.qos == 2
  }

  lemma {:induction false} SafeStep(st: State, step: Step, cfg: Config, r: Receiver, client: string)
    requires Sound(st, cfg) && Accepted(st, step) && Safe(st.flat, st.serials, r, client)
    ensures Safe(FlatAfter(st, step, cfg), st.serials + One(step.Copy?), TakeAll(r, Emitted(st, step, cfg), client),
                 client)
  {
    match step {
      case Copy(c, s, p) =>
        assert st.serials !in r.accepted;
        DistinctConcat(r.accepted, [st.serials]);
      case Plain(c, s, p) =>
      case Remove(c, i) =>
      case Pubrec(c, i, up) =>
      case Tick(c, i, up) => assert TrackedOk(st.flat[(c, i)], (c, i), st.serials, cfg);
    }
  }

  lemma {:induction false} SafeRun(steps: seq<Step>, cfg: Config, client: string)
    ensures var st := Run(steps, cfg); Safe(st.flat, st.serials, Receive(st.log, client), client)
    decreases |steps|
  {
    if steps != [] {
      var init, step := steps[..|steps| - 1], steps[|steps| - 1];
      SafeRun(init, cfg, client);
      var st := Run(init, cfg);
      if Accepted(st, step) {
        SoundRun(init, cfg);
        SafeStep(st, step, cfg, Receive(st.log, client), client);
        ReceiveMore(st.log, Emitted(st, step, cfg), client);
      }
    }
  }

  /** In every run, every client passes each tracked message on at most once. */
  lemma AcceptedAtMostOnce(steps: seq<Step>, cfg: Config, client: string)
    ensures Distinct(Receive(Run(steps, cfg).log, client).accepted)
  {
    SafeRun(steps, cfg, client);
  }

  // --------------------------------------------- no PUBREL between two PUBLISHes

  predicate Releases(e: Event, client: string, pid: nat) {
    e.Sent? && e.client == client && e.packet == Pubrel(pid)
  }

  /** Where the message is published and released, as long as it is tracked. */
  ghost predicate Ordered(flat: map<Key, Tracked>, log: seq<Event>, m: nat) {
    && (forall a, b, c :: 0 <= a < b < c < |log| && Is(log[a], PublishSend, m) && Is(log[c], PublishSend, m) ==>
          !Releases(log[b], log[a].client, log[a].packet.pid))
    && (forall k :: k in flat && flat[k].serial == m ==> OrderedAt(flat[k].phase, k, log, m))
  }

  ghost predicate OrderedAt(phase: Phase, k: Key, log: seq<Event>, m: nat) {
    && (forall a :: 0 <= a < |log| && Is(log[a], PublishSend, m) ==> log[a].client == k.0 && log[a].packet.pid == k.1)
    && (phase == PublishSent ==>
          forall a, b :: 0 <= a < b < |log| && Is(log[a], PublishSend, m) ==> !Releases(log[b], k.0, k.1))
  }

  ghost predicate Unpublished(log: seq<Event>, serials: nat) {
    forall a :: 0 <= a < |log| && log[a].Sent? && log[a].tag.Some? ==> log[a].tag.value < serials
  }

  lemma {:induction false} OrderedFlat(st: State, step: Step, cfg: Config, m: nat)
    requires Sound(st, cfg) && Accepted(st, step) && Unpublished(st.log, st.serials) && Ordered(st.flat, st.log, m)
    ensures Ordered(FlatAfter(st, step, cfg), st.log, m)
  {
    assert forall a :: 0 <= a < |st.log| ==> !Is(st.log[a], PublishSend, st.serials);
  }

  /** A PUBLISH may follow while its message is still unreleased, and a PUBREL
      only when it is not. */
  ghost predicate MayFollow(flat: map<Key, Tracked>, e: Event, m: nat) {
    && (Is(e, PublishSend, m) ==>
          var k := (e.client, e.packet.pid);
          k in flat && flat[k].serial == m && flat[k].phase == PublishSent)
    && (forall k :: k in flat && flat[k].serial == m && flat[k].phase == PublishSent ==> !Releases(e, k.0, k.1))
  }

  lemma {:induction false} OrderedOneMore(flat: map<Key, Tracked>, log: seq<Event>, e: Event, m: nat)
    requires Ordered(flat, log, m) && MayFollow(flat, e, m)
    requires forall k, l :: k in flat && l in flat && flat[k].serial == m && flat[l].serial == m ==> k == l
    ensures Ordered(flat, log + [e], m)
  {
    var log' := log + [e];
    if Is(e, PublishSend, m) {
      var k := (e.client, e.packet.pid);
      assert OrderedAt(flat[k].phase, k, log, m);
    }
    forall k | k in flat && flat[k].serial == m ensures OrderedAt(flat[k].phase, k, log', m) {
      assert OrderedAt(flat[k].phase, k, log, m);
    }
  }

  lemma {:induction false} OrderedStep(st: State, step: Step, cfg: Config, m: nat)
    requires Sound(st, cfg) && Accepted(st, step) && Unpublished(st.log, st.serials) && Ordered(st.flat, st.log, m)
    ensures Ordered(FlatAfter(st, step, cfg), st.log + Emitted(st, step, cfg), m)
  {
    var flat, es := FlatAfter(st, step, cfg), Emitted(st, step, cfg);
    OrderedFlat(st, step, cfg, m);
    SoundStep(st, step, cfg);
    EmittedMayFollow(st, step, cfg, m);
    if |es| == 0 {
      assert st.log + es == st.log;
    } else {
      OrderedOneMore(flat, st.log, es[0], m);
      if |es| == 1 {
        assert es == [es[0]];
      } else {
        OrderedOneMore(flat, st.log + [es[0]], es[1], m);
        assert st.log + es == st.log + [es[0]] + [es[1]];
      }
    }
  }

  lemma {:induction false} EmittedMayFollow(st: State, step: Step, cfg: Config, m: nat)
    requires Sound(st, cfg) && Accepted(st, step)
    ensures var es, flat := Emitted(st, step, cfg), FlatAfter(st, step, cfg);
            |es| <= 2 && forall j :: 0 <= j < |es| ==> MayFollow(flat, es[j], m)
  {
    if step.Tick? {
      assert TrackedOk(st.flat[(step.client, step.pid)], (step.client, step.pid), st.serials, cfg);
    }
  }

  lemma {:induction false} UnpublishedStep(st: State, step: Step, cfg: Config)
    requires Sound(st, cfg) && Accepted(st, step) && Unpublished(st.log, st.serials)
    ensures Unpublished(Apply(st, step, cfg).log, Apply(st, step, cfg).serials)
  {
    assert forall k :: k in st.flat ==> TrackedOk(st.flat[k], k, st.serials, cfg);
  }

  /** In every run, no PUBREL for an identifier is sent between two PUBLISHes of
      the same message under it. */
  lemma {:induction false} NoReleaseBetween(steps: seq<Step>, cfg: Config, m: nat)
    ensures var log := Run(steps, cfg).log;
            forall a, b, c :: 0 <= a < b < c < |log| && Is(log[a], PublishSend, m) && Is(log[c], PublishSend, m) ==>
              !Releases(log[b], log[a].client, log[a].packet.pid)
    ensures Ordered(Run(steps, cfg).flat, Run(steps, cfg).log, m)
    ensures Unpublished(Run(steps, cfg).log, Run(steps, cfg).serials)
    decreases |steps|
  {
    if steps != [] {
      var init, step := steps[..|steps| - 1], steps[|steps| - 1];
      NoReleaseBetween(init, cfg, m);
      if Accepted(Run(init, cfg), step) {
        SoundRun(init, cfg);
        OrderedStep(Run(init, cfg), step, cfg, m);
        UnpublishedStep(Run(init, cfg), step, cfg);
      }
    }
  }
}
