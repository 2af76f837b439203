/** What goes out under one message, over every run: the retries of a PUBLISH
    repeat its content, and its PUBRELs name the same client, session and
    identifier (src/qos/qos1.cpp:80-110, src/qos/qos2.cpp:72-166). */
module Retransmission {
  import opened Wrappers
  import opened InFlight
  import opened AtMostOnce

  /** Two sends go to the same place under the same identifier. */
  predicate SamePlace(a: Event, b: Event)
    requires a.Sent? && b.Sent?
  {
    a.client == b.client && a.session == b.session && a.packet.pid == b.packet.pid
  }

  /** `b` repeats the PUBLISH `a`: nothing but DUP may differ, DUP is set when
      retries set it, and otherwise the packet is the very same. */
  predicate Repeats(a: Event, b: Event, cfg: Config)
    requires a.Sent? && b.Sent? && a.packet.Publish? && b.packet.Publish?
  {
    && SamePlace(a, b)
    && a.packet.topic == b.packet.topic && a.packet.payload == b.packet.payload
    && a.packet.qos == b.packet.qos && a.packet.retain == b.packet.retain
    && (if cfg.dupOnRetry then b.packet.dup else a.packet.dup == b.packet.dup)
  }

  /** The sends of message `m` among the events of a log, against one another. */
  ghost predicate Steady(log: seq<Event>, m: nat, cfg: Config) {
    && (forall a, c :: 0 <= a < c < |log| && Is(log[a], PublishSend, m) && Is(log[c], PublishSend, m) ==>
          Repeats(log[a], log[c], cfg))
    && (forall a, c :: 0 <= a < |log| && 0 <= c < |log| && Is(log[a], PublishSend, m) && Is(log[c], PubrelSend, m) ==>
          SamePlace(log[a], log[c]))
  }

  /** While it is tracked, what is tracked is what was sent. */
  ghost predicate SentAs(t: Tracked, k: Key, e: Event)
  {
    && e.Sent? && e.client == k.0 && e.session == t.session && e.packet.pid == k.1
    && (e.packet.Publish? ==>
          && t.publish.Publish?
          && e.packet.topic == t.publish.topic && e.packet.payload == t.publish.payload
          && e.packet.qos == t.publish.qos && e.packet.retain == t.publish.retain)
  }

  predicate Sends(e: Event, m: nat) {
    Is(e, PublishSend, m) || Is(e, PubrelSend, m)
  }

  /** Without DUP on retries, also DUP is as tracked. */
  ghost predicate Mirrors(flat: map<Key, Tracked>, log: seq<Event>, m: nat, cfg: Config) {
    forall k, a :: k in flat && flat[k].serial == m && 0 <= a < |log| && Sends(log[a], m) ==>
      && SentAs(flat[k], k, log[a])
      && (!cfg.dupOnRetry && log[a].packet.Publish? && flat[k].publish.Publish? ==>
            log[a].packet.dup == flat[k].publish.dup)
  }

  lemma {:induction false} MirrorsFlat(st: State, step: Step, cfg: Config, m: nat)
    requires Sound(st, cfg) && Accepted(st, step) && Unpublished(st.log, st.serials)
    requires Mirrors(st.flat, st.log, m, cfg)
    ensures Mirrors(FlatAfter(st, step, cfg), st.log, m, cfg)
  {
    assert forall a :: 0 <= a < |st.log| ==> !Sends(st.log[a], st.serials);
    var flat := FlatAfter(st, step, cfg);
    forall k, a | k in flat && flat[k].serial == m && 0 <= a < |st.log| && Sends(st.log[a], m)
      ensures SentAs(flat[k], k, st.log[a])
      ensures !cfg.dupOnRetry && st.log[a].packet.Publish? && flat[k].publish.Publish? ==>
                st.log[a].packet.dup == flat[k].publish.dup
    {
      assert m != st.serials;
      assert k in st.flat && st.flat[k].serial == m;
    }
  }

  /** An event that may be added: it is of the tracked message, and a PUBLISH of
      it that is not the first carries the DUP that retries carry. */
  ghost predicate Fitting(flat: map<Key, Tracked>, log: seq<Event>, e: Event, m: nat, cfg: Config) {
    Sends(e, m) ==>
      var k := (e.client, e.packet.pid);
      && k in flat && flat[k].serial == m && SentAs(flat[k], k, e) && flat[k].publish.Publish?
      && (e.packet.Publish? && !cfg.dupOnRetry ==> e.packet.dup == flat[k].publish.dup)
      && (e.packet.Publish? && cfg.dupOnRetry ==> e.packet.dup || Fresh(log, m))
  }

  ghost predicate Fresh(log: seq<Event>, m: nat) {
    forall a :: 0 <= a < |log| ==> !Sends(log[a], m)
  }

  lemma {:induction false} OneMore(flat: map<Key, Tracked>, log: seq<Event>, e: Event, m: nat, cfg: Config)
    requires Steady(log, m, cfg) && Mirrors(flat, log, m, cfg) && Fitting(flat, log, e, m, cfg)
    requires forall k, l :: k in flat && l in flat && flat[k].serial == m && flat[l].serial == m ==> k == l
    ensures Steady(log + [e], m, cfg) && Mirrors(flat, log + [e], m, cfg)
  {
    var log' := log + [e];
    if Sends(e, m) {
      var k := (e.client, e.packet.pid);
      forall a | 0 <= a < |log| && Sends(log[a], m)
        ensures SentAs(flat[k], k, log[a])
      {
        assert k in flat && flat[k].serial == m;
      }
    }
    SteadyOneMore(flat, log, e, m, cfg);
    forall k, a | k in flat && flat[k].serial == m && 0 <= a < |log'| && Sends(log'[a], m)
      ensures SentAs(flat[k], k, log'[a])
      ensures !cfg.dupOnRetry && log'[a].packet.Publish? && flat[k].publish.Publish? ==>
                log'[a].packet.dup == flat[k].publish.dup
    {
      if a < |log| {
        assert log'[a] == log[a];
      }
    }
  }

  lemma {:induction false} SteadyOneMore(flat: map<Key, Tracked>, log: seq<Event>, e: Event, m: nat, cfg: Config)
    requires Steady(log, m, cfg) && Mirrors(flat, log, m, cfg) && Fitting(flat, log, e, m, cfg)
    ensures Steady(log + [e], m, cfg)
  {
    var log', n := log + [e], |log|;
    forall a, c | 0 <= a < c < |log'| && Is(log'[a], PublishSend, m) && Is(log'[c], PublishSend, m)
      ensures Repeats(log'[a], log'[c], cfg)
    {
      assert log'[a] == log[a];
      if c == n {
        assert Sends(e, m) && Sends(log[a], m);
      } else {
        assert log'[c] == log[c];
      }
    }
    forall a, c | 0 <= a < |log'| && 0 <= c < |log'| && Is(log'[a], PublishSend, m) && Is(log'[c], PubrelSend, m)
      ensures SamePlace(log'[a], log'[c])
    {
      assert a != c && Sends(log'[a], m) && Sends(log'[c], m);
      if a < n { assert log'[a] == log[a]; }
      if c < n { assert log'[c] == log[c]; }
    }
  }

  lemma {:induction false} EmittedFit(st: State, step: Step, cfg: Config, m: nat)
    requires Sound(st, cfg) && Accepted(st, step) && Unpublished(st.log, st.serials)
    ensures var es, flat := Emitted(st, step, cfg), FlatAfter(st, step, cfg);
            && |es| <= 2
            && (|es| > 0 ==> Fitting(flat, st.log, es[0], m, cfg))
            && (|es| > 1 ==> es[0].GotPubrec? && es[1].Sent? && es[1].packet.Pubrel?
                             && Fitting(flat, st.log, es[1], m, cfg))
  {
    if !step.Copy? && !step.Plain? {
      assert TrackedOk(st.flat[(step.client, step.pid)], (step.client, step.pid), st.serials, cfg);
    }
    assert Fresh(st.log, st.serials);
  }

  lemma {:induction false} SteadyStep(st: State, step: Step, cfg: Config, m: nat)
    requires Sound(st, cfg) && Accepted(st, step) && Unpublished(st.log, st.serials)
    requires Steady(st.log, m, cfg) && Mirrors(st.flat, st.log, m, cfg)
    ensures Steady(st.log + Emitted(st, step, cfg), m, cfg)
    ensures Mirrors(FlatAfter(st, step, cfg), st.log + Emitted(st, step, cfg), m, cfg)
  {
    var flat, es := FlatAfter(st, step, cfg), Emitted(st, step, cfg);
    MirrorsFlat(st, step, cfg, m);
    SoundStep(st, step, cfg);
    EmittedFit(st, step, cfg, m);
    if |es| == 0 {
      assert st.log + es == st.log;
    } else {
      OneMore(flat, st.log, es[0], m, cfg);
      if |es| == 1 {
        assert es == [es[0]];
      } else {
        assert Fitting(flat, st.log + [es[0]], es[1], m, cfg);
        OneMore(flat, st.log + [es[0]], es[1], m, cfg);
        assert st.log + es == st.log + [es[0]] + [es[1]];
      }
    }
  }

  /** In every run, the PUBLISHes of one message carry the same topic, payload,
      QoS, retain flag and identifier to the same session of the same client, DUP
      set on all but the first where retries set it; and its PUBRELs name that
      identifier there. */
  lemma {:induction false} RetriesRepeat(steps: seq<Step>, cfg: Config, m: nat)
    ensures Steady(Run(steps, cfg).log, m, cfg)
    ensures Mirrors(Run(steps, cfg).flat, Run(steps, cfg).log, m, cfg)
    decreases |steps|
  {
    if steps != [] {
      var init, step := steps[..|steps| - 1], steps[|steps| - 1];
      RetriesRepeat(init, cfg, m);
      if Accepted(Run(init, cfg), step) {
        SoundRun(init, cfg);
        NoReleaseBetween(init, cfg, m);
        SteadyStep(Run(init, cfg), step, cfg, m);
      }
    }
  }
}
