/** Any number of sessions connecting, subscribing, unsubscribing and leaving, in
    any order: stored lists and index entries of every connected persistent
    session stay in agreement (src/session.cpp:341-355, 439-469, 501-506). */
module SubscriptionRuns {
  import opened Wrappers
  import opened Filter
  import opened TrieSpec
  import opened TopicTree
  import opened TrieRuns
  import opened Subscriptions
  import opened Agreement

  /** `connected` maps the connected persistent sessions to their client ids;
      `used` remembers every session that has ever subscribed. */
  datatype Sys = Sys(view: View, store: Store, expired: set<nat>, used: set<nat>, connected: map<nat, string>)

  datatype Step =
    | Connect(session: nat, client: string)
    | ConnectClean(session: nat, client: string)
    | Subscribe(session: nat, filter: string, qos: nat)
    | Unsubscribe(session: nat, filter: string)
    | SubscribeClean(session: nat, filter: string, qos: nat)
    | UnsubscribeClean(session: nat, filter: string)
    | Leave(session: nat)
    | Expire(session: nat)

  /** A session connects once, alone under its client id, and uses canonical
      filters; a session object expires after it has left. */
  ghost predicate Allowed(sys: Sys, step: Step) {
    match step
    case Connect(s, c) => s !in sys.used && s !in sys.expired && c !in sys.connected.Values
    case ConnectClean(s, c) => c !in sys.connected.Values
    case Subscribe(s, f, q) => s in sys.connected && Canonical(f)
    case Unsubscribe(s, f) => s in sys.connected && Canonical(f)
    case SubscribeClean(s, f, q) => s !in sys.connected && s !in sys.expired
    case UnsubscribeClean(s, f) => s !in sys.connected && s !in sys.expired
    case Leave(s) => s in sys.connected
    case Expire(s) => s !in sys.connected
  }

  ghost function Next(sys: Sys, step: Step, max: int): Sys
    requires Allowed(sys, step)
  {
    match step
    case Connect(s, c) =>
      sys.(view := Restored(sys.view, Listing(sys.store, c), s, sys.expired),
           used := sys.used + {s}, connected := sys.connected[s := c])
    case ConnectClean(s, c) => sys.(store := sys.store - {c})
    case Subscribe(s, f, q) =>
      var c := sys.connected[s];
      if |Listing(sys.store, c)| >= max then sys
      else sys.(view := AfterSubscribe(sys.view, PathOf(f), Entry(s, q), sys.expired),
                store := sys.store[c := Added(Listing(sys.store, c), f, q)])
    case Unsubscribe(s, f) =>
      var c := sys.connected[s];
      sys.(view := AfterUnsubscribe(sys.view, PathOf(f), Some(s), sys.expired),
           store := Keep(sys.store, c, Removed(Listing(sys.store, c), f)))
    case SubscribeClean(s, f, q) =>
      sys.(view := AfterSubscribe(sys.view, PathOf(f), Entry(s, q), sys.expired), used := sys.used + {s})
    case UnsubscribeClean(s, f) => sys.(view := AfterUnsubscribe(sys.view, PathOf(f), Some(s), sys.expired))
    case Leave(s) => sys.(connected := sys.connected - {s})
    case Expire(s) => sys.(expired := sys.expired + {s})
  }

  const EMPTY := Sys(map[], map[], {}, {}, map[])

  ghost function Run(steps: seq<Step>, max: int): Sys {
    if steps == [] then EMPTY
    else
      var sys := Run(steps[..|steps| - 1], max);
      if Allowed(sys, steps[|steps| - 1]) then Next(sys, steps[|steps| - 1], max) else sys
  }

  // ------------------------------------------------------------------- invariant

  ghost predicate ListOk(list: seq<Subscription>, max: int) {
    && DistinctPaths(list)
    && (forall i :: 0 <= i < |list| ==> Canonical(list[i].filter))
    && (|list| == 0 || |list| <= max)
  }

  ghost predicate StoreOk(store: Store, max: int) {
    forall c :: ListOk(Listing(store, c), max)
  }

  ghost predicate NoEntries(view: View, session: nat) {
    forall p :: Of(EntriesAt(view, p), session) == []
  }

  ghost predicate SessionOk(sys: Sys, s: nat) {
    s in sys.connected ==>
      s in sys.used && s !in sys.expired && Agrees(sys.view, Listing(sys.store, sys.connected[s]), s)
  }

  ghost predicate Inv(sys: Sys, max: int) {
    && StoreOk(sys.store, max)
    && (forall s :: SessionOk(sys, s))
    && (forall s, t :: s in sys.connected && t in sys.connected && s != t ==> sys.connected[s] != sys.connected[t])
    && (forall s :: s !in sys.used ==> NoEntries(sys.view, s))
  }

  // -------------------------------------------------------- what a step leaves alone

  lemma {:induction false} NoEntriesKept(view: View, p: Path, e: Entry, expired: set<nat>, s: nat)
    requires e.session !in expired && NoEntries(view, s)
    ensures s != e.session ==> NoEntries(AfterSubscribe(view, p, e, expired), s)
    ensures NoEntries(AfterUnsubscribe(view, p, Some(e.session), expired), s)
  {
    OfSubscribed(EntriesAt(view, p), e, expired, s);
    OfUnsubscribed(EntriesAt(view, p), e.session, expired, s);
    assert Of(EntriesAt(view, p), s) == [];
    forall q
      ensures s != e.session ==> Of(EntriesAt(AfterSubscribe(view, p, e, expired), q), s) == []
      ensures Of(EntriesAt(AfterUnsubscribe(view, p, Some(e.session), expired), q), s) == []
    {
      assert Of(EntriesAt(view, q), s) == [];
    }
  }

  lemma {:induction false} RestoreLeavesOthers(view: View, list: seq<Subscription>, session: nat, expired: set<nat>,
                                               s: nat, own: seq<Subscription>)
    requires session !in expired && s != session
    ensures NoEntries(view, s) ==> NoEntries(Restored(view, list, session, expired), s)
    ensures s !in expired && Agrees(view, own, s) ==> Agrees(Restored(view, list, session, expired), own, s)
    decreases |list|
  {
    if list != [] {
      var init, last := list[..|list| - 1], list[|list| - 1];
      RestoreLeavesOthers(view, init, session, expired, s, own);
      var mid := Restored(view, init, session, expired);
      if NoEntries(view, s) {
        NoEntriesKept(mid, PathOf(last.filter), Entry(session, last.qos), expired, s);
      }
      if s !in expired && Agrees(view, own, s) {
        OthersUndisturbed(mid, own, s, session, expired, last.filter, last.qos);
      }
    }
  }

  // ----------------------------------------------------------------- step by step

  lemma {:induction false} ConnectKeeps(sys: Sys, s: nat, c: string, max: int)
    requires Inv(sys, max) && Allowed(sys, Connect(s, c))
    ensures Inv(Next(sys, Connect(s, c), max), max)
  {
    var sys', list := Next(sys, Connect(s, c), max), Listing(sys.store, c);
    assert ListOk(list, max) && NoEntries(sys.view, s);
    RestoreAgrees(sys.view, list, s, sys.expired);
    forall t ensures SessionOk(sys', t) {
      assert SessionOk(sys, t);
      if t in sys.connected {
        RestoreLeavesOthers(sys.view, list, s, sys.expired, t, Listing(sys.store, sys.connected[t]));
      }
    }
    forall t | t !in sys'.used ensures NoEntries(sys'.view, t) {
      RestoreLeavesOthers(sys.view, list, s, sys.expired, t, []);
    }
    assert forall t :: t in sys.connected ==> sys.connected[t] in sys.connected.Values;
  }

  /** A step by which one session changes its own list and entries. */
  lemma {:induction false} OwnStepKeeps(sys: Sys, view: View, list: seq<Subscription>, store: Store, s: nat, max: int)
    requires Inv(sys, max) && s in sys.connected
    requires forall c :: Listing(store, c) == if c == sys.connected[s] then list else Listing(sys.store, c)
    requires ListOk(list, max) && Agrees(view, list, s)
    requires forall t :: t in sys.connected && t != s ==> Agrees(view, Listing(sys.store, sys.connected[t]), t)
    requires forall t :: t !in sys.used ==> NoEntries(view, t)
    ensures Inv(sys.(view := view, store := store), max)
  {
    var sys' := sys.(view := view, store := store);
    forall t ensures SessionOk(sys', t) {
      assert SessionOk(sys, t);
    }
    forall c ensures ListOk(Listing(sys'.store, c), max) {
      assert ListOk(Listing(sys.store, c), max);
    }
  }

  lemma {:induction false} SubscribeKeeps(sys: Sys, s: nat, f: string, q: nat, max: int)
    requires Inv(sys, max) && Allowed(sys, Step.Subscribe(s, f, q))
    ensures Inv(Next(sys, Step.Subscribe(s, f, q), max), max)
  {
    var c := sys.connected[s];
    var list := Listing(sys.store, c);
    if |list| < max {
      var view, list' := AfterSubscribe(sys.view, PathOf(f), Entry(s, q), sys.expired), Added(list, f, q);
      assert SessionOk(sys, s) && ListOk(list, max);
      CanonicalNoAlias(list, f);
      SubscribeKeepsIff(sys.view, list, s, sys.expired, f, q);
      AddedOk(list, f, q, max);
      forall t | t in sys.connected && t != s ensures Agrees(view, Listing(sys.store, sys.connected[t]), t) {
        assert SessionOk(sys, t);
        OthersUndisturbed(sys.view, Listing(sys.store, sys.connected[t]), t, s, sys.expired, f, q);
      }
      forall t | t !in sys.used ensures NoEntries(view, t) {
        NoEntriesKept(sys.view, PathOf(f), Entry(s, q), sys.expired, t);
      }
      OwnStepKeeps(sys, view, list', sys.store[c := list'], s, max);
    }
  }

  lemma {:induction false} AddedOk(list: seq<Subscription>, f: string, q: nat, max: int)
    requires ListOk(list, max) && Canonical(f) && NoAlias(list, f) && |list| < max
    ensures ListOk(Added(list, f, q), max)
  {
    AddedDistinct(list, f, q);
    AddedFilters(list, f, q);
    forall i | 0 <= i < |Added(list, f, q)| ensures Canonical(Added(list, f, q)[i].filter) {
      assert Added(list, f, q)[i] in Added(list, f, q);
    }
  }

  lemma {:induction false} RemovedOk(list: seq<Subscription>, f: string, max: int)
    requires ListOk(list, max)
    ensures ListOk(Removed(list, f), max)
  {
    RemovedDistinct(list, f);
    RemovedFilters(list, f);
    forall i | 0 <= i < |Removed(list, f)| ensures Canonical(Removed(list, f)[i].filter) {
      assert Removed(list, f)[i] in Removed(list, f);
    }
  }

  lemma {:induction false} UnsubscribeKeeps(sys: Sys, s: nat, f: string, max: int)
    requires Inv(sys, max) && Allowed(sys, Step.Unsubscribe(s, f))
    ensures Inv(Next(sys, Step.Unsubscribe(s, f), max), max)
  {
    var c := sys.connected[s];
    var list := Listing(sys.store, c);
    var view, list' := AfterUnsubscribe(sys.view, PathOf(f), Some(s), sys.expired), Removed(list, f);
    assert SessionOk(sys, s) && ListOk(list, max);
    CanonicalNoAlias(list, f);
    UnsubscribeKeepsIff(sys.view, list, s, sys.expired, f);
    RemovedOk(list, f, max);
    forall t | t in sys.connected && t != s ensures Agrees(view, Listing(sys.store, sys.connected[t]), t) {
      assert SessionOk(sys, t);
      OthersUndisturbed(sys.view, Listing(sys.store, sys.connected[t]), t, s, sys.expired, f, 0);
    }
    forall t | t !in sys.used ensures NoEntries(view, t) {
      NoEntriesKept(sys.view, PathOf(f), Entry(s, 0), sys.expired, t);
    }
    OwnStepKeeps(sys, view, list', Keep(sys.store, c, list'), s, max);
  }

  lemma {:induction false} CleanKeeps(sys: Sys, s: nat, f: string, q: nat, max: int)
    requires Inv(sys, max) && s !in sys.connected && s !in sys.expired
    ensures Inv(Next(sys, SubscribeClean(s, f, q), max), max)
    ensures Inv(Next(sys, UnsubscribeClean(s, f), max), max)
  {
    var sub, unsub := Next(sys, SubscribeClean(s, f, q), max), Next(sys, UnsubscribeClean(s, f), max);
    forall t ensures SessionOk(sub, t) && SessionOk(unsub, t) {
      assert SessionOk(sys, t);
      if t in sys.connected {
        OthersUndisturbed(sys.view, Listing(sys.store, sys.connected[t]), t, s, sys.expired, f, q);
      }
    }
    forall t | t !in sys.used
      ensures t != s ==> NoEntries(sub.view, t)
      ensures NoEntries(unsub.view, t)
    {
      NoEntriesKept(sys.view, PathOf(f), Entry(s, q), sys.expired, t);
    }
  }

  lemma {:induction false} LeaveKeeps(sys: Sys, step: Step, max: int)
    requires Inv(sys, max) && Allowed(sys, step) && (step.Leave? || step.Expire? || step.ConnectClean?)
    ensures Inv(Next(sys, step, max), max)
  {
    var sys' := Next(sys, step, max);
    forall t ensures SessionOk(sys', t) {
      assert SessionOk(sys, t);
      assert t in sys.connected ==> sys.connected[t] in sys.connected.Values;
    }
    forall d ensures ListOk(Listing(sys'.store, d), max) {
      assert ListOk(Listing(sys.store, d), max);
    }
  }

  lemma {:induction false} InvRun(steps: seq<Step>, max: int)
    ensures Inv(Run(steps, max), max)
    decreases |steps|
  {
    if steps != [] {
      var sys, step := Run(steps[..|steps| - 1], max), steps[|steps| - 1];
      InvRun(steps[..|steps| - 1], max);
      if Allowed(sys, step) {
        match step {
          case Connect(s, c) => ConnectKeeps(sys, s, c, max);
          case Subscribe(s, f, q) => SubscribeKeeps(sys, s, f, q, max);
          case Unsubscribe(s, f) => UnsubscribeKeeps(sys, s, f, max);
          case SubscribeClean(s, f, q) => CleanKeeps(sys, s, f, q, max);
          case UnsubscribeClean(s, f) => CleanKeeps(sys, s, f, 0, max);
          case _ => LeaveKeeps(sys, step, max);
        }
      }
    }
  }

  /** After every run, for every connected persistent session: the stored list and
      the session's index entries agree in filter and quality of service, the
      stored filters are distinct, and there are not too many. */
  lemma StoreAndIndexAgree(steps: seq<Step>, max: int, s: nat)
    requires s in Run(steps, max).connected
    ensures var sys := Run(steps, max);
            var list := Listing(sys.store, sys.connected[s]);
            && Agrees(sys.view, list, s)
            && (forall i, j :: 0 <= i < j < |list| ==> list[i].filter != list[j].filter)
            && (|list| == 0 || |list| <= max)
  {
    InvRun(steps, max);
    var sys := Run(steps, max);
    assert SessionOk(sys, s);
    assert ListOk(Listing(sys.store, sys.connected[s]), max);
  }
}
