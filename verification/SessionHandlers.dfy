/** The parts of a session that touch subscriptions and retained messages
    (src/session.cpp:341-355, 425-510). */
module SessionHandlers {
  import opened Wrappers
  import opened Filter
  import opened TrieSpec
  import opened TopicTree
  import opened TrieRuns
  import opened Subscriptions
  import opened Agreement
  import Runs = SubscriptionRuns

  const FAILURE := 0x80

  /** What handling requests depends on besides the index and the store. */
  datatype Request = Request(session: nat, client: string, clean: bool, limits: Limits, maxSubs: int, expired: set<nat>)

  datatype Outcome = Outcome(view: View, store: Store, codes: seq<nat>)

  predicate Refused(store: Store, sub: Subscription, rq: Request, acl: string -> bool) {
    || !ValidFilter(sub.filter, rq.limits)
    || !acl(sub.filter)
    || (!rq.clean && |Listing(store, rq.client)| >= rq.maxSubs)
  }

  /** SUBSCRIBE with several filters, one after the other. */
  function Subscribes(view: View, store: Store, subs: seq<Subscription>, rq: Request, acl: string -> bool): Outcome {
    if subs == [] then Outcome(view, store, [])
    else SubscribeOne(Subscribes(view, store, subs[..|subs| - 1], rq, acl), subs[|subs| - 1], rq, acl)
  }

  function SubscribeOne(o: Outcome, sub: Subscription, rq: Request, acl: string -> bool): Outcome {
    if Refused(o.store, sub, rq, acl) then o.(codes := o.codes + [FAILURE])
    else Outcome(AfterSubscribe(o.view, PathOf(sub.filter), Entry(rq.session, sub.qos), rq.expired),
                 if rq.clean then o.store
                 else o.store[rq.client := Added(Listing(o.store, rq.client), sub.filter, sub.qos)],
                 o.codes + [sub.qos])
  }

  /** UNSUBSCRIBE with several filters, which are not validated. */
  function Unsubscribes(view: View, store: Store, filters: seq<string>, rq: Request): (View, Store) {
    if filters == [] then (view, store)
    else
      var (v, s) := Unsubscribes(view, store, filters[..|filters| - 1], rq);
      UnsubscribeOne(v, s, filters[|filters| - 1], rq)
  }

  function UnsubscribeOne(view: View, store: Store, filter: string, rq: Request): (View, Store) {
    (AfterUnsubscribe(view, PathOf(filter), Some(rq.session), rq.expired),
     if rq.clean then store else Keep(store, rq.client, Removed(Listing(store, rq.client), filter)))
  }

  // ------------------------------------------------------------------ what they do

  /** The return code of each filter, told by the filters before it: 128 for an
      invalid filter, one without access, or one too many of a persistent session;
      otherwise the quality of service asked for. */
  lemma {:induction false} CodesMean(view: View, store: Store, subs: seq<Subscription>, rq: Request,
                                     acl: string -> bool, i: nat)
    requires i < |subs|
    ensures var codes := Subscribes(view, store, subs, rq, acl).codes;
            var stored := Listing(Subscribes(view, store, subs[..i], rq, acl).store, rq.client);
            && |codes| == |subs|
            && (!ValidFilter(subs[i].filter, rq.limits) ==> codes[i] == 128)
            && (!acl(subs[i].filter) ==> codes[i] == 128)
            && (!rq.clean && |stored| >= rq.maxSubs ==> codes[i] == 128)
            && (ValidFilter(subs[i].filter, rq.limits) && acl(subs[i].filter) && (rq.clean || |stored| < rq.maxSubs) ==>
                  codes[i] == subs[i].qos)
    decreases |subs|
  {
    var init := subs[..|subs| - 1];
    CodesSize(view, store, init, rq, acl);
    if i < |init| {
      CodesMean(view, store, init, rq, acl, i);
      assert init[..i] == subs[..i] && init[i] == subs[i];
    } else {
      assert subs[..i] == init;
    }
  }

  lemma {:induction false} CodesSize(view: View, store: Store, subs: seq<Subscription>, rq: Request,
                                     acl: string -> bool)
    ensures |Subscribes(view, store, subs, rq, acl).codes| == |subs|
    decreases |subs|
  {
    if subs != [] {
      CodesSize(view, store, subs[..|subs| - 1], rq, acl);
    }
  }

  /** The quality of service granted last on a path, by the return codes. */
  function LastGranted(subs: seq<Subscription>, codes: seq<nat>, p: Path): Option<nat>
    requires |codes| == |subs|
  {
    if subs == [] then None
    else
      var n := |subs| - 1;
      if PathOf(subs[n].filter) == p && codes[n] != 128 then Some(subs[n].qos)
      else LastGranted(subs[..n], codes[..n], p)
  }

  lemma {:induction false} LastGrantedMore(init: seq<Subscription>, sub: Subscription, codes: seq<nat>, code: nat,
                                           p: Path)
    requires |codes| == |init|
    ensures LastGranted(init + [sub], codes + [code], p)
         == if PathOf(sub.filter) == p && code != 128 then Some(sub.qos) else LastGranted(init, codes, p)
  {
    assert (init + [sub])[..|init|] == init && (codes + [code])[..|init|] == codes;
  }

  /** The session's entry: what was granted last, or else what it was. */
  function EntryFor(session: nat, granted: Option<nat>, was: seq<Entry>): seq<Entry> {
    match granted
    case None => was
    case Some(q) => [Entry(session, q)]
  }

  lemma {:induction false} OneEntry(o: Outcome, sub: Subscription, rq: Request, acl: string -> bool, p: Path,
                                    other: nat)
    returns (code: nat)
    requires rq.session !in rq.expired && |Of(EntriesAt(o.view, p), rq.session)| <= 1 && other != rq.session
    requires sub.qos <= 3
    ensures var next := SubscribeOne(o, sub, rq, acl);
            && next.codes == o.codes + [code]
            && Of(EntriesAt(next.view, p), rq.session)
               == (if PathOf(sub.filter) == p && code != 128 then [Entry(rq.session, sub.qos)]
                   else Of(EntriesAt(o.view, p), rq.session))
            && Of(EntriesAt(next.view, p), other) == Of(EntriesAt(o.view, p), other)
  {
    code := if Refused(o.store, sub, rq, acl) then FAILURE else sub.qos;
    if !Refused(o.store, sub, rq, acl) {
      OfAfterSubscribe(o.view, PathOf(sub.filter), Entry(rq.session, sub.qos), rq.expired, p, rq.session);
      OfAfterSubscribe(o.view, PathOf(sub.filter), Entry(rq.session, sub.qos), rq.expired, p, other);
    }
  }

  /** The session's entry at a path is the one granted last there, or the one it
      had where nothing was granted; another session's entries are as they were. */
  ghost predicate EntriesGranted(view: View, o: Outcome, subs: seq<Subscription>, session: nat, p: Path, other: nat) {
    && |o.codes| == |subs|
    && Of(EntriesAt(o.view, p), session)
       == EntryFor(session, LastGranted(subs, o.codes, p), Of(EntriesAt(view, p), session))
    && Of(EntriesAt(o.view, p), other) == Of(EntriesAt(view, p), other)
  }

  lemma {:induction false} GrantedStep(view: View, o: Outcome, init: seq<Subscription>, sub: Subscription, rq: Request,
                                       acl: string -> bool, p: Path, other: nat)
    requires rq.session !in rq.expired && |Of(EntriesAt(view, p), rq.session)| <= 1 && other != rq.session
    requires EntriesGranted(view, o, init, rq.session, p, other) && sub.qos <= 3
    ensures EntriesGranted(view, SubscribeOne(o, sub, rq, acl), init + [sub], rq.session, p, other)
  {
    var code := OneEntry(o, sub, rq, acl, p, other);
    LastGrantedMore(init, sub, o.codes, code, p);
  }

  /** After a SUBSCRIBE, of a clean session too. */
  lemma {:induction false} SubscribesEntries(view: View, store: Store, subs: seq<Subscription>, rq: Request,
                                             acl: string -> bool, p: Path, other: nat)
    requires rq.session !in rq.expired && |Of(EntriesAt(view, p), rq.session)| <= 1 && other != rq.session
    requires forall i :: 0 <= i < |subs| ==> subs[i].qos <= 3
    ensures EntriesGranted(view, Subscribes(view, store, subs, rq, acl), subs, rq.session, p, other)
    decreases |subs|
  {
    if subs == [] {
      assert EntriesGranted(view, Outcome(view, store, []), [], rq.session, p, other);
    } else {
      var init, sub := subs[..|subs| - 1], subs[|subs| - 1];
      LastApart(subs);
      SubscribesEntries(view, store, init, rq, acl, p, other);
      var o := Subscribes(view, store, init, rq, acl);
      GrantedStep(view, o, init, sub, rq, acl, p, other);
      OneMore(view, store, init, sub, rq, acl);
    }
  }

  lemma {:induction false} OneMore(view: View, store: Store, init: seq<Subscription>, sub: Subscription, rq: Request,
                                   acl: string -> bool)
    ensures Subscribes(view, store, init + [sub], rq, acl)
         == SubscribeOne(Subscribes(view, store, init, rq, acl), sub, rq, acl)
  {
    assert (init + [sub])[..|init|] == init;
  }

  /** After an UNSUBSCRIBE, of a clean session too, the session has no entry at any
      path named, and everything else is as it was. */
  lemma {:induction false} UnsubscribesEntries(view: View, store: Store, filters: seq<string>, rq: Request, p: Path,
                                               other: nat)
    requires rq.session !in rq.expired && other != rq.session
    ensures var after := Unsubscribes(view, store, filters, rq).0;
            && Of(EntriesAt(after, p), rq.session)
               == (if Names(filters, p) then [] else Of(EntriesAt(view, p), rq.session))
            && Of(EntriesAt(after, p), other) == Of(EntriesAt(view, p), other)
    decreases |filters|
  {
    if filters != [] {
      var init, f := filters[..|filters| - 1], filters[|filters| - 1];
      UnsubscribesEntries(view, store, init, rq, p, other);
      var v := Unsubscribes(view, store, init, rq).0;
      NamesMore(filters, p);
      OfAfterUnsubscribe(v, PathOf(f), rq.session, rq.expired, p, rq.session);
      OfAfterUnsubscribe(v, PathOf(f), rq.session, rq.expired, p, other);
    }
  }

  ghost predicate Names(filters: seq<string>, p: Path) {
    exists i :: 0 <= i < |filters| && PathOf(filters[i]) == p
  }

  lemma {:induction false} NamesMore(filters: seq<string>, p: Path)
    requires filters != []
    ensures Names(filters, p)
       <==> Names(filters[..|filters| - 1], p) || PathOf(filters[|filters| - 1]) == p
  {
    var init := filters[..|filters| - 1];
    if Names(init, p) {
      var i :| 0 <= i < |init| && PathOf(init[i]) == p;
      assert filters[i] == init[i];
    }
    if Names(filters, p) {
      var i :| 0 <= i < |filters| && PathOf(filters[i]) == p;
      assert i < |init| ==> init[i] == filters[i];
    }
  }

  // ---------------------------------------------------------------- what they keep

  /** The invariant of one persistent session. */
  ghost predicate InStep(view: View, store: Store, rq: Request) {
    var list := Listing(store, rq.client);
    Agrees(view, list, rq.session) && Runs.ListOk(list, rq.maxSubs)
  }

  ghost predicate OthersKept(store: Store, store': Store, client: string) {
    forall c :: c != client ==> Listing(store', c) == Listing(store, c)
  }

  lemma {:induction false} OneSubscribed(o: Outcome, sub: Subscription, rq: Request, acl: string -> bool)
    requires !rq.clean && rq.session !in rq.expired && InStep(o.view, o.store, rq) && Canonical(sub.filter)
    ensures var next := SubscribeOne(o, sub, rq, acl);
            && InStep(next.view, next.store, rq) && |next.codes| == |o.codes| + 1
            && OthersKept(o.store, next.store, rq.client)
  {
    if !Refused(o.store, sub, rq, acl) {
      var list := Listing(o.store, rq.client);
      CanonicalNoAlias(list, sub.filter);
      SubscribeKeepsIff(o.view, list, rq.session, rq.expired, sub.filter, sub.qos);
      Runs.AddedOk(list, sub.filter, sub.qos, rq.maxSubs);
    }
  }

  /** A SUBSCRIBE of canonical filters keeps store and index in step and leaves
      other clients' lists alone, whichever filters it refuses. */
  lemma {:induction false} SubscribesInStep(view: View, store: Store, subs: seq<Subscription>, rq: Request,
                                            acl: string -> bool)
    requires !rq.clean && rq.session !in rq.expired && InStep(view, store, rq)
    requires forall i :: 0 <= i < |subs| ==> Canonical(subs[i].filter)
    ensures var o := Subscribes(view, store, subs, rq, acl);
            && InStep(o.view, o.store, rq) && |o.codes| == |subs|
            && OthersKept(store, o.store, rq.client)
    decreases |subs|
  {
    if subs != [] {
      var init, sub := subs[..|subs| - 1], subs[|subs| - 1];
      assert forall i :: 0 <= i < |init| ==> init[i] == subs[i];
      SubscribesInStep(view, store, init, rq, acl);
      OneSubscribed(Subscribes(view, store, init, rq, acl), sub, rq, acl);
    }
  }

  lemma {:induction false} OneUnsubscribed(view: View, store: Store, filter: string, rq: Request)
    requires !rq.clean && rq.session !in rq.expired && InStep(view, store, rq) && Canonical(filter)
    ensures var (v, s) := UnsubscribeOne(view, store, filter, rq);
            InStep(v, s, rq) && OthersKept(store, s, rq.client)
  {
    var list := Listing(store, rq.client);
    CanonicalNoAlias(list, filter);
    UnsubscribeKeepsIff(view, list, rq.session, rq.expired, filter);
    Runs.RemovedOk(list, filter, rq.maxSubs);
  }

  lemma {:induction false} UnsubscribesInStep(view: View, store: Store, filters: seq<string>, rq: Request)
    requires !rq.clean && rq.session !in rq.expired && InStep(view, store, rq)
    requires forall i :: 0 <= i < |filters| ==> Canonical(filters[i])
    ensures var (v, s) := Unsubscribes(view, store, filters, rq);
            InStep(v, s, rq) && OthersKept(store, s, rq.client)
    decreases |filters|
  {
    if filters != [] {
      var init, f := filters[..|filters| - 1], filters[|filters| - 1];
      assert forall i :: 0 <= i < |init| ==> init[i] == filters[i];
      UnsubscribesInStep(view, store, init, rq);
      var (v, s) := Unsubscribes(view, store, init, rq);
      OneUnsubscribed(v, s, f, rq);
    }
  }

  /** One accepted filter is the `Subscribe` step of the whole system. */
  lemma HandlerIsStep(sys: Runs.Sys, sub: Subscription, rq: Request, acl: string -> bool)
    requires !rq.clean && rq.session in sys.connected && rq.client == sys.connected[rq.session]
    requires rq.expired == sys.expired
    requires Canonical(sub.filter) && ValidFilter(sub.filter, rq.limits) && acl(sub.filter)
    ensures var o := Subscribes(sys.view, sys.store, [sub], rq, acl);
            var next := Runs.Next(sys, Runs.Step.Subscribe(rq.session, sub.filter, sub.qos), rq.maxSubs);
            o.view == next.view && o.store == next.store
  {
    assert [sub][..0] == [];
  }

  /** So are an UNSUBSCRIBE of one filter and the restoring on CONNECT. */
  lemma {:induction false} OthersAreSteps(sys: Runs.Sys, filter: string, rq: Request)
    requires rq.expired == sys.expired && !rq.clean
    ensures rq.session in sys.connected && rq.client == sys.connected[rq.session] && Canonical(filter) ==>
              var next := Runs.Next(sys, Runs.Step.Unsubscribe(rq.session, filter), rq.maxSubs);
              Unsubscribes(sys.view, sys.store, [filter], rq) == (next.view, next.store)
    ensures Runs.Allowed(sys, Runs.Connect(rq.session, rq.client)) ==>
              var next := Runs.Next(sys, Runs.Connect(rq.session, rq.client), rq.maxSubs);
              && next.view == Restored(sys.view, Listing(sys.store, rq.client), rq.session, rq.expired)
              && next.store == sys.store && rq.session in next.connected
    ensures Runs.Allowed(sys, Runs.ConnectClean(rq.session, rq.client)) ==>
              var next := Runs.Next(sys, Runs.ConnectClean(rq.session, rq.client), rq.maxSubs);
              && Listing(next.store, rq.client) == [] && OthersKept(sys.store, next.store, rq.client)
              && next.view == sys.view
  {
    assert [filter][..0] == [];
  }

  // --------------------------------------------------------------------- the methods

  class Session {
    const tree: TopicTree
    const manager: SubscriptionManager

    ghost predicate Valid()
      reads this, tree, tree.nodes, manager
    {
      tree.Valid() && manager.Valid()
    }

    constructor (tree: TopicTree, manager: SubscriptionManager)
      requires tree.Valid() && manager.Valid()
      ensures Valid() && this.tree == tree && this.manager == manager
    {
      this.tree := tree;
      this.manager := manager;
    }

    /** Restoring the stored subscriptions on CONNECT; the result is the
        session-present flag. */
    method Restore(rq: Request) returns (present: bool)
      requires Valid() && !rq.clean
      modifies tree`at, tree`nodes, tree`entries, tree.nodes
      ensures Valid() && fresh(tree.nodes - old(tree.nodes))
      ensures present == (Listing(manager.subs, rq.client) != [])
      ensures tree.entries == Restored(old(tree.entries), Listing(manager.subs, rq.client), rq.session, rq.expired)
    {
      var list := manager.GetClientSubs(rq.client);
      present := |list| > 0;
      for i := 0 to |list|
        invariant Valid() && fresh(tree.nodes - old(tree.nodes))
        invariant tree.entries == Restored(old(tree.entries), list[..i], rq.session, rq.expired)
      {
        RestoredMore(old(tree.entries), list, i, rq.session, rq.expired);
        tree.Subscribe(list[i].filter, Entry(rq.session, list[i].qos), rq.expired);
      }
      assert list[..|list|] == list;
    }

    method HandleSubscribe(subs: seq<Subscription>, rq: Request, acl: string -> bool) returns (codes: seq<nat>)
      requires Valid()
      modifies tree`at, tree`nodes, tree`entries, tree.nodes, manager
      ensures Valid() && fresh(tree.nodes - old(tree.nodes))
      ensures Outcome(tree.entries, manager.subs, codes)
           == Subscribes(old(tree.entries), old(manager.subs), subs, rq, acl)
    {
      codes := [];
      for i := 0 to |subs|
        invariant Valid() && fresh(tree.nodes - old(tree.nodes))
        invariant Outcome(tree.entries, manager.subs, codes)
               == Subscribes(old(tree.entries), old(manager.subs), subs[..i], rq, acl)
      {
        assert subs[..i + 1][..i] == subs[..i];
        var code := SubscribeFilter(subs[i], rq, acl);
        codes := codes + [code];
      }
      assert subs[..|subs|] == subs;
    }

    /** One round of the loop in `handle_subscribe`. */
    method SubscribeFilter(sub: Subscription, rq: Request, acl: string -> bool) returns (code: nat)
      requires Valid()
      modifies tree`at, tree`nodes, tree`entries, tree.nodes, manager
      ensures Valid() && fresh(tree.nodes - old(tree.nodes))
      ensures if Refused(old(manager.subs), sub, rq, acl) then
                code == FAILURE && tree.entries == old(tree.entries) && manager.subs == old(manager.subs)
              else
                && code == sub.qos
                && tree.entries
                == AfterSubscribe(old(tree.entries), PathOf(sub.filter), Entry(rq.session, sub.qos), rq.expired)
                && manager.subs
                == if rq.clean then old(manager.subs)
                   else
                     var list := Listing(old(manager.subs), rq.client);
                     old(manager.subs)[rq.client := Added(list, sub.filter, sub.qos)]
    {
      var refused := Check(sub, rq, acl);
      if refused {
        return FAILURE;
      }
      tree.Subscribe(sub.filter, Entry(rq.session, sub.qos), rq.expired);
      if !rq.clean {
        manager.Add(rq.client, sub.filter, sub.qos);
      }
      return sub.qos;
    }

    /** Its tests: validity, access, and the number of stored subscriptions. */
    method Check(sub: Subscription, rq: Request, acl: string -> bool) returns (refused: bool)
      requires manager.Valid()
      ensures refused == Refused(manager.subs, sub, rq, acl)
    {
      var valid := IsValidFilter(sub.filter, rq.limits);
      if !valid || !acl(sub.filter) {
        return true;
      }
      if !rq.clean {
        var existing := manager.GetClientSubs(rq.client);
        if |existing| >= rq.maxSubs {
          return true;
        }
      }
      return false;
    }

    method HandleUnsubscribe(filters: seq<string>, rq: Request)
      requires Valid()
      modifies tree`entries, tree.nodes, manager
      ensures Valid()
      ensures (tree.entries, manager.subs) == Unsubscribes(old(tree.entries), old(manager.subs), filters, rq)
    {
      for i := 0 to |filters|
        invariant Valid()
        invariant (tree.entries, manager.subs) == Unsubscribes(old(tree.entries), old(manager.subs), filters[..i], rq)
      {
        assert filters[..i + 1][..i] == filters[..i];
        tree.Unsubscribe(filters[i], Some(rq.session), rq.expired);
        if !rq.clean {
          manager.Remove(rq.client, filters[i]);
        }
      }
      assert filters[..|filters|] == filters;
    }

    /** The retained messages sent after a filter is accepted: each one whose
        rebuilt name `topic::matches` accepts, once. */
    method ReplayRetained(filter: string) returns (out: seq<(string, Retained)>)
      requires Valid()
      ensures Lists(out, Matched(tree.messages, filter), tree.messages)
    {
      var all := tree.GetAllRetained();
      ghost var rv := tree.messages;
      out := KeepMatching(all, filter, rv);
    }
  }

  /** The retained messages whose rebuilt name `topic::matches` accepts. */
  ghost function Matched(rv: RetainedView, filter: string): set<Path> {
    set p | p in rv && Matches(RejoinFrom("", Labels(p)), filter)
  }

  /** Its loop over the listing. */
  method KeepMatching(all: seq<(string, Retained)>, filter: string, ghost rv: RetainedView)
    returns (out: seq<(string, Retained)>)
    requires Lists(all, rv.Keys, rv)
    ensures Lists(out, Matched(rv, filter), rv)
  {
    ghost var order :| ListsIn(all, order, rv.Keys, rv);
    ghost var paths;
    out, paths := KeepInOrder(all, filter, order, rv);
    assert ListsIn(out, paths, Matched(rv, filter), rv);
  }

  method KeepInOrder(all: seq<(string, Retained)>, filter: string, ghost order: seq<Path>, ghost rv: RetainedView)
    returns (out: seq<(string, Retained)>, ghost paths: seq<Path>)
    requires IsListing(all, order, rv) && Distinct(order)
    ensures Distinct(paths) && IsListing(out, paths, rv)
    ensures forall p :: p in paths <==> p in order && Matches(RejoinFrom("", Labels(p)), filter)
  {
    out, paths := [], [];
    for i := 0 to |all|
      invariant Distinct(paths) && IsListing(out, paths, rv)
      invariant forall p :: p in paths <==> p in order[..i] && Matches(RejoinFrom("", Labels(p)), filter)
    {
      var ok := MatchesTopic(all[i].0, filter);
      assert order[..i + 1] == order[..i] + [order[i]];
      assert order[i] !in order[..i];
      if ok {
        DistinctConcat(paths, [order[i]]);
        out, paths := out + [all[i]], paths + [order[i]];
      }
    }
    assert order[..|all|] == order;
  }

  /** Against live publications: a retained message on a plain topic is replayed
      to a filter exactly when a publication on that topic would reach it, except
      on the parent level of a final '#', where only the publication does. */
  lemma ReplayVersusPublication(p: Path, filter: string, limits: Limits)
    requires PlainPath(p) && ValidFilter(filter, limits)
    ensures Matches(RejoinFrom("", Labels(p)), filter)
            <==> TrieMatches(PathOf(filter), Labels(p)) && !ParentOfHash(Labels(p), Split(filter))
  {
    RejoinPlain(Labels(p));
    SplitJoin(Labels(p));
    MatchesVersusSpec(Labels(p), Split(filter));
    TrieMatchesIsSpec(Split(filter), Labels(p));
  }
}
