/** A persistent session's stored subscriptions and its entries in the index say
    the same thing, and exactly when an operation keeps it so. */
module Agreement {
  import opened Wrappers
  import opened Filter
  import opened TrieSpec
  import opened TopicTree
  import opened TrieRuns
  import opened Subscriptions

  /** The quality of service that a list holds for a path. */
  function QosAt(list: seq<Subscription>, p: Path): Option<nat> {
    if list == [] then None
    else if PathOf(list[0].filter) == p then Some(list[0].qos)
    else QosAt(list[1..], p)
  }

  ghost predicate DistinctPaths(list: seq<Subscription>) {
    forall i, j :: 0 <= i < j < |list| ==> PathOf(list[i].filter) != PathOf(list[j].filter)
  }

  /** Path by path, the session has in the index what the list says, and the list
      names no path twice. */
  ghost predicate Agrees(view: View, list: seq<Subscription>, session: nat) {
    DistinctPaths(list) && forall p :: AgreesAt(view, list, session, p)
  }

  ghost predicate AgreesAt(view: View, list: seq<Subscription>, session: nat, p: Path) {
    Of(EntriesAt(view, p), session) == AsEntries(session, QosAt(list, p))
  }

  /** No other stored filter splits into the same segments. */
  ghost predicate NoAlias(list: seq<Subscription>, filter: string) {
    forall i :: 0 <= i < |list| && list[i].filter != filter ==> PathOf(list[i].filter) != PathOf(filter)
  }

  // ------------------------------------------------------------- lists and paths

  lemma {:induction false} QosAtAbsent(list: seq<Subscription>, p: Path)
    ensures QosAt(list, p) == None <==> forall i :: 0 <= i < |list| ==> PathOf(list[i].filter) != p
    decreases |list|
  {
    if list != [] {
      QosAtAbsent(list[1..], p);
      assert forall i :: 1 <= i < |list| ==> list[i] == list[1..][i - 1];
    }
  }

  lemma {:induction false} TailPaths(list: seq<Subscription>, filter: string)
    requires list != []
    ensures DistinctPaths(list) ==> DistinctPaths(list[1..])
    ensures NoAlias(list, filter) ==> NoAlias(list[1..], filter)
  {}

  lemma {:induction false} AddedQos(list: seq<Subscription>, filter: string, qos: nat, p: Path)
    requires NoAlias(list, filter)
    ensures QosAt(Added(list, filter, qos), p) == if p == PathOf(filter) then Some(qos) else QosAt(list, p)
    decreases |list|
  {
    if list != [] {
      TailPaths(list, filter);
      AddedQos(list[1..], filter, qos, p);
    }
  }

  lemma {:induction false} RemovedQos(list: seq<Subscription>, filter: string, p: Path)
    requires NoAlias(list, filter)
    ensures QosAt(Removed(list, filter), p) == if p == PathOf(filter) then None else QosAt(list, p)
    decreases |list|
  {
    if list != [] {
      TailPaths(list, filter);
      RemovedQos(list[1..], filter, p);
      var rest := Removed(list[1..], filter);
      assert ([list[0]] + rest)[1..] == rest && [] + rest == rest;
    }
  }

  /** A filter of the new list was in the old one or is the one added. */
  lemma {:induction false} AddedFilters(list: seq<Subscription>, filter: string, qos: nat)
    ensures forall s :: s in Added(list, filter, qos) ==> s in list || s == Subscription(filter, qos)
    ensures Subscription(filter, qos) in Added(list, filter, qos)
    ensures forall s :: s in list && s.filter != filter ==> s in Added(list, filter, qos)
    decreases |list|
  {
    if list != [] {
      AddedFilters(list[1..], filter, qos);
    }
  }

  lemma {:induction false} AddedDistinct(list: seq<Subscription>, filter: string, qos: nat)
    requires DistinctPaths(list) && NoAlias(list, filter)
    ensures DistinctPaths(Added(list, filter, qos))
    ensures |Added(list, filter, qos)| <= |list| + 1
    decreases |list|
  {
    if list != [] {
      var head, tail := list[0], list[1..];
      TailPaths(list, filter);
      AddedDistinct(tail, filter, qos);
      if head.filter != filter {
        AddedFilters(tail, filter, qos);
        forall s | s in Added(tail, filter, qos) ensures PathOf(s.filter) != PathOf(head.filter) {
          if s in tail { HeadApart(list, s); }
        }
        ConsDistinct(head, Added(tail, filter, qos));
      } else {
        assert forall i :: 1 <= i < |list| ==> PathOf(list[0].filter) != PathOf(list[i].filter);
      }
    }
  }

  lemma {:induction false} HeadApart(list: seq<Subscription>, s: Subscription)
    requires list != [] && DistinctPaths(list) && s in list[1..]
    ensures PathOf(s.filter) != PathOf(list[0].filter)
  {
    var i :| 0 <= i < |list[1..]| && list[1..][i] == s;
    assert list[i + 1] == s;
  }

  lemma {:induction false} ConsDistinct(head: Subscription, tail: seq<Subscription>)
    requires DistinctPaths(tail) && forall s :: s in tail ==> PathOf(s.filter) != PathOf(head.filter)
    ensures DistinctPaths([head] + tail)
  {}

  lemma {:induction false} RemovedFilters(list: seq<Subscription>, filter: string)
    ensures forall s :: s in Removed(list, filter) <==> s in list && s.filter != filter
    decreases |list|
  {
    if list != [] {
      RemovedFilters(list[1..], filter);
    }
  }

  lemma {:induction false} RemovedDistinct(list: seq<Subscription>, filter: string)
    requires DistinctPaths(list)
    ensures DistinctPaths(Removed(list, filter))
    ensures |Removed(list, filter)| <= |list|
    decreases |list|
  {
    if list != [] {
      var head, tail := list[0], list[1..];
      TailPaths(list, filter);
      RemovedDistinct(tail, filter);
      RemovedFilters(tail, filter);
      forall s | s in Removed(tail, filter) ensures PathOf(s.filter) != PathOf(head.filter) {
        HeadApart(list, s);
      }
      ConsDistinct(head, Removed(tail, filter));
    }
  }

  // ------------------------------------------------------- one filter subscribed

  /** Subscribing keeps store and index in agreement if and only if no other
      stored filter is an alias of the new one. */
  lemma {:induction false} SubscribeKeepsIff(view: View, list: seq<Subscription>, session: nat, expired: set<nat>,
                                             filter: string, qos: nat)
    requires session !in expired && Agrees(view, list, session)
    ensures Agrees(AfterSubscribe(view, PathOf(filter), Entry(session, qos), expired), Added(list, filter, qos),
                   session)
            <==> NoAlias(list, filter)
  {
    var view', list' := AfterSubscribe(view, PathOf(filter), Entry(session, qos), expired), Added(list, filter, qos);
    if NoAlias(list, filter) {
      AddedDistinct(list, filter, qos);
      forall p ensures AgreesAt(view', list', session, p) {
        assert AgreesAt(view, list, session, p);
        AddedQos(list, filter, qos, p);
        OfSubscribed(EntriesAt(view, p), Entry(session, qos), expired, session);
      }
    } else {
      var i :| 0 <= i < |list| && list[i].filter != filter && PathOf(list[i].filter) == PathOf(filter);
      assert list[i] in list;
      AddedFilters(list, filter, qos);
      SamePathTwice(list', list[i], Subscription(filter, qos));
    }
  }

  lemma {:induction false} SamePathTwice(list: seq<Subscription>, a: Subscription, b: Subscription)
    requires a in list && b in list && a != b && PathOf(a.filter) == PathOf(b.filter)
    ensures !DistinctPaths(list)
  {
    var i :| 0 <= i < |list| && list[i] == a;
    var j :| 0 <= j < |list| && list[j] == b;
    assert i < j || j < i;
  }

  /** Unsubscribing keeps them in agreement under the same condition. */
  lemma {:induction false} UnsubscribeKeepsIff(view: View, list: seq<Subscription>, session: nat, expired: set<nat>,
                                               filter: string)
    requires session !in expired && Agrees(view, list, session)
    ensures Agrees(AfterUnsubscribe(view, PathOf(filter), Some(session), expired), Removed(list, filter), session)
            <==> NoAlias(list, filter)
  {
    var view', list' := AfterUnsubscribe(view, PathOf(filter), Some(session), expired), Removed(list, filter);
    var p0 := PathOf(filter);
    OfUnsubscribed(EntriesAt(view, p0), session, expired, session);
    if NoAlias(list, filter) {
      RemovedDistinct(list, filter);
      forall p ensures AgreesAt(view', list', session, p) {
        assert AgreesAt(view, list, session, p);
        RemovedQos(list, filter, p);
      }
    } else {
      var i :| 0 <= i < |list| && list[i].filter != filter && PathOf(list[i].filter) == p0;
      assert list[i] in list;
      RemovedFilters(list, filter);
      var j :| 0 <= j < |list'| && list'[j] == list[i];
      QosAtAbsent(list', p0);
      assert !AgreesAt(view', list', session, p0);
    }
  }

  /** Canonical filters have no aliases but themselves. */
  lemma CanonicalNoAlias(list: seq<Subscription>, filter: string)
    requires Canonical(filter) && forall i :: 0 <= i < |list| ==> Canonical(list[i].filter)
    ensures NoAlias(list, filter)
  {
    forall i | 0 <= i < |list| && list[i].filter != filter ensures PathOf(list[i].filter) != PathOf(filter) {
      CanonicalSlots(list[i].filter, filter);
    }
  }

  /** "a" and "a/" are aliases: subscribing to both breaks the agreement. */
  lemma AliasWitness(view: View, session: nat, expired: set<nat>)
    requires session !in expired && Agrees(view, [Subscription("a", 1)], session)
    ensures !Agrees(AfterSubscribe(view, PathOf("a/"), Entry(session, 2), expired),
                    Added([Subscription("a", 1)], "a/", 2), session)
  {
    SubscribeKeepsIff(view, [Subscription("a", 1)], session, expired, "a/", 2);
    FirstSlashAt("a", 1);
    FirstSlashAt("a/", 1);
    assert "a/"[..1] == "a" && "a/"[2..] == "";
    assert Split("a/") == ["a"] + Split("") && Split("a") == ["a"];
    assert [Subscription("a", 1)][0].filter == "a";
  }

  // -------------------------------------------------------------- other sessions

  /** What one session does to the index, another does not notice. */
  lemma {:induction false} OthersUndisturbed(view: View, list: seq<Subscription>, session: nat, other: nat,
                                             expired: set<nat>, filter: string, qos: nat)
    requires session !in expired && session != other && Agrees(view, list, session)
    ensures Agrees(AfterSubscribe(view, PathOf(filter), Entry(other, qos), expired), list, session)
    ensures Agrees(AfterUnsubscribe(view, PathOf(filter), Some(other), expired), list, session)
  {
    var sub := AfterSubscribe(view, PathOf(filter), Entry(other, qos), expired);
    var unsub := AfterUnsubscribe(view, PathOf(filter), Some(other), expired);
    forall p ensures AgreesAt(sub, list, session, p) {
      assert AgreesAt(view, list, session, p);
      OfSubscribed(EntriesAt(view, p), Entry(other, qos), expired, session);
    }
    forall p ensures AgreesAt(unsub, list, session, p) {
      assert AgreesAt(view, list, session, p);
      OfUnsubscribed(EntriesAt(view, p), other, expired, session);
    }
  }

  // --------------------------------------------------------------- restoring a list

  /** The index after a session has subscribed to a whole list. */
  function Restored(view: View, list: seq<Subscription>, session: nat, expired: set<nat>): View {
    if list == [] then view
    else
      var last := list[|list| - 1];
      AfterSubscribe(Restored(view, list[..|list| - 1], session, expired), PathOf(last.filter),
                     Entry(session, last.qos), expired)
  }

  lemma {:induction false} RestoredMore(view: View, list: seq<Subscription>, i: nat, session: nat, expired: set<nat>)
    requires i < |list|
    ensures Restored(view, list[..i + 1], session, expired)
         == AfterSubscribe(Restored(view, list[..i], session, expired), PathOf(list[i].filter),
                           Entry(session, list[i].qos), expired)
  {
    assert list[..i + 1][..i] == list[..i];
  }

  /** A session that has no entries yet agrees with the stored list after
      restoring it. */
  lemma {:induction false} RestoreAgrees(view: View, list: seq<Subscription>, session: nat, expired: set<nat>)
    requires session !in expired && DistinctPaths(list)
    requires forall p :: Of(EntriesAt(view, p), session) == []
    ensures Agrees(Restored(view, list, session, expired), list, session)
    decreases |list|
  {
    if list == [] {
      forall p ensures AgreesAt(view, list, session, p) {}
    } else {
      var init, last := list[..|list| - 1], list[|list| - 1];
      assert list == init + [last];
      LastIsNew(init, last);
      RestoreAgrees(view, init, session, expired);
      SubscribeKeepsIff(Restored(view, init, session, expired), init, session, expired, last.filter, last.qos);
    }
  }

  lemma {:induction false} LastIsNew(init: seq<Subscription>, last: Subscription)
    requires DistinctPaths(init + [last])
    ensures DistinctPaths(init) && NoAlias(init, last.filter)
    ensures Added(init, last.filter, last.qos) == init + [last]
  {
    var list := init + [last];
    assert forall i :: 0 <= i < |init| ==> init[i] == list[i];
    assert list[|init|] == last;
    assert forall i :: 0 <= i < |init| ==> init[i].filter != last.filter;
    AddedAt(init, last.filter, last.qos, |init|);
  }
}
