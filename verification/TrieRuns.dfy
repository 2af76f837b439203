/** Whole runs of the index: what a lookup returns after any sequence of
    operations, told by the operations alone. */
module TrieRuns {
  import opened Wrappers
  import opened Filter
  import opened TrieSpec
  import opened TopicTree

  datatype Op =
    | Subscribe(filter: string, session: nat, qos: nat)
    | Unsubscribe(filter: string, session: nat)
    | Retain(topic: string, message: Retained)
    | Expire(session: nat)

  datatype Index = Index(entries: View, messages: RetainedView, expired: set<nat>)

  function PathOf(filter: string): Path {
    FilterPath(Split(filter))
  }

  /** One operation, as the methods of `TopicTree` specify it; `Expire` is the
      end of a session's lifetime, after which its weak pointer locks to null. */
  ghost function Apply(ix: Index, op: Op, max: int): Index {
    match op
    case Subscribe(f, s, q) => ix.(entries := AfterSubscribe(ix.entries, PathOf(f), Entry(s, q), ix.expired))
    case Unsubscribe(f, s) => ix.(entries := AfterUnsubscribe(ix.entries, PathOf(f), Some(s), ix.expired))
    case Retain(t, m) =>
      var p := TopicPath(Split(t));
      if Accepts(ix.messages, p, m, |Stored(ix.messages)|, max) then ix.(messages := ix.messages[p := m]) else ix
    case Expire(s) => ix.(expired := ix.expired + {s})
  }

  ghost function Run(ops: seq<Op>, max: int): Index {
    if ops == [] then Index(map[], map[], {}) else Apply(Run(ops[..|ops| - 1], max), ops[|ops| - 1], max)
  }

  /** The quality of service under which a session last subscribed to a path,
      unless it has unsubscribed since. */
  function Latest(ops: seq<Op>, p: Path, session: nat): Option<nat> {
    if ops == [] then None
    else
      match ops[|ops| - 1]
      case Subscribe(f, s, q) =>
        if s == session && PathOf(f) == p then Some(q) else Latest(ops[..|ops| - 1], p, session)
      case Unsubscribe(f, s) =>
        if s == session && PathOf(f) == p then None else Latest(ops[..|ops| - 1], p, session)
      case _ => Latest(ops[..|ops| - 1], p, session)
  }

  /** The entries of one session. */
  function Of(es: seq<Entry>, session: nat): seq<Entry> {
    if es == [] then []
    else (if es[0].session == session then [es[0]] else []) + Of(es[1..], session)
  }

  function AsEntries(session: nat, qos: Option<nat>): seq<Entry> {
    match qos
    case None => []
    case Some(q) => [Entry(session, q)]
  }

  lemma {:induction false} OfSubscribed(es: seq<Entry>, e: Entry, expired: set<nat>, session: nat)
    requires session !in expired || e.session != session
    ensures Of(Subscribed(es, e, expired), session)
         == if e.session != session then Of(es, session)
            else if Of(es, session) == [] then [e]
            else [e] + Of(es, session)[1..]
    decreases |es|
  {
    if es != [] && !(e.session !in expired && es[0].session == e.session) {
      OfSubscribed(es[1..], e, expired, session);
    }
  }

  lemma {:induction false} OfUnsubscribed(es: seq<Entry>, gone: nat, expired: set<nat>, session: nat)
    requires session !in expired || gone != session
    ensures Of(Unsubscribed(es, Some(gone), expired), session)
         == if gone == session then [] else Of(es, session)
    decreases |es|
  {
    if es != [] {
      OfUnsubscribed(es[1..], gone, expired, session);
    }
  }

  /** The same at any path of the index. */
  lemma {:induction false} OfAfterSubscribe(view: View, q: Path, e: Entry, expired: set<nat>, p: Path, session: nat)
    requires session !in expired || e.session != session
    ensures var was, now := Of(EntriesAt(view, p), session),
                            Of(EntriesAt(AfterSubscribe(view, q, e, expired), p), session);
            now == if p != q || e.session != session then was
                   else if was == [] then [e]
                   else [e] + was[1..]
  {
    if p == q {
      OfSubscribed(EntriesAt(view, p), e, expired, session);
    }
  }

  lemma {:induction false} OfAfterUnsubscribe(view: View, q: Path, gone: nat, expired: set<nat>, p: Path, session: nat)
    requires session !in expired || gone != session
    ensures Of(EntriesAt(AfterUnsubscribe(view, q, Some(gone), expired), p), session)
         == if p == q && gone == session then [] else Of(EntriesAt(view, p), session)
  {
    if p == q {
      OfUnsubscribed(EntriesAt(view, p), gone, expired, session);
    }
  }

  /** After any run, a live session has at most one entry at a path, and has it
      with the quality of service it asked for last, exactly when it has
      subscribed and not unsubscribed since. */
  lemma {:induction false} EntryIsLatest(ops: seq<Op>, max: int, p: Path, session: nat)
    requires session !in Run(ops, max).expired
    ensures Of(EntriesAt(Run(ops, max).entries, p), session) == AsEntries(session, Latest(ops, p, session))
    decreases |ops|
  {
    if ops != [] {
      var before, op := Run(ops[..|ops| - 1], max), ops[|ops| - 1];
      var es := EntriesAt(before.entries, p);
      EntryIsLatest(ops[..|ops| - 1], max, p, session);
      match op {
        case Subscribe(f, s, q) =>
          if PathOf(f) == p { OfSubscribed(es, Entry(s, q), before.expired, session); }
        case Unsubscribe(f, s) =>
          if PathOf(f) == p { OfUnsubscribed(es, s, before.expired, session); }
        case _ =>
      }
    }
  }

  // ----------------------------------------------------------- lookup after a run

  lemma {:induction false} CountOf(es: seq<Entry>, e: Entry)
    ensures multiset(es)[e] == multiset(Of(es, e.session))[e]
    decreases |es|
  {
    if es != [] {
      CountOf(es[1..], e);
      assert es == [es[0]] + es[1..];
    }
  }

  ghost function Holding(paths: seq<Path>, view: View, e: Entry): set<Path> {
    set p | p in paths && e in EntriesAt(view, p)
  }

  lemma {:induction false} CountGathered(paths: seq<Path>, view: View, e: Entry)
    requires Distinct(paths)
    requires forall p :: p in paths ==> multiset(EntriesAt(view, p))[e] <= 1
    ensures multiset(Gather(paths, view))[e] == |Holding(paths, view, e)|
    decreases |paths|
  {
    if paths != [] {
      var p, rest := paths[0], paths[1..];
      DistinctTail(paths);
      CountGathered(rest, view, e);
      HoldingMore(paths, view, e);
      CountConcat(EntriesAt(view, p), Gather(rest, view), e);
    }
  }

  lemma {:induction false} HoldingMore(paths: seq<Path>, view: View, e: Entry)
    requires paths != [] && paths[0] !in paths[1..]
    ensures |Holding(paths, view, e)|
         == |Holding(paths[1..], view, e)| + (if e in EntriesAt(view, paths[0]) then 1 else 0)
  {
    var p, rest := paths[0], paths[1..];
    assert paths == [p] + rest;
    assert Holding(paths, view, e)
        == Holding(rest, view, e) + (if e in EntriesAt(view, p) then {p} else {});
  }

  lemma {:induction false} CountConcat(a: seq<Entry>, b: seq<Entry>, e: Entry)
    ensures multiset(a + b)[e] == multiset(a)[e] + multiset(b)[e]
    ensures e in a <==> multiset(a)[e] > 0
  {}

  /** The paths of the filters that were ever subscribed to. */
  ghost function SubscribedPaths(ops: seq<Op>): set<Path> {
    set i | 0 <= i < |ops| && ops[i].Subscribe? :: PathOf(ops[i].filter)
  }

  /** The paths a session is subscribed to with a given quality of service and
      that match a topic under sections 4.7.1.2 and 4.7.1.3 of MQTT 3.1.1. */
  ghost function Wanted(ops: seq<Op>, topic: string, e: Entry): set<Path> {
    set p | p in SubscribedPaths(ops) && SpecMatches(Split(topic), Labels(p))
            && Latest(ops, p, e.session) == Some(e.qos)
  }

  ghost predicate ValidFilters(ops: seq<Op>, limits: Limits) {
    forall i :: 0 <= i < |ops| && ops[i].Subscribe? ==> ValidFilter(ops[i].filter, limits)
  }

  /** Every stored path is the path of a subscribed filter. */
  lemma {:induction false} StoredPathsAreFilters(ops: seq<Op>, max: int, p: Path)
    requires p in Run(ops, max).entries
    ensures exists i :: 0 <= i < |ops| && ops[i].Subscribe? && PathOf(ops[i].filter) == p
    decreases |ops|
  {
    if ops != [] {
      var init := ops[..|ops| - 1];
      if p in Run(init, max).entries {
        StoredPathsAreFilters(init, max, p);
        var i :| 0 <= i < |init| && init[i].Subscribe? && PathOf(init[i].filter) == p;
        assert ops[i] == init[i];
      } else {
        assert ops[|ops| - 1].Subscribe? && PathOf(ops[|ops| - 1].filter) == p;
      }
    }
  }

  lemma LabelsOfFilter(segments: seq<string>)
    ensures Labels(FilterPath(segments)) == segments
  {
    forall i | 0 <= i < |segments| ensures Labels(FilterPath(segments))[i] == segments[i] {
    }
  }

  lemma StoredPathMatchesSpec(ops: seq<Op>, max: int, limits: Limits, p: Path, topic: seq<string>)
    requires ValidFilters(ops, limits) && p in Run(ops, max).entries
    ensures TrieMatches(p, topic) <==> SpecMatches(topic, Labels(p))
  {
    StoredPathsAreFilters(ops, max, p);
    var i :| 0 <= i < |ops| && ops[i].Subscribe? && PathOf(ops[i].filter) == p;
    LabelsOfFilter(Split(ops[i].filter));
    TrieMatchesIsSpec(Split(ops[i].filter), topic);
  }

  lemma {:induction false} CountAt(ops: seq<Op>, max: int, p: Path, e: Entry)
    requires e.session !in Run(ops, max).expired
    ensures multiset(EntriesAt(Run(ops, max).entries, p))[e]
         == if Latest(ops, p, e.session) == Some(e.qos) then 1 else 0
  {
    EntryIsLatest(ops, max, p, e.session);
    CountOf(EntriesAt(Run(ops, max).entries, p), e);
  }

  lemma {:induction false} HeldIffWanted(ops: seq<Op>, max: int, limits: Limits, topic: string, e: Entry, p: Path)
    requires ValidFilters(ops, limits) && e.session !in Run(ops, max).expired
    ensures p in Wanted(ops, topic, e)
       <==> e in EntriesAt(Run(ops, max).entries, p) && TrieMatches(p, Split(topic))
  {
    var view := Run(ops, max).entries;
    CountAt(ops, max, p, e);
    assert e in EntriesAt(view, p) <==> multiset(EntriesAt(view, p))[e] > 0;
    if p in view {
      StoredPathsAreFilters(ops, max, p);
      StoredPathMatchesSpec(ops, max, limits, p, Split(topic));
    }
  }

  lemma ScanAfterRun(ops: seq<Op>, max: int, limits: Limits, topic: string, filters: seq<Path>, e: Entry)
    requires ValidFilters(ops, limits) && e.session !in Run(ops, max).expired
    requires Enumerates(filters, Run(ops, max).entries)
    ensures multiset(Scan(filters, Run(ops, max).entries, Split(topic)))[e] == |Wanted(ops, topic, e)|
  {
    var view := Run(ops, max).entries;
    var paths := Matching(filters, Split(topic));
    MatchingExact(filters, Split(topic));
    forall p ensures multiset(EntriesAt(view, p))[e] <= 1 {
      CountAt(ops, max, p, e);
    }
    CountGathered(paths, view, e);
    forall p ensures p in Holding(paths, view, e) <==> p in Wanted(ops, topic, e) {
      HeldIffWanted(ops, max, limits, topic, e, p);
    }
    assert Holding(paths, view, e) == Wanted(ops, topic, e);
  }

  /** Whatever the run was, a lookup finds a live session's entry once for each
      matching filter it is subscribed to, and not otherwise. */
  lemma LookupAfterRun(ops: seq<Op>, max: int, limits: Limits, topic: string, found: seq<Entry>, e: Entry)
    requires ValidFilters(ops, limits) && e.session !in Run(ops, max).expired
    requires FoundFor(found, Run(ops, max).entries, topic)
    ensures multiset(found)[e] == |Wanted(ops, topic, e)|
  {
    EnumerationExists(Run(ops, max).entries);
    var filters :| Enumerates(filters, Run(ops, max).entries);
    ScanAfterRun(ops, max, limits, topic, filters, e);
  }

  // ------------------------------------------------------------ retained messages

  ghost predicate ValidTopics(ops: seq<Op>, limits: Limits) {
    forall i :: 0 <= i < |ops| && ops[i].Retain? ==> ValidTopic(ops[i].topic, limits)
  }

  /** The message retained last on a path, by the operations alone. */
  function LatestRetained(ops: seq<Op>, p: Path): Option<Retained> {
    if ops == [] then None
    else
      match ops[|ops| - 1]
      case Retain(t, m) =>
        if TopicPath(Split(t)) == p then Some(m) else LatestRetained(ops[..|ops| - 1], p)
      case _ => LatestRetained(ops[..|ops| - 1], p)
  }

  /** The paths on which a non-empty message was ever to be retained. */
  ghost function RetainedPaths(ops: seq<Op>): set<Path> {
    set i | 0 <= i < |ops| && ops[i].Retain? && ops[i].message.payload != [] :: TopicPath(Split(ops[i].topic))
  }

  lemma {:induction false} RetainedPathsMore(ops: seq<Op>)
    requires ops != []
    ensures var op := ops[|ops| - 1];
            RetainedPaths(ops) == RetainedPaths(ops[..|ops| - 1])
              + if op.Retain? && op.message.payload != [] then {TopicPath(Split(op.topic))} else {}
  {
    var init, op := ops[..|ops| - 1], ops[|ops| - 1];
    assert forall i :: 0 <= i < |init| ==> init[i] == ops[i];
    forall p | p in RetainedPaths(init) ensures p in RetainedPaths(ops) {
      var i :| && 0 <= i < |init| && init[i].Retain? && init[i].message.payload != []
               && TopicPath(Split(init[i].topic)) == p;
      assert ops[i] == init[i];
    }
  }

  lemma {:induction false} StoredAmong(ops: seq<Op>, max: int)
    ensures Stored(Run(ops, max).messages) <= RetainedPaths(ops)
    decreases |ops|
  {
    if ops != [] {
      StoredAmong(ops[..|ops| - 1], max);
      RetainedPathsMore(ops);
    }
  }

  lemma {:induction false} FewerThan<T>(a: set<T>, b: set<T>)
    requires a <= b
    ensures |a| <= |b|
  {
    assert b == a + (b - a);
  }

  /** As long as non-empty messages go to at most max_retained_messages different
      paths, none is refused, and `get_retained` finds the message retained last;
      whatever else happened to the index. */
  lemma {:induction false} RetainedIsLatest(ops: seq<Op>, max: int, p: Path)
    requires |RetainedPaths(ops)| <= max
    ensures Find(Run(ops, max).messages, p) == LatestRetained(ops, p)
    decreases |ops|
  {
    if ops != [] {
      var init, op := ops[..|ops| - 1], ops[|ops| - 1];
      RetainedPathsMore(ops);
      FewerThan(RetainedPaths(init), RetainedPaths(ops));
      RetainedIsLatest(init, max, p);
      if op.Retain? {
        RoomForOne(init, op, max);
      }
    }
  }

  lemma {:induction false} RoomForOne(ops: seq<Op>, op: Op, max: int)
    requires op.Retain?
    requires var q := TopicPath(Split(op.topic));
             |RetainedPaths(ops) + if op.message.payload != [] then {q} else {}| <= max
    ensures var ix := Run(ops, max);
            Accepts(ix.messages, TopicPath(Split(op.topic)), op.message, |Stored(ix.messages)|, max)
  {
    var stored, q := Stored(Run(ops, max).messages), TopicPath(Split(op.topic));
    StoredAmong(ops, max);
    if op.message.payload != [] && q !in stored {
      FewerThan(stored + {q}, RetainedPaths(ops) + {q});
    }
  }

  /** The path of a topic without empty levels. */
  ghost predicate PlainPath(p: Path) {
    AllLiteral(p) && PlainSegments(Labels(p))
  }

  lemma {:induction false} RetainedPathsPlain(ops: seq<Op>, max: int, limits: Limits, p: Path)
    requires ValidTopics(ops, limits) && p in Run(ops, max).messages
    ensures PlainPath(p)
    decreases |ops|
  {
    if ops != [] {
      var init, op := ops[..|ops| - 1], ops[|ops| - 1];
      if p in Run(init, max).messages {
        RetainedPathsPlain(init, max, limits, p);
      } else {
        assert op.Retain? && p == TopicPath(Split(op.topic));
        SplitHasNoSlash(op.topic);
        assert Labels(p) == Split(op.topic);
      }
    }
  }

  lemma TopicPathOfLabels(p: Path)
    requires AllLiteral(p)
    ensures TopicPath(Labels(p)) == p
  {
    forall i | 0 <= i < |p| ensures TopicPath(Labels(p))[i] == p[i] {
      assert Labels(p)[i] == p[i].segment;
    }
  }

  /** The listing names every retained message once, under a name by which
      `get_retained` finds that very message. */
  lemma ListingIsTheTable(r: seq<(string, Retained)>, rv: RetainedView)
    requires Lists(r, rv.Keys, rv) && forall q :: q in rv ==> PlainPath(q)
    ensures forall i :: 0 <= i < |r| ==> Find(rv, TopicPath(Split(r[i].0))) == Some(r[i].1)
    ensures forall i, j :: 0 <= i < j < |r| ==> r[i].0 != r[j].0
    ensures |r| == |rv|
  {
    var order :| ListsIn(r, order, rv.Keys, rv);
    forall i | 0 <= i < |r| ensures TopicPath(Split(r[i].0)) == order[i] && order[i] in rv {
      var p := order[i];
      assert p in order;
      RejoinPlain(Labels(p));
      SplitJoin(Labels(p));
      TopicPathOfLabels(p);
    }
    DistinctSize(order, rv.Keys);
  }

  lemma {:induction false} DistinctSize<T>(s: seq<T>, all: set<T>)
    requires Distinct(s) && forall x :: x in s <==> x in all
    ensures |s| == |all|
    decreases |s|
  {
    if s == [] {
      assert all == {};
    } else {
      DistinctTail(s);
      DistinctSize(s[1..], all - {s[0]});
    }
  }

  /** Conversely a message that `get_retained` finds under a canonical valid
      topic is listed under exactly that topic. */
  lemma TopicIsListed(r: seq<(string, Retained)>, rv: RetainedView, topic: string, limits: Limits)
    requires Lists(r, rv.Keys, rv) && TopicPath(Split(topic)) in rv
    requires ValidTopic(topic, limits) && Canonical(topic)
    ensures (topic, rv[TopicPath(Split(topic))]) in r
  {
    var order :| ListsIn(r, order, rv.Keys, rv);
    ListedUnderItsName(r, order, rv, topic, limits);
  }

  lemma ListedUnderItsName(r: seq<(string, Retained)>, order: seq<Path>, rv: RetainedView, topic: string,
                           limits: Limits)
    requires IsListing(r, order, rv) && TopicPath(Split(topic)) in order
    requires ValidTopic(topic, limits) && Canonical(topic)
    ensures TopicPath(Split(topic)) in rv && (topic, rv[TopicPath(Split(topic))]) in r
  {
    var p := TopicPath(Split(topic));
    var i :| 0 <= i < |order| && order[i] == p;
    assert Labels(p) == Split(topic);
    ValidTopicRejoins(topic, limits);
    assert r[i] == (topic, rv[p]);
  }

  /** Canonical topics name different slots; "a" and "a/" do not. */
  lemma CanonicalSlots(a: string, b: string)
    requires Canonical(a) && Canonical(b)
    ensures TopicPath(Split(a)) == TopicPath(Split(b)) <==> a == b
    ensures PathOf(a) == PathOf(b) <==> a == b
  {
    if TopicPath(Split(a)) == TopicPath(Split(b)) {
      TopicPathInjective(Split(a), Split(b));
      SplitInjective(a, b);
    }
    if PathOf(a) == PathOf(b) {
      FilterPathInjective(Split(a), Split(b));
      SplitInjective(a, b);
    }
  }
}
