/** The subscription index as a value: paths of edges, the walk that `lookup`
    performs over a set of paths, and the reference it is compared with, a scan
    of every subscribed filter. */
module TrieSpec {
  import opened Wrappers
  import opened Filter

  /** A link of the trie: a key of `children`, `single_wild` or `multi_wild`. */
  datatype Edge = Lit(segment: string) | Plus | Hash

  type Path = seq<Edge>

  datatype Entry = Entry(session: nat, qos: nat)

  /** Entries by path; paths without entries are left out. */
  type View = map<Path, seq<Entry>>

  function EdgeOf(segment: string): Edge {
    if segment == "#" then Hash else if segment == "+" then Plus else Lit(segment)
  }

  function FilterPath(segments: seq<string>): (p: Path)
    ensures |p| == |segments|
    ensures forall i :: 0 <= i < |p| ==> p[i] == EdgeOf(segments[i])
  {
    seq(|segments|, i requires 0 <= i < |segments| => EdgeOf(segments[i]))
  }

  function TopicPath(segments: seq<string>): (p: Path)
    ensures |p| == |segments|
    ensures forall i :: 0 <= i < |p| ==> p[i] == Lit(segments[i])
  {
    seq(|segments|, i requires 0 <= i < |segments| => Lit(segments[i]))
  }

  lemma {:induction false} FilterPathInjective(a: seq<string>, b: seq<string>)
    requires FilterPath(a) == FilterPath(b)
    ensures a == b
  {
    forall i | 0 <= i < |a| ensures a[i] == b[i] {
      assert FilterPath(a)[i] == FilterPath(b)[i];
    }
  }

  lemma {:induction false} TopicPathInjective(a: seq<string>, b: seq<string>)
    requires TopicPath(a) == TopicPath(b)
    ensures a == b
  {
    forall i | 0 <= i < |a| ensures a[i] == b[i] {
      assert TopicPath(a)[i] == TopicPath(b)[i];
    }
  }

  // -------------------------------------------------------------- the relation

  /** The walk can stand on `p` after consuming `|p|` topic levels. */
  predicate Fits(p: Path, topic: seq<string>) {
    |p| <= |topic| && forall i :: 0 <= i < |p| ==> p[i] == Plus || p[i] == Lit(topic[i])
  }

  /** The paths whose entries `lookup` collects, for every path of edges,
      including those that only an invalid filter can create. */
  predicate TrieMatches(p: Path, topic: seq<string>) {
    || (|p| == |topic| && Fits(p, topic))
    || (|p| >= 1 && p[|p| - 1] == Hash && Fits(p[..|p| - 1], topic))
    || (|p| >= 2 && p[|p| - 1] == Hash && p[|p| - 2] == Hash
        && |p| - 2 < |topic| && Fits(p[..|p| - 2], topic))
  }

  /** On filters whose '#' is last, the trie's relation is the relation of
      sections 4.7.1.2 and 4.7.1.3 of MQTT 3.1.1, for every topic. */
  lemma {:induction false} TrieMatchesIsSpec(f: seq<string>, topic: seq<string>)
    requires HashOnlyLast(f)
    ensures TrieMatches(FilterPath(f), topic) <==> SpecMatches(topic, f)
  {
    var p := FilterPath(f);
    assert forall i :: 0 <= i < |f| && i < |topic| ==>
      ((p[i] == Plus || p[i] == Lit(topic[i])) <==> (LevelFits(f[i], topic[i]) && f[i] != "#"));
    if f != [] && f[|f| - 1] == "#" {
      var q := p[..|p| - 1];
      assert forall i :: 0 <= i < |q| ==> q[i] == p[i] && q[i] != Hash;
    }
  }

  // ------------------------------------------------------------------ the walk

  /** Paths collected when `collect_subscribers` is called on the node at `p`. */
  function CollectAt(keys: set<Path>, p: Path): seq<Path> {
    (if p in keys then [p] else []) + (if p + [Hash] in keys then [p + [Hash]] else [])
  }

  /** Paths collected when the frame for `p` is popped. */
  function Emit(keys: set<Path>, p: Path, topic: seq<string>): seq<Path> {
    if |p| >= |topic| then CollectAt(keys, p)
    else if p + [Hash] in keys then CollectAt(keys, p + [Hash])
    else []
  }

  /** Frames popped from the moment the frame for `p` is on top until it and
      everything pushed above it is gone; '+' was pushed last, so it comes first. */
  function Frames(keys: set<Path>, p: Path, topic: seq<string>): seq<Path>
    decreases |topic| - |p|
  {
    if |p| >= |topic| then [p]
    else
      var plus, lit := p + [Plus], p + [Lit(topic[|p|])];
      [p]
      + (if plus in keys then Frames(keys, plus, topic) else [])
      + (if lit in keys then Frames(keys, lit, topic) else [])
  }

  /** Frames still to be popped for a stack whose top is last. */
  function AllFrames(keys: set<Path>, stack: seq<Path>, topic: seq<string>): seq<Path> {
    if stack == [] then []
    else Frames(keys, stack[|stack| - 1], topic) + AllFrames(keys, stack[..|stack| - 1], topic)
  }

  lemma {:induction false} AllFramesPush(keys: set<Path>, stack: seq<Path>, p: Path, topic: seq<string>)
    ensures AllFrames(keys, stack + [p], topic) == Frames(keys, p, topic) + AllFrames(keys, stack, topic)
  {
    assert (stack + [p])[..|stack|] == stack;
  }

  /** A popped frame is followed by its '+' child, its literal child and then
      by what lay below it on the stack. */
  lemma {:induction false} FramesThen(keys: set<Path>, p: Path, topic: seq<string>, below: seq<Path>)
    requires |p| < |topic|
    ensures var plus, lit := p + [Plus], p + [Lit(topic[|p|])];
            Frames(keys, p, topic) + below
            == [p] + ((if plus in keys then Frames(keys, plus, topic) else [])
                      + ((if lit in keys then Frames(keys, lit, topic) else []) + below))
  {
    var plus, lit := p + [Plus], p + [Lit(topic[|p|])];
    var a := if plus in keys then Frames(keys, plus, topic) else [];
    var b := if lit in keys then Frames(keys, lit, topic) else [];
    assert Frames(keys, p, topic) == [p] + a + b;
    Regroup([p], a, b, below);
  }

  /** Paths collected by those frames, in order. */
  function EmitAll(keys: set<Path>, frames: seq<Path>, topic: seq<string>): seq<Path> {
    if frames == [] then []
    else Emit(keys, frames[0], topic) + EmitAll(keys, frames[1..], topic)
  }

  function Order(keys: set<Path>, topic: seq<string>): seq<Path> {
    EmitAll(keys, Frames(keys, [], topic), topic)
  }

  lemma {:induction false} EmitAllConcat(keys: set<Path>, a: seq<Path>, b: seq<Path>, topic: seq<string>)
    ensures EmitAll(keys, a + b, topic) == EmitAll(keys, a, topic) + EmitAll(keys, b, topic)
    decreases |a|
  {
    if a == [] {
      assert a + b == b;
    } else {
      assert (a + b)[1..] == a[1..] + b;
      EmitAllConcat(keys, a[1..], b, topic);
    }
  }

  ghost predicate PrefixClosed(keys: set<Path>) {
    forall p: Path, e: Edge {:trigger p + [e]} :: p + [e] in keys ==> p in keys
  }

  lemma {:induction false} PrefixIn(keys: set<Path>, p: Path, q: Path)
    requires PrefixClosed(keys) && q in keys && p <= q
    ensures p in keys
    decreases |q|
  {
    if p != q {
      assert q == q[..|q| - 1] + [q[|q| - 1]];
      PrefixIn(keys, p, q[..|q| - 1]);
    }
  }

  lemma {:induction false} FrameIff(keys: set<Path>, p: Path, q: Path, topic: seq<string>)
    requires PrefixClosed(keys) && p in keys && Fits(p, topic)
    ensures q in Frames(keys, p, topic) <==> q in keys && p <= q && Fits(q, topic)
    decreases |topic| - |p|
  {
    if |p| < |topic| {
      var plus, lit := p + [Plus], p + [Lit(topic[|p|])];
      if plus in keys { FrameIff(keys, plus, q, topic); }
      if lit in keys { FrameIff(keys, lit, q, topic); }
      var a := if plus in keys then Frames(keys, plus, topic) else [];
      var b := if lit in keys then Frames(keys, lit, topic) else [];
      assert q in Frames(keys, p, topic) <==> q == p || q in a || q in b;
      if q in keys && p < q && Fits(q, topic) {
        NextEdge(keys, p, q, topic);
      } else {
        assert !(plus <= q && q in a) || p < q;
        assert !(lit <= q && q in b) || p < q;
        assert p <= q && !(p < q) ==> p == q;
      }
    } else if p <= q && Fits(q, topic) {
      assert p == q;
    }
  }

  lemma {:induction false} FrameBelow(keys: set<Path>, p: Path, q: Path, topic: seq<string>)
    requires q in Frames(keys, p, topic)
    ensures p <= q
    decreases |topic| - |p|
  {
    if |p| < |topic| && q != p {
      var plus, lit := p + [Plus], p + [Lit(topic[|p|])];
      if plus in keys && q in Frames(keys, plus, topic) {
        FrameBelow(keys, plus, q, topic);
      } else {
        FrameBelow(keys, lit, q, topic);
      }
    }
  }

  lemma {:induction false} FramesDistinct(keys: set<Path>, p: Path, topic: seq<string>)
    ensures Distinct(Frames(keys, p, topic))
    decreases |topic| - |p|
  {
    if |p| < |topic| {
      var plus, lit := p + [Plus], p + [Lit(topic[|p|])];
      var a := if plus in keys then Frames(keys, plus, topic) else [];
      var b := if lit in keys then Frames(keys, lit, topic) else [];
      if plus in keys { FramesDistinct(keys, plus, topic); }
      if lit in keys { FramesDistinct(keys, lit, topic); }
      forall q | q in a ensures |p| < |q| && q[|p|] == Plus {
        FrameBelow(keys, plus, q, topic);
      }
      forall q | q in b ensures |p| < |q| && q[|p|] == Lit(topic[|p|]) {
        FrameBelow(keys, lit, q, topic);
      }
      DistinctConcat([p], a);
      DistinctConcat([p] + a, b);
    }
  }

  /** Exactly the stored paths that fit the topic are visited, no one twice. */
  lemma {:induction false} FramesExact(keys: set<Path>, p: Path, topic: seq<string>)
    requires PrefixClosed(keys) && p in keys && Fits(p, topic)
    ensures forall q :: q in Frames(keys, p, topic) <==> q in keys && p <= q && Fits(q, topic)
    ensures Distinct(Frames(keys, p, topic))
  {
    FramesDistinct(keys, p, topic);
    forall q ensures q in Frames(keys, p, topic) <==> q in keys && p <= q && Fits(q, topic) {
      FrameIff(keys, p, q, topic);
    }
  }

  lemma {:induction false} NextEdge(keys: set<Path>, p: Path, q: Path, topic: seq<string>)
    requires PrefixClosed(keys) && q in keys && p < q && Fits(q, topic)
    ensures var e := q[|p|];
            p + [e] in keys && p + [e] <= q && (e == Plus || e == Lit(topic[|p|]))
  {
    assert p + [q[|p|]] == q[..|p| + 1];
    PrefixIn(keys, q[..|p| + 1], q);
  }

  /** What one frame collects belongs to that frame alone: stripping the
      trailing '#' edges gives the frame back. */
  function Base(q: Path): Path {
    if q != [] && q[|q| - 1] == Hash then Base(q[..|q| - 1]) else q
  }

  /** The paths that the frame for a fitting path `p` can collect. */
  predicate CollectedFrom(p: Path, q: Path, topic: seq<string>) {
    || (q == p && |p| == |topic|)
    || q == p + [Hash]
    || (q == p + [Hash, Hash] && |p| < |topic|)
  }

  lemma {:induction false} EmitIff(keys: set<Path>, p: Path, q: Path, topic: seq<string>)
    requires PrefixClosed(keys) && p in keys && |p| <= |topic|
    ensures q in Emit(keys, p, topic) <==> q in keys && CollectedFrom(p, q, topic)
  {
    assert p + [Hash] + [Hash] == p + [Hash, Hash];
  }

  lemma {:induction false} EmitDistinct(keys: set<Path>, p: Path, topic: seq<string>)
    ensures Distinct(Emit(keys, p, topic))
  {}

  lemma {:induction false} CollectedMatches(p: Path, q: Path, topic: seq<string>)
    requires Fits(p, topic) && CollectedFrom(p, q, topic)
    ensures TrieMatches(q, topic) && Base(q) == p
  {
    BaseOfFitting(p, topic);
    if q == p + [Hash] {
      BaseHash(p);
      assert q[..|q| - 1] == p;
    } else if q == p + [Hash, Hash] {
      assert q == (p + [Hash]) + [Hash];
      BaseHash(p + [Hash]);
      BaseHash(p);
      assert q[..|q| - 2] == p;
    }
  }

  lemma {:induction false} EmitExact(keys: set<Path>, p: Path, topic: seq<string>)
    requires PrefixClosed(keys) && p in keys && Fits(p, topic)
    ensures Distinct(Emit(keys, p, topic))
    ensures forall q :: q in Emit(keys, p, topic) <==> q in keys && TrieMatches(q, topic) && Base(q) == p
  {
    EmitDistinct(keys, p, topic);
    forall q ensures q in Emit(keys, p, topic) <==> q in keys && TrieMatches(q, topic) && Base(q) == p {
      EmitIff(keys, p, q, topic);
      if CollectedFrom(p, q, topic) {
        CollectedMatches(p, q, topic);
      } else if TrieMatches(q, topic) {
        MatchedShape(q, topic);
      }
    }
  }

  lemma {:induction false} BaseOfFitting(p: Path, topic: seq<string>)
    requires Fits(p, topic)
    ensures Base(p) == p
  {}

  /** A collected path is a fitting path followed by at most two '#' edges. */
  lemma {:induction false} MatchedShape(q: Path, topic: seq<string>)
    requires TrieMatches(q, topic)
    ensures Fits(Base(q), topic) && CollectedFrom(Base(q), q, topic)
  {
    if |q| == |topic| && Fits(q, topic) {
      BaseOfFitting(q, topic);
    } else if |q| >= 1 && q[|q| - 1] == Hash && Fits(q[..|q| - 1], topic) {
      BaseOfFitting(q[..|q| - 1], topic);
    } else {
      var r := q[..|q| - 2];
      BaseOfFitting(r, topic);
      assert q == (r + [Hash]) + [Hash];
      BaseHash(r + [Hash]);
      BaseHash(r);
    }
  }

  lemma {:induction false} BaseHash(r: Path)
    ensures Base(r + [Hash]) == Base(r)
  {
    assert (r + [Hash])[..|r|] == r;
  }

  /** Emission of a duplicate-free list of frames. */
  lemma {:induction false} EmitAllExact(keys: set<Path>, frames: seq<Path>, topic: seq<string>)
    requires PrefixClosed(keys) && Distinct(frames)
    requires forall p :: p in frames ==> p in keys && Fits(p, topic)
    ensures Distinct(EmitAll(keys, frames, topic))
    ensures forall q :: q in EmitAll(keys, frames, topic) <==>
                        q in keys && TrieMatches(q, topic) && Base(q) in frames
    decreases |frames|
  {
    if frames != [] {
      var p, rest := frames[0], frames[1..];
      DistinctTail(frames);
      EmitExact(keys, p, topic);
      EmitAllExact(keys, rest, topic);
      DistinctConcat(Emit(keys, p, topic), EmitAll(keys, rest, topic));
    }
  }

  /** The walk collects every stored path that matches the topic, each once,
      and nothing else. */
  lemma {:induction false} OrderExact(keys: set<Path>, topic: seq<string>)
    requires PrefixClosed(keys) && [] in keys
    ensures Distinct(Order(keys, topic))
    ensures forall q :: q in Order(keys, topic) <==> q in keys && TrieMatches(q, topic)
  {
    var frames := Frames(keys, [], topic);
    FramesExact(keys, [], topic);
    EmitAllExact(keys, frames, topic);
    forall q | q in keys && TrieMatches(q, topic) ensures Base(q) in frames {
      MatchedShape(q, topic);
      assert Base(q) <= q;
      PrefixIn(keys, Base(q), q);
    }
  }

  // ------------------------------------------------------- the scan it refines

  function EntriesAt(view: View, p: Path): seq<Entry> {
    if p in view then view[p] else []
  }

  /** Entries of a list of paths, in that order. */
  function Gather(paths: seq<Path>, view: View): seq<Entry> {
    if paths == [] then [] else EntriesAt(view, paths[0]) + Gather(paths[1..], view)
  }

  lemma {:induction false} GatherConcat(a: seq<Path>, b: seq<Path>, view: View)
    ensures Gather(a + b, view) == Gather(a, view) + Gather(b, view)
    decreases |a|
  {
    if a == [] {
      assert a + b == b;
    } else {
      assert (a + b)[1..] == a[1..] + b;
      GatherConcat(a[1..], b, view);
    }
  }

  /** Progress of the walk: frames popped, then frames to come, are all the
      frames, and the result is what the popped ones collect. */
  ghost predicate Walked(keys: set<Path>, stack: seq<Path>, visited: seq<Path>,
                         result: seq<Entry>, view: View, topic: seq<string>) {
    && visited + AllFrames(keys, stack, topic) == Frames(keys, [], topic)
    && result == Gather(EmitAll(keys, visited, topic), view)
  }

  lemma {:induction false} WalkAdvances(keys: set<Path>, stack: seq<Path>, visited: seq<Path>, result: seq<Entry>,
                     stack': seq<Path>, result': seq<Entry>, view: View, topic: seq<string>)
    requires stack != [] && Walked(keys, stack, visited, result, view, topic)
    requires [stack[|stack| - 1]] + AllFrames(keys, stack', topic) == AllFrames(keys, stack, topic)
    requires result' == result + Gather(Emit(keys, stack[|stack| - 1], topic), view)
    ensures Walked(keys, stack', visited + [stack[|stack| - 1]], result', view, topic)
  {
    var p := stack[|stack| - 1];
    EmitOneMore(keys, visited, p, topic, view);
    MoveOver(visited, p, AllFrames(keys, stack', topic));
  }

  lemma {:induction false} EmitOneMore(keys: set<Path>, visited: seq<Path>, p: Path, topic: seq<string>, view: View)
    ensures Gather(EmitAll(keys, visited + [p], topic), view)
         == Gather(EmitAll(keys, visited, topic), view) + Gather(Emit(keys, p, topic), view)
  {
    EmitAllConcat(keys, visited, [p], topic);
    assert EmitAll(keys, [p], topic) == Emit(keys, p, topic);
    GatherConcat(EmitAll(keys, visited, topic), Emit(keys, p, topic), view);
  }

  lemma {:induction false} GatherCollect(keys: set<Path>, p: Path, view: View)
    requires p in keys
    ensures Gather(CollectAt(keys, p), view)
         == EntriesAt(view, p) + (if p + [Hash] in keys then EntriesAt(view, p + [Hash]) else [])
  {
    if p + [Hash] in keys {
      GatherConcat([p], [p + [Hash]], view);
    }
  }

  function Matching(filters: seq<Path>, topic: seq<string>): seq<Path> {
    if filters == [] then []
    else (if TrieMatches(filters[0], topic) then [filters[0]] else []) + Matching(filters[1..], topic)
  }

  /** The reference: go through all subscribed filters and take the entries of
      those that match. */
  function Scan(filters: seq<Path>, view: View, topic: seq<string>): seq<Entry> {
    Gather(Matching(filters, topic), view)
  }

  /** `filters` lists every subscribed filter once. */
  ghost predicate Enumerates(filters: seq<Path>, view: View) {
    Distinct(filters) && forall p :: p in filters <==> p in view
  }

  /** The entries found for a topic are those of all matching filters. */
  ghost predicate FoundFor(entries: seq<Entry>, view: View, topic: string) {
    forall filters :: Enumerates(filters, view) ==>
      multiset(entries) == multiset(Scan(filters, view, Split(topic)))
  }

  /** There always is such a list. */
  lemma {:induction false} EnumerationExists(view: View)
    ensures exists filters :: Enumerates(filters, view)
    decreases |view|
  {
    if view == map[] {
      assert Enumerates([], view);
    } else {
      var p :| p in view;
      var rest := view - {p};
      EnumerationExists(rest);
      var filters :| Enumerates(filters, rest);
      DistinctConcat([p], filters);
      assert Enumerates([p] + filters, view);
    }
  }

  lemma {:induction false} MatchingExact(filters: seq<Path>, topic: seq<string>)
    requires Distinct(filters)
    ensures Distinct(Matching(filters, topic))
    ensures forall p :: p in Matching(filters, topic) <==> p in filters && TrieMatches(p, topic)
    decreases |filters|
  {
    if filters != [] {
      var rest := filters[1..];
      DistinctTail(filters);
      MatchingExact(rest, topic);
      if TrieMatches(filters[0], topic) {
        DistinctConcat([filters[0]], Matching(rest, topic));
      }
    }
  }

  /** The entries gathered do not depend, as a multiset, on the order. */
  lemma {:induction false} GatherPermuted(a: seq<Path>, b: seq<Path>, view: View)
    requires Distinct(a) && Distinct(b)
    requires forall p :: p in view ==> (p in a <==> p in b)
    ensures multiset(Gather(a, view)) == multiset(Gather(b, view))
    decreases |a|
  {
    if a == [] {
      GatherNothing(b, view);
    } else {
      var x, rest := a[0], a[1..];
      DistinctTail(a);
      if x in view {
        var j :| 0 <= j < |b| && b[j] == x;
        DistinctWithout(b, j);
        GatherPermuted(rest, Without(b, j), view);
        GatherPick(b, j, view);
      } else {
        GatherPermuted(rest, b, view);
      }
    }
  }

  lemma {:induction false} GatherPick(b: seq<Path>, j: nat, view: View)
    requires j < |b|
    ensures multiset(Gather(b, view)) == multiset(EntriesAt(view, b[j])) + multiset(Gather(Without(b, j), view))
  {
    var x := b[j];
    assert b == b[..j] + ([x] + b[j + 1..]);
    GatherConcat(b[..j], [x] + b[j + 1..], view);
    GatherConcat(b[..j], b[j + 1..], view);
    assert ([x] + b[j + 1..])[1..] == b[j + 1..];
  }

  lemma {:induction false} GatherNothing(b: seq<Path>, view: View)
    requires forall p :: p in view ==> p !in b
    ensures Gather(b, view) == []
    decreases |b|
  {
    if b != [] {
      GatherNothing(b[1..], view);
    }
  }

  /** The indexed walk returns what the scan of all filters returns. */
  lemma {:induction false} WalkIsScan(keys: set<Path>, filters: seq<Path>, view: View, topic: seq<string>)
    requires PrefixClosed(keys) && [] in keys && view.Keys <= keys
    requires Enumerates(filters, view)
    ensures multiset(Gather(Order(keys, topic), view)) == multiset(Scan(filters, view, topic))
  {
    OrderExact(keys, topic);
    MatchingExact(filters, topic);
    GatherPermuted(Order(keys, topic), Matching(filters, topic), view);
  }
}
