/** Topic names and topic filters: splitting, matching and validation
    (src/topic/filter.cpp). */
module Filter {

  // ---------------------------------------------------------------- splitting

  /** Everything before the first '/', or the whole string. */
  function FirstSlash(s: string): (n: nat)
    ensures n <= |s|
    ensures n < |s| ==> s[n] == '/'
  {
    if s == "" || s[0] == '/' then 0 else 1 + FirstSlash(s[1..])
  }

  lemma {:induction false} NoSlashBefore(s: string)
    ensures '/' !in s[..FirstSlash(s)]
    decreases |s|
  {
    if s != "" && s[0] != '/' {
      NoSlashBefore(s[1..]);
      var n := FirstSlash(s);
      assert s[..n] == [s[0]] + s[1..][..n - 1];
    }
  }

  /** The segments that repeated `getline(stream, segment, '/')` yields: an
      empty string has none, and a trailing '/' opens no further segment. */
  function Split(s: string): (segments: seq<string>)
    ensures s != "" ==> segments != []
    decreases |s|
  {
    if s == "" then []
    else
      var n := FirstSlash(s);
      if n == |s| then [s] else [s[..n]] + Split(s[n + 1..])
  }

  /** One `getline` call: where the segment that starts at `pos` ends. */
  method SegmentEnd(path: string, pos: nat) returns (end: nat)
    requires pos < |path|
    ensures pos <= end <= |path|
    ensures end - pos == FirstSlash(path[pos..])
  {
    end := pos;
    while end < |path| && path[end] != '/'
      invariant pos <= end <= |path|
      invariant end - pos + FirstSlash(path[end..]) == FirstSlash(path[pos..])
    {
      assert path[end..][1..] == path[end + 1..];
      end := end + 1;
    }
  }

  /** The loop of `topic::split`. */
  method SplitPath(path: string) returns (segments: seq<string>)
    ensures segments == Split(path)
  {
    segments := [];
    var pos := 0;
    while pos < |path|
      invariant 0 <= pos <= |path|
      invariant segments + Split(path[pos..]) == Split(path)
    {
      var end := SegmentEnd(path, pos);
      SplitStep(path, pos, end);
      segments := segments + [path[pos..end]];
      pos := if end < |path| then end + 1 else end;
    }
    assert path[pos..] == "";
  }

  lemma SplitStep(path: string, pos: nat, end: nat)
    requires pos < |path| && pos <= end <= |path|
    requires end - pos == FirstSlash(path[pos..])
    ensures Split(path[pos..]) == [path[pos..end]] + Split(path[if end < |path| then end + 1 else end..])
  {
    var rest := path[pos..];
    assert rest[..end - pos] == path[pos..end];
    if end < |path| {
      assert rest[end - pos + 1..] == path[end + 1..];
    } else {
      assert path[end..] == "";
      assert rest == path[pos..end];
    }
  }

  lemma {:induction false} FirstSlashAt(s: string, n: nat)
    requires n <= |s| && '/' !in s[..n]
    requires n < |s| ==> s[n] == '/'
    ensures FirstSlash(s) == n
  {
    if n > 0 {
      assert s[0] == s[..n][0];
      assert s[1..][..n - 1] == s[..n][1..];
      FirstSlashAt(s[1..], n - 1);
    }
  }

  // ------------------------------------------------------------------ joining

  /** Segments separated by '/'. */
  function Join(segments: seq<string>): (s: string) {
    if segments == [] then ""
    else if |segments| == 1 then segments[0]
    else segments[0] + "/" + Join(segments[1..])
  }

  /** The name `get_all_retained` rebuilds while it descends: no separator is
      put after an empty prefix. */
  function RejoinFrom(path: string, segments: seq<string>): (s: string)
    decreases |segments|
  {
    if segments == [] then path
    else RejoinFrom(Descend(path, segments[0]), segments[1..])
  }

  function Descend(path: string, segment: string): string {
    if path == "" then segment else path + "/" + segment
  }

  /** A path is canonical when it is non-empty and does not end in '/'. */
  predicate Canonical(s: string) {
    s != "" && s[|s| - 1] != '/'
  }

  /** On canonical paths splitting loses nothing. */
  lemma {:induction false} JoinSplit(s: string)
    requires Canonical(s)
    ensures Join(Split(s)) == s
    decreases |s|
  {
    var n := FirstSlash(s);
    if n < |s| {
      var rest := s[n + 1..];
      assert s == s[..n] + "/" + rest;
      JoinSplit(rest);
      assert Split(s)[1..] == Split(rest);
    }
  }

  /** Two canonical paths with the same segments are the same path. */
  lemma SplitInjective(s: string, t: string)
    requires Canonical(s) && Canonical(t) && Split(s) == Split(t)
    ensures s == t
  {
    JoinSplit(s);
    JoinSplit(t);
  }

  /** Exactly the non-canonical paths are not rebuilt by joining, except for
      the empty path. */
  lemma {:induction false} JoinSplitExactly(s: string)
    ensures Join(Split(s)) == s <==> (s == "" || Canonical(s))
  {
    if Canonical(s) {
      JoinSplit(s);
    } else if s != "" {
      JoinDropsTrailingSlash(s);
    }
  }

  lemma {:induction false} JoinDropsTrailingSlash(s: string)
    requires s != "" && s[|s| - 1] == '/'
    ensures |Join(Split(s))| < |s|
    decreases |s|
  {
    var n := FirstSlash(s);
    NoSlashBefore(s);
    SlashWithin(s, n);
    var rest := s[n + 1..];
    LastOfTail(s, n + 1);
    assert Split(s)[1..] == Split(rest);
    if rest != "" {
      JoinDropsTrailingSlash(rest);
    }
  }

  lemma {:induction false} LastOfTail(s: string, n: nat)
    requires n <= |s|
    ensures s[n..] != "" ==> s[n..][|s| - n - 1] == s[|s| - 1]
  {}

  lemma {:induction false} SlashWithin(s: string, n: nat)
    requires s != "" && s[|s| - 1] == '/' && n <= |s| && '/' !in s[..n]
    ensures n < |s|
  {
    assert s[..|s|] == s && s[|s| - 1] in s;
  }

  ghost predicate PlainSegments(segments: seq<string>) {
    forall i :: 0 <= i < |segments| ==> segments[i] != "" && '/' !in segments[i]
  }

  lemma {:induction false} RejoinIsJoin(path: string, segments: seq<string>)
    requires PlainSegments(segments) && segments != [] && path != ""
    ensures RejoinFrom(path, segments) == path + "/" + Join(segments)
    decreases |segments|
  {
    if |segments| > 1 {
      RejoinIsJoin(path + "/" + segments[0], segments[1..]);
    } else {
      assert RejoinFrom(path + "/" + segments[0], segments[1..]) == path + "/" + segments[0];
    }
  }

  lemma {:induction false} RejoinPlain(segments: seq<string>)
    requires PlainSegments(segments)
    ensures RejoinFrom("", segments) == Join(segments)
  {
    if |segments| > 1 {
      RejoinIsJoin(segments[0], segments[1..]);
    } else if |segments| == 1 {
      assert RejoinFrom(segments[0], segments[1..]) == segments[0];
    }
  }

  lemma {:induction false} SplitJoin(segments: seq<string>)
    requires PlainSegments(segments)
    ensures Split(Join(segments)) == segments
    decreases |segments|
  {
    if segments != [] {
      var s := Join(segments);
      if |segments| == 1 {
        FirstSlashAt(s, |s|);
      } else {
        var head := segments[0];
        assert s[..|head|] == head;
        FirstSlashAt(s, |head|);
        assert s[|head| + 1..] == Join(segments[1..]);
        SplitJoin(segments[1..]);
      }
    }
  }

  lemma {:induction false} SplitHasNoSlash(s: string)
    ensures forall i :: 0 <= i < |Split(s)| ==> '/' !in Split(s)[i]
    decreases |s|
  {
    if s != "" {
      NoSlashBefore(s);
      var n := FirstSlash(s);
      if n < |s| {
        SplitHasNoSlash(s[n + 1..]);
      } else {
        assert s[..n] == s;
      }
    }
  }

  // ----------------------------------------------------------------- matching

  /** One filter level admits one topic level. */
  predicate LevelFits(f: string, t: string) {
    f == "+" || f == t
  }

  /** The loop of `topic::matches`, as a recursion on the segments left. */
  predicate MatchesFrom(t: seq<string>, f: seq<string>) {
    if t == [] || f == [] then t == [] && f == []
    else if f[0] == "#" then true
    else LevelFits(f[0], t[0]) && MatchesFrom(t[1..], f[1..])
  }

  /** Sections 4.7.1.2 and 4.7.1.3 of MQTT 3.1.1: levels agree one by one, and
      a final '#' stands for any number of levels, the parent included. */
  predicate SpecMatches(t: seq<string>, f: seq<string>) {
    if f != [] && f[|f| - 1] == "#" then
      |f| - 1 <= |t| && forall i :: 0 <= i < |f| - 1 ==> LevelFits(f[i], t[i])
    else
      |f| == |t| && forall i :: 0 <= i < |f| ==> LevelFits(f[i], t[i])
  }

  /** '#' occurs in the last position only. */
  predicate HashOnlyLast(f: seq<string>) {
    forall i :: 0 <= i < |f| - 1 ==> f[i] != "#"
  }

  /** The topic is the parent level of a filter that ends in '#'. */
  predicate ParentOfHash(t: seq<string>, f: seq<string>) {
    |f| == |t| + 1 && f[|t|] == "#" && forall i :: 0 <= i < |t| ==> LevelFits(f[i], t[i])
  }

  /** `topic::matches` on strings. */
  predicate Matches(topic: string, filter: string) {
    MatchesFrom(Split(topic), Split(filter))
  }

  method MatchesTopic(topic: string, filter: string) returns (r: bool)
    ensures r == Matches(topic, filter)
  {
    var t := SplitPath(topic);
    var f := SplitPath(filter);
    var ti, fi := 0, 0;
    while ti < |t| && fi < |f|
      invariant 0 <= ti == fi <= |t| && fi <= |f|
      invariant MatchesFrom(t[ti..], f[fi..]) == MatchesFrom(t, f)
    {
      var fs := f[fi];
      assert t[ti..][1..] == t[ti + 1..] && f[fi..][1..] == f[fi + 1..];
      if fs == "#" {
        return true;
      }
      if fs == "+" {
        ti, fi := ti + 1, fi + 1;
        continue;
      }
      if t[ti] != fs {
        return false;
      }
      ti, fi := ti + 1, fi + 1;
    }
    return ti == |t| && fi == |f|;
  }

  /** The broker's string matcher is the standard's relation, except precisely
      on the parent level of a filter that ends in '#'. */
  lemma {:induction false} MatchesVersusSpec(t: seq<string>, f: seq<string>)
    requires HashOnlyLast(f)
    ensures MatchesFrom(t, f) <==> SpecMatches(t, f) && !ParentOfHash(t, f)
    decreases |t|
  {
    if t == [] || f == [] {
    } else if f[0] == "#" {
      assert |f| == 1;
    } else {
      var t', f' := t[1..], f[1..];
      MatchesVersusSpec(t', f');
      assert forall i :: 0 <= i < |f'| ==> f'[i] == f[i + 1];
      assert forall i :: 0 <= i < |t'| ==> t'[i] == t[i + 1];
      SpecPeel(t, f);
      ParentPeel(t, f);
    }
  }

  lemma SpecPeel(t: seq<string>, f: seq<string>)
    requires t != [] && f != [] && f[0] != "#"
    ensures SpecMatches(t, f) <==> LevelFits(f[0], t[0]) && SpecMatches(t[1..], f[1..])
  {
    var t', f' := t[1..], f[1..];
    assert forall i :: 1 <= i < |f| ==> f[i] == f'[i - 1];
    assert forall i :: 1 <= i < |t| ==> t[i] == t'[i - 1];
  }

  lemma ParentPeel(t: seq<string>, f: seq<string>)
    requires t != [] && f != []
    ensures ParentOfHash(t, f) <==> LevelFits(f[0], t[0]) && ParentOfHash(t[1..], f[1..])
  {
    var t', f' := t[1..], f[1..];
    assert forall i :: 1 <= i < |f| ==> f[i] == f'[i - 1];
    assert forall i :: 1 <= i < |t| ==> t[i] == t'[i - 1];
  }

  // --------------------------------------------------------------- validation

  datatype Limits = Limits(maxTopicLength: int, maxTopicDepth: int)

  predicate WithinLimits(s: string, limits: Limits) {
    s != "" && |s| <= limits.maxTopicLength && |Split(s)| <= limits.maxTopicDepth
  }

  /** `is_valid_topic`, as a property of the segments. */
  predicate ValidTopic(s: string, limits: Limits) {
    && WithinLimits(s, limits)
    && forall i :: 0 <= i < |Split(s)| ==> Split(s)[i] !in {"", "+", "#"}
  }

  /** `is_valid_filter`, as a property of the segments: no level is empty,
      '+' and '#' stand alone, and '#' is last. */
  predicate ValidFilter(s: string, limits: Limits) {
    && WithinLimits(s, limits)
    && HashOnlyLast(Split(s))
    && forall i :: 0 <= i < |Split(s)| ==> ValidLevel(Split(s)[i])
  }

  predicate ValidLevel(level: string) {
    && level != ""
    && ('+' in level ==> level == "+")
    && ('#' in level ==> level == "#")
  }

  method IsValidTopic(topic: string, limits: Limits) returns (r: bool)
    ensures r == ValidTopic(topic, limits)
    ensures r <==>
              && 1 <= |topic| <= limits.maxTopicLength && |Split(topic)| <= limits.maxTopicDepth
              && forall i :: 0 <= i < |Split(topic)| ==>
                   Split(topic)[i] != "" && Split(topic)[i] != "+" && Split(topic)[i] != "#"
  {
    if topic == "" { return false; }
    if |topic| > limits.maxTopicLength { return false; }
    var segments := SplitPath(topic);
    if |segments| > limits.maxTopicDepth { return false; }
    for i := 0 to |segments|
      invariant forall k :: 0 <= k < i ==> segments[k] !in {"", "+", "#"}
    {
      if segments[i] == "" { return false; }
      if segments[i] == "+" || segments[i] == "#" { return false; }
    }
    return true;
  }

  /** The early return on a '#' level skips the rest of the loop; the result is
      still the declarative property. */
  method IsValidFilter(filter: string, limits: Limits) returns (r: bool)
    ensures r == ValidFilter(filter, limits)
    ensures r <==>
              && 1 <= |filter| <= limits.maxTopicLength && |Split(filter)| <= limits.maxTopicDepth
              && forall i :: 0 <= i < |Split(filter)| ==>
                   && Split(filter)[i] != ""
                   && ('+' in Split(filter)[i] ==> Split(filter)[i] == "+")
                   && ('#' in Split(filter)[i] ==> Split(filter)[i] == "#" && i == |Split(filter)| - 1)
  {
    if filter == "" { return false; }
    if |filter| > limits.maxTopicLength { return false; }
    var segments := SplitPath(filter);
    if |segments| > limits.maxTopicDepth { return false; }
    for i := 0 to |segments|
      invariant forall k :: 0 <= k < i ==> ValidLevel(segments[k]) && segments[k] != "#"
    {
      var seg := segments[i];
      if seg == "" { return false; }
      if '+' in seg && seg != "+" { return false; }
      if seg == "#" {
        return i == |segments| - 1;
      }
      if '#' in seg { return false; }
    }
    return true;
  }

  /** A valid topic is rebuilt by `get_all_retained` exactly when it is canonical. */
  lemma ValidTopicRejoins(topic: string, limits: Limits)
    requires ValidTopic(topic, limits)
    ensures RejoinFrom("", Split(topic)) == topic <==> Canonical(topic)
    ensures Split(RejoinFrom("", Split(topic))) == Split(topic)
  {
    SplitHasNoSlash(topic);
    RejoinPlain(Split(topic));
    SplitJoin(Split(topic));
    JoinSplitExactly(topic);
  }
}
