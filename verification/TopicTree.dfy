/** The subscription trie (src/topic/topic_tree.cpp): nodes linked on the heap
    and changed in place. A ghost map from paths to nodes describes the whole
    structure at once, so no operation reasons about nested footprints. */
module TopicTree {
  import opened Wrappers
  import opened Octets
  import opened Filter
  import opened TrieSpec

  datatype Retained = Retained(payload: Bytes, qos: nat)

  type RetainedView = map<Path, Retained>

  // ------------------------------------------------------------ specification

  /** `weak_ptr::lock`: the session if it is still alive. */
  function Lock(session: nat, expired: set<nat>): Option<nat> {
    if session in expired then None else Some(session)
  }

  /** The subscriber list after `subscribe`: the entry of a live session is
      overwritten, any other entry is appended. */
  function Subscribed(es: seq<Entry>, e: Entry, expired: set<nat>): (r: seq<Entry>)
    ensures r != []
  {
    if es == [] then [e]
    else if e.session !in expired && es[0].session == e.session then [e] + es[1..]
    else [es[0]] + Subscribed(es[1..], e, expired)
  }

  /** The subscriber list after `unsubscribe`: every entry whose session locks
      to the given one is gone. */
  function Unsubscribed(es: seq<Entry>, session: Option<nat>, expired: set<nat>): seq<Entry> {
    if es == [] then []
    else if Lock(es[0].session, expired) == session then Unsubscribed(es[1..], session, expired)
    else [es[0]] + Unsubscribed(es[1..], session, expired)
  }

  function Put(view: View, p: Path, es: seq<Entry>): View {
    if es == [] then view - {p} else view[p := es]
  }

  function Find(rv: RetainedView, p: Path): Option<Retained> {
    if p in rv then Some(rv[p]) else None
  }

  function AfterSubscribe(view: View, p: Path, e: Entry, expired: set<nat>): View {
    Put(view, p, Subscribed(EntriesAt(view, p), e, expired))
  }

  function AfterUnsubscribe(view: View, p: Path, session: Option<nat>, expired: set<nat>): View {
    Put(view, p, Unsubscribed(EntriesAt(view, p), session, expired))
  }

  predicate AllLiteral(p: Path) {
    forall i :: 0 <= i < |p| ==> p[i].Lit?
  }

  ghost function Stored(rv: RetainedView): set<Path> {
    set p | p in rv && rv[p].payload != []
  }

  /** The retained table after `set_retained`, and whether it accepts. */
  predicate Accepts(rv: RetainedView, p: Path, msg: Retained, count: int, max: int) {
    msg.payload == [] || (p in rv && rv[p].payload != []) || count < max
  }

  /** The segments a path stands for. */
  function Label(e: Edge): string {
    match e
    case Lit(s) => s
    case Plus => "+"
    case Hash => "#"
  }

  function Labels(p: Path): seq<string> {
    seq(|p|, i requires 0 <= i < |p| => Label(p[i]))
  }

  /** The listing of the messages retained at `paths`, below a node at depth
      `n` whose rebuilt name is `name`. */
  function Listed(paths: seq<Path>, n: nat, name: string, rv: RetainedView): seq<(string, Retained)> {
    if paths == [] then []
    else
      var q := paths[0];
      (if q in rv && n <= |q| then [(RejoinFrom(name, Labels(q[n..])), rv[q])] else [])
      + Listed(paths[1..], n, name, rv)
  }

  lemma {:induction false} ListedSize(paths: seq<Path>, n: nat, name: string, rv: RetainedView)
    requires forall q :: q in paths ==> q in rv && n <= |q|
    ensures |Listed(paths, n, name, rv)| == |paths|
    decreases |paths|
  {
    if paths != [] {
      assert paths[0] in paths;
      ListedSize(paths[1..], n, name, rv);
    }
  }

  lemma {:induction false} ListedIs(paths: seq<Path>, n: nat, name: string, rv: RetainedView, i: nat)
    requires forall q :: q in paths ==> q in rv && n <= |q|
    requires i < |paths| == |Listed(paths, n, name, rv)|
    ensures paths[i] in paths
    ensures Listed(paths, n, name, rv)[i] == (RejoinFrom(name, Labels(paths[i][n..])), rv[paths[i]])
    decreases |paths|
  {
    var rest := paths[1..];
    assert paths[0] in paths;
    if i > 0 {
      assert rest[i - 1] == paths[i];
      ListedSize(rest, n, name, rv);
      ListedIs(rest, n, name, rv, i - 1);
    }
  }

  /** Name and message of every path of `order`, in that order. */
  ghost predicate IsListing(r: seq<(string, Retained)>, order: seq<Path>, rv: RetainedView) {
    && |r| == |order|
    && forall i :: 0 <= i < |r| ==>
         order[i] in rv && r[i] == (RejoinFrom("", Labels(order[i])), rv[order[i]])
  }

  /** Exactly the messages at `keys`, each once, in some order. */
  ghost predicate Lists(r: seq<(string, Retained)>, keys: set<Path>, rv: RetainedView) {
    exists order :: ListsIn(r, order, keys, rv)
  }

  ghost predicate ListsIn(r: seq<(string, Retained)>, order: seq<Path>, keys: set<Path>, rv: RetainedView) {
    IsListing(r, order, rv) && Distinct(order) && forall q :: q in order <==> q in keys
  }

  lemma {:induction false} ListedWhole(order: seq<Path>, rv: RetainedView)
    requires forall q :: q in order ==> q in rv
    ensures IsListing([] + Listed(order, 0, "", rv), order, rv)
  {
    var r := [] + Listed(order, 0, "", rv);
    ListedSize(order, 0, "", rv);
    forall i | 0 <= i < |order|
      ensures order[i] in rv && r[i] == (RejoinFrom("", Labels(order[i])), rv[order[i]])
    {
      ListedIs(order, 0, "", rv, i);
      assert order[i][0..] == order[i];
    }
  }

  lemma {:induction false} ListedBelow(paths: seq<Path>, n: nat, name: string, e: Edge, rv: RetainedView)
    requires forall q :: q in paths ==> n < |q| && q[n] == e
    ensures Listed(paths, n + 1, Descend(name, Label(e)), rv) == Listed(paths, n, name, rv)
    decreases |paths|
  {
    if paths != [] {
      var q := paths[0];
      assert q in paths;
      assert Labels(q[n..])[1..] == Labels(q[n + 1..]);
      ListedBelow(paths[1..], n, name, e, rv);
    }
  }

  lemma {:induction false} ListedConcat(a: seq<Path>, b: seq<Path>, n: nat, name: string, rv: RetainedView)
    ensures Listed(a + b, n, name, rv) == Listed(a, n, name, rv) + Listed(b, n, name, rv)
    decreases |a|
  {
    if a == [] {
      assert a + b == b;
    } else {
      assert (a + b)[1..] == a[1..] + b;
      ListedConcat(a[1..], b, n, name, rv);
    }
  }

  lemma {:induction false} StoredAfter(rv: RetainedView, p: Path, msg: Retained)
    ensures var was, now := p in rv && rv[p].payload != [], msg.payload != [];
            |Stored(rv[p := msg])| == |Stored(rv)| + (if now then 1 else 0) - (if was then 1 else 0)
  {
    var rest := Stored(rv) - {p};
    assert Stored(rv) == if p in Stored(rv) then rest + {p} else rest;
    assert Stored(rv[p := msg]) == if msg.payload != [] then rest + {p} else rest;
  }

  /** `q` is `p` or lies below one of the literal children `done` of `p`. */
  ghost predicate Under(q: Path, p: Path, done: set<string>) {
    p <= q && (q == p || (q[|p|].Lit? && q[|p|].segment in done))
  }

  /** `order` has every retained path below `p` once. */
  ghost predicate ListsBelow(order: seq<Path>, p: Path, rv: RetainedView) {
    Distinct(order) && forall q :: q in order <==> q in rv && p <= q
  }

  /** The same below some of its literal children, and at `p` itself. */
  ghost predicate ListsUnder(order: seq<Path>, p: Path, done: set<string>, rv: RetainedView) {
    Distinct(order) && forall q :: q in order <==> q in rv && Under(q, p, done)
  }

  lemma {:induction false} UnderMore(q: Path, p: Path, done: set<string>, seg: string)
    requires seg !in done
    ensures Under(q, p, done + {seg}) <==> Under(q, p, done) || p + [Lit(seg)] <= q
    ensures !(Under(q, p, done) && p + [Lit(seg)] <= q)
  {
    BelowChild(p, Lit(seg), q);
  }

  lemma {:induction false} ListingGrows(order: seq<Path>, sub: seq<Path>, p: Path, done: set<string>, seg: string,
                                        rv: RetainedView)
    requires ListsUnder(order, p, done, rv) && ListsBelow(sub, p + [Lit(seg)], rv) && seg !in done
    ensures ListsUnder(order + sub, p, done + {seg}, rv)
  {
    forall q ensures q in order + sub <==> q in rv && Under(q, p, done + {seg}) {
      UnderMore(q, p, done, seg);
    }
    forall q | q in order ensures q !in sub {
      UnderMore(q, p, done, seg);
    }
    DistinctConcat(order, sub);
  }

  /** What the loop over the children has gathered grows accordingly. */
  lemma {:induction false} ListedGrows(order: seq<Path>, sub: seq<Path>, p: Path, seg: string, name: string,
                                       rv: RetainedView, result: seq<(string, Retained)>)
    requires ListsBelow(sub, p + [Lit(seg)], rv)
    ensures result + Listed(order, |p|, name, rv) + Listed(sub, |p| + 1, Descend(name, seg), rv)
         == result + Listed(order + sub, |p|, name, rv)
  {
    forall q | q in sub ensures |p| < |q| && q[|p|] == Lit(seg) {
      BelowChild(p, Lit(seg), q);
    }
    ListedBoth(order, sub, |p|, name, Lit(seg), rv, result);
  }

  lemma {:induction false} ListedBoth(a: seq<Path>, b: seq<Path>, n: nat, name: string, e: Edge,
                                      rv: RetainedView, result: seq<(string, Retained)>)
    requires forall q :: q in b ==> n < |q| && q[n] == e
    ensures result + Listed(a, n, name, rv) + Listed(b, n + 1, Descend(name, Label(e)), rv)
         == result + Listed(a + b, n, name, rv)
  {
    ListedBelow(b, n, name, e, rv);
    ListedConcat(a, b, n, name, rv);
  }

  lemma {:induction false} BelowChild(p: Path, e: Edge, q: Path)
    ensures p + [e] <= q <==> p < q && q[|p|] == e
  {
    if p < q && q[|p|] == e {
      assert q[..|p| + 1] == p + [e];
    }
  }

  lemma {:induction false} NoneBelowPlus(p: Path, sub: seq<Path>, rv: RetainedView)
    requires forall q :: q in rv ==> AllLiteral(q)
    requires ListsBelow(sub, p + [Plus], rv)
    ensures sub == []
  {
    assert sub != [] ==> sub[0] in sub;
    forall q | q in rv ensures q !in sub {
      LiteralAvoidsPlus(p, q);
    }
  }

  lemma {:induction false} LiteralAvoidsPlus(p: Path, q: Path)
    requires AllLiteral(q)
    ensures !(p + [Plus] <= q)
  {
    assert (p + [Plus])[|p|] == Plus;
    assert |p| < |q| ==> q[|p|].Lit?;
  }

  ghost function Depth(keys: set<Path>): (d: nat)
    ensures forall p :: p in keys ==> |p| <= d
  {
    if keys == {} then 0
    else
      var p :| p in keys;
      var d := Depth(keys - {p});
      if |p| <= d then d else |p|
  }

  lemma {:induction false} OneLess(all: set<string>, todo: set<string>, x: string)
    requires x in todo && todo <= all
    ensures all - (todo - {x}) == (all - todo) + {x}
  {}

  lemma {:induction false} OneLonger(path: Path, i: nat)
    requires i < |path|
    ensures path[..i + 1] == path[..i] + [path[i]]
  {}

  // ------------------------------------------------------------------- classes

  class Node {
    /** Where the node hangs; it never moves. */
    ghost const path: Path
    var children: map<string, Node>
    var singleWild: Node?
    var multiWild: Node?
    var subscribers: seq<Entry>
    var retained: Option<Retained>

    constructor (ghost path: Path)
      ensures this.path == path
      ensures children == map[] && singleWild == null && multiWild == null
      ensures subscribers == [] && retained == None
    {
      this.path := path;
      children := map[];
      singleWild := null;
      multiWild := null;
      subscribers := [];
      retained := None;
    }

    function Child(e: Edge): Node?
      reads `children, `singleWild, `multiWild
    {
      match e
      case Lit(s) => if s in children then children[s] else null
      case Plus => singleWild
      case Hash => multiWild
    }

    /** Stores a node in the slot that `e` names. */
    method Hang(e: Edge, child: Node)
      modifies `children, `singleWild, `multiWild
      ensures Child(e) == child
      ensures forall d :: d != e ==> Child(d) == old(Child(d))
    {
      match e {
        case Lit(s) => children := children[s := child];
        case Plus => singleWild := child;
        case Hash => multiWild := child;
      }
    }
  }

  class TopicTree {
    const root: Node
    const maxRetained: int
    var retainedCount: int
    ghost var at: map<Path, Node>
    ghost var nodes: set<Node>
    ghost var entries: View
    ghost var messages: RetainedView

    /** The nodes reachable from the root form a tree, one node per path. */
    ghost predicate Shape()
      reads this, nodes
    {
      && [] in at && at[[]] == root
      && PrefixClosed(at.Keys)
      && (forall p :: p in at ==> at[p] in nodes && at[p].path == p)
      && (forall p, e {:trigger at[p].Child(e)} :: p in at ==>
            at[p].Child(e) == if p + [e] in at then at[p + [e]] else null)
    }

    /** The entries in the nodes are the ghost view, and nothing else is in it. */
    ghost predicate EntriesOk()
      reads this, nodes
    {
      && (forall p :: p in at ==> at[p] in nodes && at[p].subscribers == EntriesAt(entries, p))
      && (forall p :: p in entries ==> p in at && entries[p] != [])
    }

    /** Retained messages sit in the nodes, below literal links only. */
    ghost predicate RetainedOk()
      reads this, nodes
    {
      && (forall p :: p in at ==> at[p] in nodes && at[p].retained == Find(messages, p))
      && (forall p :: p in messages ==> p in at && AllLiteral(p))
    }

    /** The non-empty ones are counted and limited. */
    ghost predicate CountOk()
      reads this
    {
      && retainedCount == |Stored(messages)|
      && (retainedCount == 0 || retainedCount <= maxRetained)
    }

    ghost predicate Valid()
      reads this, nodes
    {
      Shape() && EntriesOk() && RetainedOk() && CountOk()
    }

    constructor (maxRetained: int)
      ensures Valid()
      ensures this.maxRetained == maxRetained
      ensures entries == map[] && messages == map[]
      ensures fresh(nodes)
    {
      root := new Node([]);
      this.maxRetained := maxRetained;
      retainedCount := 0;
      entries, messages := map[], map[];
      new;
      at := map[[] := root];
      nodes := {root};
    }

    /** One link of the descent in `subscribe` and `set_retained`: follow it,
        or hang a new empty node on it. */
    method EnsureChild(parent: Node, e: Edge, ghost p: Path) returns (child: Node)
      requires Valid() && p in at && at[p] == parent
      modifies this`at, this`nodes, parent`children, parent`singleWild, parent`multiWild
      ensures Valid()
      ensures p + [e] in old(at) ==> child == old(at)[p + [e]]
      ensures at == old(at)[p + [e] := child]
      ensures fresh(nodes - old(nodes))
    {
      var found := parent.Child(e);
      if found != null {
        child := found;
      } else {
        child := AddChild(parent, e, p);
      }
    }

    method AddChild(parent: Node, e: Edge, ghost p: Path) returns (child: Node)
      requires Valid() && p in at && at[p] == parent && p + [e] !in at
      modifies this`at, this`nodes, parent`children, parent`singleWild, parent`multiWild
      ensures Valid()
      ensures at == old(at)[p + [e] := child]
      ensures nodes == old(nodes) + {child} && fresh(child)
    {
      child := new Node(p + [e]);
      parent.Hang(e, child);
      at := at[p + [e] := child];
      nodes := nodes + {child};
      GrownShape(p, e, child);
      GrownContents(p + [e], child);
    }

    twostate lemma GrownContents(q0: Path, new child: Node)
      requires old(Valid()) && q0 !in old(at)
      requires at == old(at)[q0 := child] && nodes == old(nodes) + {child}
      requires child.subscribers == [] && child.retained == None
      requires entries == old(entries) && messages == old(messages) && retainedCount == old(retainedCount)
      requires forall n :: n in old(nodes) ==> n.subscribers == old(n.subscribers) && n.retained == old(n.retained)
      ensures EntriesOk() && RetainedOk() && CountOk()
    {}

    twostate lemma GrownShape(p: Path, new e: Edge, new child: Node)
      requires old(Shape()) && p in old(at) && p + [e] !in old(at)
      requires at == old(at)[p + [e] := child] && nodes == old(nodes) + {child} && fresh(child)
      requires forall n :: n in old(nodes) && n != old(at[p]) ==> unchanged(n`children, n`singleWild, n`multiWild)
      requires forall d :: d != e ==> at[p].Child(d) == old(at[p].Child(d))
      requires at[p].Child(e) == child && child.path == p + [e]
      requires forall d :: child.Child(d) == null
      ensures Shape()
    {
      assert forall q :: q in old(at) && q != p ==> at[q] != at[p];
      forall q, d | q in at ensures at[q].Child(d) == if q + [d] in at then at[q + [d]] else null {
        assert (q + [d])[..|q|] == q;
        assert (p + [e])[..|p|] == p;
      }
    }

    /** The descent of `subscribe` and `set_retained`. */
    method Ensure(path: Path) returns (node: Node)
      requires Valid()
      modifies this`at, this`nodes, nodes
      ensures Valid()
      ensures path in at && node == at[path]
      ensures fresh(nodes - old(nodes))
    {
      node := root;
      assert path[..0] == [];
      for i := 0 to |path|
        invariant Valid()
        invariant path[..i] in at && node == at[path[..i]]
        invariant fresh(nodes - old(nodes))
      {
        OneLonger(path, i);
        node := EnsureChild(node, path[i], path[..i]);
      }
      assert path[..|path|] == path;
    }

    /** The descent of `unsubscribe` and `get_retained`: null when a link is missing. */
    method Locate(path: Path) returns (node: Node?)
      requires Shape()
      ensures node == if path in at then at[path] else null
    {
      var here := root;
      assert path[..0] == [];
      for i := 0 to |path|
        invariant path[..i] in at && here == at[path[..i]]
      {
        OneLonger(path, i);
        var next := here.Child(path[i]);
        if next == null {
          if path in at { PrefixIn(at.Keys, path[..i + 1], path); }
          return null;
        }
        here := next;
      }
      assert path[..|path|] == path;
      return here;
    }

    method SetSubscribers(node: Node, es: seq<Entry>, ghost p: Path)
      requires Valid() && p in at && at[p] == node
      modifies this`entries, node`subscribers
      ensures Valid() && nodes == old(nodes)
      ensures entries == Put(old(entries), p, es)
    {
      node.subscribers := es;
      entries := Put(entries, p, es);
      assert forall q :: q in at && q != p ==> at[q] != node;
    }

    method Subscribe(filter: string, entry: Entry, expired: set<nat>)
      requires Valid()
      modifies this`at, this`nodes, this`entries, nodes
      ensures Valid() && fresh(nodes - old(nodes))
      ensures entries == AfterSubscribe(old(entries), FilterPath(Split(filter)), entry, expired)
    {
      var segments := SplitPath(filter);
      SubscribeAt(FilterPath(segments), entry, expired);
    }

    method SubscribeAt(path: Path, entry: Entry, expired: set<nat>)
      requires Valid()
      modifies this`at, this`nodes, this`entries, nodes
      ensures Valid() && fresh(nodes - old(nodes))
      ensures entries == AfterSubscribe(old(entries), path, entry, expired)
    {
      var node := Ensure(path);
      var es := AddEntry(node.subscribers, entry, expired);
      SetSubscribers(node, es, path);
    }

    method Unsubscribe(filter: string, session: Option<nat>, expired: set<nat>)
      requires Valid()
      modifies this`entries, nodes
      ensures Valid()
      ensures entries == AfterUnsubscribe(old(entries), FilterPath(Split(filter)), session, expired)
    {
      var segments := SplitPath(filter);
      UnsubscribeAt(FilterPath(segments), session, expired);
    }

    method UnsubscribeAt(path: Path, session: Option<nat>, expired: set<nat>)
      requires Valid()
      modifies this`entries, nodes
      ensures Valid()
      ensures entries == AfterUnsubscribe(old(entries), path, session, expired)
    {
      var node := Locate(path);
      if node == null {
        return;
      }
      var es := RemoveEntries(node.subscribers, session, expired);
      SetSubscribers(node, es, path);
    }

    /** `collect_subscribers`: the entries of a node and of its '#' child. */
    method CollectSubscribers(node: Node, result: seq<Entry>, ghost p: Path) returns (r: seq<Entry>)
      requires Shape() && EntriesOk() && p in at && at[p] == node
      ensures r == result + Gather(CollectAt(at.Keys, p), entries)
    {
      GatherCollect(at.Keys, p, entries);
      assert node.Child(Hash) == node.multiWild;
      r := result + node.subscribers;
      if node.multiWild != null {
        r := r + node.multiWild.subscribers;
      }
    }

    method SetRetained(topic: string, msg: Retained) returns (ok: bool)
      requires Valid()
      modifies this`at, this`nodes, this`messages, this`retainedCount, nodes
      ensures Valid() && fresh(nodes - old(nodes))
      ensures entries == old(entries)
      ensures var p := TopicPath(Split(topic));
              && ok == Accepts(old(messages), p, msg, |Stored(old(messages))|, maxRetained)
              && (!ok <==> msg.payload != [] && p !in Stored(old(messages)) && |Stored(old(messages))| >= maxRetained)
              && messages == if ok then old(messages)[p := msg] else old(messages)
    {
      var segments := SplitPath(topic);
      ok := RetainAt(TopicPath(segments), msg);
    }

    method RetainAt(path: Path, msg: Retained) returns (ok: bool)
      requires Valid() && AllLiteral(path)
      modifies this`at, this`nodes, this`messages, this`retainedCount, nodes
      ensures Valid() && fresh(nodes - old(nodes))
      ensures ok == Accepts(old(messages), path, msg, |Stored(old(messages))|, maxRetained)
      ensures messages == if ok then old(messages)[path := msg] else old(messages)
    {
      var node := Ensure(path);
      ok := StoreMessage(node, msg, path);
    }

    method StoreMessage(node: Node, msg: Retained, ghost p: Path) returns (ok: bool)
      requires Valid() && p in at && at[p] == node && AllLiteral(p)
      modifies this`messages, this`retainedCount, node`retained
      ensures Valid() && nodes == old(nodes)
      ensures ok == Accepts(old(messages), p, msg, |Stored(old(messages))|, maxRetained)
      ensures messages == if ok then old(messages)[p := msg] else old(messages)
    {
      var wasEmpty := node.retained == None || node.retained.value.payload == [];
      var newEmpty := msg.payload == [];
      StoredAfter(messages, p, msg);
      if newEmpty && !wasEmpty {
        retainedCount := retainedCount - 1;
      } else if !newEmpty && wasEmpty {
        if retainedCount >= maxRetained {
          return false;
        }
        retainedCount := retainedCount + 1;
      }
      WriteMessage(node, msg, p);
      return true;
    }

    method WriteMessage(node: Node, msg: Retained, ghost p: Path)
      requires Shape() && EntriesOk() && RetainedOk()
      requires p in at && at[p] == node && AllLiteral(p)
      modifies this`messages, node`retained
      ensures Shape() && EntriesOk() && RetainedOk()
      ensures messages == old(messages)[p := msg]
    {
      node.retained := Some(msg);
      messages := messages[p := msg];
      assert forall q :: q in at && q != p ==> at[q] != node;
    }

    method GetRetained(topic: string) returns (r: Option<Retained>)
      requires Valid()
      ensures r == Find(messages, TopicPath(Split(topic)))
    {
      var segments := SplitPath(topic);
      var node := Locate(TopicPath(segments));
      if node == null {
        return None;
      }
      return node.retained;
    }

    /** Lists every retained message, each once, under its rebuilt name. */
    method GetAllRetained() returns (r: seq<(string, Retained)>)
      requires Valid()
      ensures Lists(r, messages.Keys, messages)
    {
      ghost var bound, rv := Depth(at.Keys), messages;
      ghost var order;
      r, order := CollectRetained(root, "", [], [], 0, bound, rv);
      ListedWhole(order, rv);
      assert ListsIn(r, order, rv.Keys, rv);
    }

    /** The recursive `get_all_retained`: literal children in any order, then
        the '+' child; '#' children are not entered. */
    method CollectRetained(node: Node, name: string, result: seq<(string, Retained)>, ghost p: Path,
                           ghost depth: nat, ghost bound: nat, ghost rv: RetainedView)
      returns (r: seq<(string, Retained)>, ghost order: seq<Path>)
      requires Shape() && RetainedOk() && p in at && at[p] == node && rv == messages && depth == |p|
      requires forall q :: q in at ==> |q| <= bound
      ensures ListsBelow(order, p, rv)
      ensures r == result + Listed(order, depth, name, rv)
      decreases bound - depth, 2
    {
      r, order := result, [];
      if node.retained.Some? {
        r, order := r + [(name, node.retained.value)], [p];
        assert p[|p|..] == [];
      }
      ghost var sub;
      r, sub := CollectLiteral(node, name, r, p, depth, bound, rv, order, result);
      order := sub;
      UnderAll(node, p);
      if node.singleWild != null {
        assert node.Child(Plus) == node.singleWild;
        r, sub := CollectRetained(node.singleWild, Descend(name, "+"), r, p + [Plus], depth + 1, bound, rv);
        NoneBelowPlus(p, sub, rv);
      }
    }

    /** Its loop over the literal children. */
    method CollectLiteral(node: Node, name: string, acc: seq<(string, Retained)>, ghost p: Path, ghost depth: nat,
                          ghost bound: nat, ghost rv: RetainedView, ghost own: seq<Path>,
                          ghost result: seq<(string, Retained)>)
      returns (r: seq<(string, Retained)>, ghost order: seq<Path>)
      requires Shape() && RetainedOk() && p in at && at[p] == node && rv == messages && depth == |p|
      requires forall q :: q in at ==> |q| <= bound
      requires ListsUnder(own, p, {}, rv)
      requires acc == result + Listed(own, depth, name, rv)
      ensures ListsUnder(order, p, node.children.Keys, rv)
      ensures r == result + Listed(order, depth, name, rv)
      decreases bound - depth, 1
    {
      r, order := acc, own;
      var todo := node.children.Keys;
      assert todo - todo == {};
      while todo != {}
        invariant todo <= node.children.Keys
        invariant ListsUnder(order, p, node.children.Keys - todo, rv)
        invariant r == result + Listed(order, depth, name, rv)
        decreases todo
      {
        var seg :| seg in todo;
        OneLess(node.children.Keys, todo, seg);
        r, order := CollectChild(node, seg, name, r, p, depth, bound, rv, order, node.children.Keys - todo, result);
        todo := todo - {seg};
      }
    }

    /** One round of that loop. */
    method CollectChild(node: Node, seg: string, name: string, acc: seq<(string, Retained)>, ghost p: Path,
                        ghost depth: nat, ghost bound: nat, ghost rv: RetainedView, ghost before: seq<Path>,
                        ghost done: set<string>, ghost result: seq<(string, Retained)>)
      returns (r: seq<(string, Retained)>, ghost order: seq<Path>)
      requires Shape() && RetainedOk() && p in at && at[p] == node && rv == messages && depth == |p|
      requires forall q :: q in at ==> |q| <= bound
      requires seg in node.children && seg !in done && ListsUnder(before, p, done, rv)
      requires acc == result + Listed(before, depth, name, rv)
      ensures ListsUnder(order, p, done + {seg}, rv)
      ensures r == result + Listed(order, depth, name, rv)
      decreases bound - depth, 0
    {
      ghost var sub;
      assert node.Child(Lit(seg)) == node.children[seg];
      r, sub := CollectRetained(node.children[seg], Descend(name, seg), acc, p + [Lit(seg)], depth + 1, bound, rv);
      ListingGrows(before, sub, p, done, seg, rv);
      ListedGrows(before, sub, p, seg, name, rv, result);
      order := before + sub;
    }

    /** Every retained message below a node is below one of its literal children. */
    lemma UnderAll(node: Node, p: Path)
      requires Shape() && RetainedOk() && p in at && at[p] == node
      ensures forall q :: q in messages ==> (Under(q, p, node.children.Keys) <==> p <= q)
    {
      forall q | q in messages && p < q ensures Under(q, p, node.children.Keys) {
        var e := q[|p|];
        assert p + [e] == q[..|p| + 1];
        PrefixIn(at.Keys, p + [e], q);
        assert AllLiteral(q);
        assert node.Child(e) == at[p + [e]];
      }
    }

    ghost predicate OnPath(frame: (Node, nat), p: Path, topic: seq<string>)
      reads this
    {
      p in at && at[p] == frame.0 && |p| == frame.1 && Fits(p, topic)
    }

    /** What popping one frame collects. */
    method CollectFrame(node: Node, index: nat, segments: seq<string>, result: seq<Entry>, ghost p: Path)
      returns (r: seq<Entry>)
      requires Shape() && EntriesOk() && OnPath((node, index), p, segments)
      ensures r == result + Gather(Emit(at.Keys, p, segments), entries)
    {
      if index >= |segments| {
        r := CollectSubscribers(node, result, p);
      } else if node.multiWild != null {
        assert node.Child(Hash) == node.multiWild;
        r := CollectSubscribers(node.multiWild, result, p + [Hash]);
      } else {
        assert node.Child(Hash) == null;
        r := result;
      }
    }

    ghost predicate StackOk(stack: seq<(Node, nat)>, paths: seq<Path>, topic: seq<string>)
      reads this
    {
      |paths| == |stack| && forall k :: 0 <= k < |stack| ==> OnPath(stack[k], paths[k], topic)
    }

    method Push(child: Node?, index: nat, stack: seq<(Node, nat)>,
                ghost p: Path, ghost paths: seq<Path>, ghost topic: seq<string>)
      returns (stack': seq<(Node, nat)>, ghost paths': seq<Path>)
      requires StackOk(stack, paths, topic)
      requires child != null ==> OnPath((child, index), p, topic)
      ensures StackOk(stack', paths', topic)
      ensures AllFrames(at.Keys, paths', topic)
           == (if child == null then [] else Frames(at.Keys, p, topic)) + AllFrames(at.Keys, paths, topic)
    {
      stack', paths' := stack, paths;
      if child != null {
        AllFramesPush(at.Keys, paths, p, topic);
        stack', paths' := stack + [(child, index)], paths + [p];
      }
    }

    /** What popping one frame pushes: the literal child, then the '+' child. */
    method PushChildren(node: Node, index: nat, segments: seq<string>, stack: seq<(Node, nat)>,
                        ghost p: Path, ghost paths: seq<Path>)
      returns (stack': seq<(Node, nat)>, ghost paths': seq<Path>)
      requires Shape() && OnPath((node, index), p, segments) && StackOk(stack, paths, segments)
      ensures StackOk(stack', paths', segments)
      ensures [p] + AllFrames(at.Keys, paths', segments)
           == Frames(at.Keys, p, segments) + AllFrames(at.Keys, paths, segments)
    {
      stack', paths' := stack, paths;
      if index < |segments| {
        FramesThen(at.Keys, p, segments, AllFrames(at.Keys, paths, segments));
        var seg := segments[index];
        stack', paths' := Push(node.Child(Lit(seg)), index + 1, stack', p + [Lit(seg)], paths', segments);
        stack', paths' := Push(node.Child(Plus), index + 1, stack', p + [Plus], paths', segments);
      }
    }

    /** The stack walk of `lookup`. The result is what a scan of all filters
        finds, and no node is visited twice. */
    method Lookup(topic: string) returns (result: seq<Entry>, ghost visited: seq<Path>)
      requires Valid()
      ensures Distinct(visited)
      ensures forall q :: q in visited <==> q in at && Fits(q, Split(topic))
      ensures FoundFor(result, entries, topic)
    {
      var segments := SplitPath(topic);
      result, visited := Walk(segments);
      FramesExact(at.Keys, [], segments);
      forall filters | Enumerates(filters, entries)
        ensures multiset(result) == multiset(Scan(filters, entries, segments))
      {
        WalkIsScan(at.Keys, filters, entries, segments);
      }
    }

    ghost predicate WalkOk(stack: seq<(Node, nat)>, paths: seq<Path>, visited: seq<Path>,
                           result: seq<Entry>, topic: seq<string>)
      reads this
    {
      StackOk(stack, paths, topic) && Walked(at.Keys, paths, visited, result, entries, topic)
    }

    method Walk(segments: seq<string>) returns (result: seq<Entry>, ghost visited: seq<Path>)
      requires Shape() && EntriesOk()
      ensures visited == Frames(at.Keys, [], segments)
      ensures result == Gather(Order(at.Keys, segments), entries)
    {
      result, visited := [], [];
      var stack: seq<(Node, nat)> := [(root, 0)];
      ghost var paths: seq<Path> := [[]];
      AllFramesPush(at.Keys, [], [], segments);
      while stack != []
        invariant WalkOk(stack, paths, visited, result, segments)
        decreases |Frames(at.Keys, [], segments)| - |visited|
      {
        ghost var p := paths[|paths| - 1];
        ghost var paths0, result0 := paths, result;
        stack, paths, result := PopFrame(segments, stack, result, paths);
        WalkAdvances(at.Keys, paths0, visited, result0, paths, result, entries, segments);
        visited := visited + [p];
      }
    }

    /** One round of the loop in `lookup`. */
    method PopFrame(segments: seq<string>, stack: seq<(Node, nat)>, result: seq<Entry>, ghost paths: seq<Path>)
      returns (stack': seq<(Node, nat)>, ghost paths': seq<Path>, result': seq<Entry>)
      requires Shape() && EntriesOk() && stack != [] && StackOk(stack, paths, segments)
      ensures StackOk(stack', paths', segments)
      ensures [paths[|paths| - 1]] + AllFrames(at.Keys, paths', segments) == AllFrames(at.Keys, paths, segments)
      ensures result' == result + Gather(Emit(at.Keys, paths[|paths| - 1], segments), entries)
    {
      var top := |stack| - 1;
      var (node, index) := stack[top];
      assert OnPath(stack[top], paths[top], segments);
      result' := CollectFrame(node, index, segments, result, paths[top]);
      stack', paths' := PushChildren(node, index, segments, stack[..top], paths[top], paths[..top]);
    }
  }

  /** `find_if` and the overwrite or append that follows it. */
  method AddEntry(es: seq<Entry>, entry: Entry, expired: set<nat>) returns (r: seq<Entry>)
    ensures r == Subscribed(es, entry, expired)
  {
    var it := 0;
    while it < |es| && !(entry.session !in expired && es[it].session !in expired && es[it].session == entry.session)
      invariant 0 <= it <= |es|
      invariant forall k :: 0 <= k < it ==> entry.session in expired || es[k].session != entry.session
    {
      it := it + 1;
    }
    SubscribedAt(es, entry, expired, it);
    if it < |es| {
      r := es[it := es[it].(qos := entry.qos)];
    } else {
      r := es + [entry];
    }
  }

  /** The first entry of a live session is the one that is overwritten. */
  lemma {:induction false} SubscribedAt(es: seq<Entry>, e: Entry, expired: set<nat>, it: nat)
    requires it <= |es|
    requires forall k :: 0 <= k < it ==> e.session in expired || es[k].session != e.session
    requires it < |es| ==> e.session !in expired && es[it].session == e.session
    ensures Subscribed(es, e, expired) == if it < |es| then es[it := e] else es + [e]
    decreases |es|
  {
    if it > 0 {
      SubscribedAt(es[1..], e, expired, it - 1);
    }
  }

  /** `remove_if` and `erase`. */
  method RemoveEntries(es: seq<Entry>, session: Option<nat>, expired: set<nat>) returns (r: seq<Entry>)
    ensures r == Unsubscribed(es, session, expired)
  {
    r := [];
    for i := 0 to |es|
      invariant r + Unsubscribed(es[i..], session, expired) == Unsubscribed(es, session, expired)
    {
      assert es[i..][1..] == es[i + 1..];
      if Lock(es[i].session, expired) != session {
        r := r + [es[i]];
      }
    }
  }
}
