/** The cyclic 16-bit packet identifier allocator that both QoS handlers carry
    (src/qos/qos1.cpp, src/qos/qos2.cpp). */
module PacketIds {

  const ID_COUNT := 65535

  predicate Between(i: nat, n: nat) {
    1 <= i <= n
  }

  ghost function UpTo(n: nat): set<nat> {
    set i: nat | i <= n && Between(i, n)
  }

  /** Identifiers are 1..65535; 0 is never one. */
  ghost function Ids(): set<nat> {
    UpTo(ID_COUNT)
  }

  /** What a handler keeps for one client. */
  datatype Table<M> = Table(messages: map<nat, M>, nextId: nat, inUse: set<nat>)

  const FRESH_ID := 1

  ghost predicate TableOk<M>(t: Table<M>) {
    && 1 <= t.nextId <= ID_COUNT
    && t.inUse == t.messages.Keys
    && t.inUse <= Ids()
  }

  /** The k-th identifier in cyclic order from `start`. */
  function Cyclic(start: nat, k: nat): (id: nat)
    requires 1 <= start <= ID_COUNT
    ensures 1 <= id <= ID_COUNT
  {
    (start - 1 + k) % ID_COUNT + 1
  }

  /** 16-bit increment that skips 0. */
  function Successor(id: nat): (next: nat)
    requires 1 <= id <= ID_COUNT
    ensures 1 <= next <= ID_COUNT
    ensures next == Cyclic(id, 1)
  {
    var next := (id + 1) % 65536;
    if next == 0 then 1 else next
  }

  lemma CyclicStep(start: nat, k: nat)
    requires 1 <= start <= ID_COUNT
    ensures Successor(Cyclic(start, k)) == Cyclic(start, k + 1)
  {
    var q, r := (start - 1 + k) / ID_COUNT, (start - 1 + k) % ID_COUNT;
    assert start - 1 + k + 1 == q * ID_COUNT + (r + 1);
    if r + 1 < ID_COUNT {
      ModIs(start + k, q, r + 1);
    } else {
      ModIs(start + k, q + 1, 0);
    }
  }

  lemma ModIs(n: nat, q: nat, r: nat)
    requires n == q * ID_COUNT + r && r < ID_COUNT
    ensures n % ID_COUNT == r
  {}

  /** Going round meets every identifier within one turn. */
  lemma CyclicReaches(start: nat, id: nat) returns (k: nat)
    requires 1 <= start <= ID_COUNT && 1 <= id <= ID_COUNT
    ensures k < ID_COUNT && Cyclic(start, k) == id
  {
    k := if id >= start then id - start else id + ID_COUNT - start;
    if id >= start {
      ModIs(start - 1 + k, 0, id - 1);
    } else {
      ModIs(start - 1 + k, 1, id - 1);
    }
  }

  lemma CyclicReturns(start: nat, k: nat)
    requires 1 <= start <= ID_COUNT && 0 < k <= ID_COUNT
    ensures Cyclic(start, k) == start <==> k == ID_COUNT
  {
    if k == ID_COUNT {
      ModIs(start - 1 + k, 1, start - 1);
    } else if start - 1 + k < ID_COUNT {
      ModIs(start - 1 + k, 0, start - 1 + k);
    } else {
      ModIs(start - 1 + k, 1, start - 1 + k - ID_COUNT);
    }
  }

  /** The result of an allocation: the first free identifier in cyclic order,
      at distance `k`. */
  ghost predicate FirstFree(inUse: set<nat>, start: nat, k: nat)
    requires 1 <= start <= ID_COUNT
  {
    Cyclic(start, k) !in inUse && forall j :: 0 <= j < k ==> Cyclic(start, j) in inUse
  }

  /** What one allocation does. */
  ghost predicate Allocates<M>(t: Table<M>, t': Table<M>, pid: nat)
    requires 1 <= t.nextId <= ID_COUNT
  {
    if Ids() <= t.inUse then pid == 0 && t' == t
    else exists k :: TakesAt(t, t', pid, k)
  }

  ghost predicate TakesAt<M>(t: Table<M>, t': Table<M>, pid: nat, k: nat)
    requires 1 <= t.nextId <= ID_COUNT
  {
    && k < ID_COUNT && FirstFree(t.inUse, t.nextId, k) && pid == Cyclic(t.nextId, k)
    && t' == t.(inUse := t.inUse + {pid}, nextId := Cyclic(t.nextId, k + 1))
  }

  method AllocatePacketId<M>(t: Table<M>) returns (t': Table<M>, pid: nat, ghost k: nat)
    requires 1 <= t.nextId <= ID_COUNT
    ensures pid == 0 <==> Ids() <= t.inUse
    ensures pid == 0 ==> t' == t
    ensures pid != 0 ==>
              && k < ID_COUNT && FirstFree(t.inUse, t.nextId, k) && pid == Cyclic(t.nextId, k)
              && t' == t.(inUse := t.inUse + {pid}, nextId := Cyclic(t.nextId, k + 1))
    ensures Allocates(t, t', pid)
  {
    var start := t.nextId;
    var next := start;
    k := 0;
    while next in t.inUse
      invariant 0 <= k < ID_COUNT && next == Cyclic(start, k)
      invariant forall j :: 0 <= j < k ==> Cyclic(start, j) in t.inUse
      decreases ID_COUNT - k
    {
      CyclicStep(start, k);
      CyclicReturns(start, k + 1);
      next := Successor(next);
      k := k + 1;
      if next == start {
        forall id | id in Ids() ensures id in t.inUse {
          var j := CyclicReaches(start, id);
        }
        return t, 0, k;
      }
    }
    CyclicStep(start, k);
    pid := next;
    t' := t.(inUse := t.inUse + {pid}, nextId := Successor(next));
    assert TakesAt(t, t', pid, k);
  }

  /** A client's pool after its first `n` allocations, none given back. */
  ghost predicate Dealt<M>(t: Table<M>, n: nat) {
    n <= ID_COUNT && t.inUse == UpTo(n) && t.nextId == if n < ID_COUNT then n + 1 else 1
  }

  lemma {:induction false} DealtNext<M>(t: Table<M>, t': Table<M>, pid: nat, n: nat)
    requires Dealt(t, n) && Allocates(t, t', pid)
    ensures if n == ID_COUNT then pid == 0 && t' == t else pid == n + 1 && Dealt(t', n + 1)
  {
    if n < ID_COUNT {
      assert Between(n + 1, ID_COUNT) && !Between(n + 1, n);
      assert n + 1 in Ids() && n + 1 !in t.inUse;
      ModIs(n, 0, n);
      assert Cyclic(t.nextId, 0) == n + 1;
      var k :| TakesAt(t, t', pid, k);
      assert k == 0;
      assert UpTo(n + 1) == UpTo(n) + {n + 1};
      CyclicStep(t.nextId, 0);
    }
  }

  /** A new client is given 1, 2, 3 and so on up to 65535, and then nothing. */
  lemma {:induction false} FreshIds<M>(tables: seq<Table<M>>, ids: seq<nat>, n: nat)
    requires |tables| == |ids| + 1 && tables[0] == Table(map[], FRESH_ID, {}) && n <= |ids|
    requires forall i :: 0 <= i < |ids| ==>
               1 <= tables[i].nextId <= ID_COUNT && Allocates(tables[i], tables[i + 1], ids[i])
    ensures Dealt(tables[n], if n < ID_COUNT then n else ID_COUNT)
    ensures forall i :: 0 <= i < n ==> ids[i] == if i < ID_COUNT then i + 1 else 0
    decreases n
  {
    if n == 0 {
      assert UpTo(0) == {};
    } else {
      FreshIds(tables, ids, n - 1);
      DealtNext(tables[n - 1], tables[n], ids[n - 1], if n - 1 < ID_COUNT then n - 1 else ID_COUNT);
    }
  }

  lemma {:induction false} UpToSize(n: nat)
    ensures |UpTo(n)| == n
  {
    if n > 0 {
      UpToSize(n - 1);
      assert UpTo(n) == UpTo(n - 1) + {n};
    }
  }

  /** The pool is exhausted exactly when 65535 identifiers are in use. */
  lemma ExhaustedIff(inUse: set<nat>)
    requires inUse <= Ids()
    ensures Ids() <= inUse <==> |inUse| == ID_COUNT
    ensures |inUse| <= ID_COUNT
  {
    UpToSize(ID_COUNT);
    SubsetSize(inUse, Ids());
  }

  lemma {:induction false} SubsetSize<T>(a: set<T>, b: set<T>)
    requires a <= b
    ensures |a| <= |b|
    ensures |a| == |b| <==> a == b
  {
    assert b == a + (b - a);
    assert |b| == |a| + |b - a|;
  }
}
