/** The nested table of a QoS handler: a client's entry holds its messages, its
    identifier pool and the next identifier to try, and disappears with its
    last message. Seen from outside it is one flat set of keys. */
module ClientTables {
  import opened Wrappers
  import opened PacketIds
  import opened InFlight

  type Nested<M> = map<string, Table<M>>

  /** `map::operator[]`: a missing client starts with an empty pool. */
  function TableOf<M>(nested: Nested<M>, client: string): Table<M> {
    if client in nested then nested[client] else Table(map[], FRESH_ID, {})
  }

  ghost predicate NestedOk<M>(nested: Nested<M>) {
    forall c :: c in nested ==> TableOk(nested[c]) && nested[c].messages != map[]
  }

  ghost predicate Holds<M>(nested: Nested<M>, k: Key) {
    k.0 in nested && k.1 in nested[k.0].messages
  }

  function Insert<M>(nested: Nested<M>, client: string, table: Table<M>, pid: nat, m: M): Nested<M> {
    nested[client := table.(messages := table.messages[pid := m])]
  }

  function Replace<M>(nested: Nested<M>, client: string, pid: nat, m: M): Nested<M>
    requires client in nested
  {
    Insert(nested, client, nested[client], pid, m)
  }

  /** The erasing code that every removal path repeats. */
  function Erase<M>(nested: Nested<M>, client: string, pid: nat): Nested<M>
    requires client in nested
  {
    var t := nested[client];
    var rest := t.messages - {pid};
    if rest == map[] then nested - {client}
    else nested[client := t.(messages := rest, inUse := t.inUse - {pid})]
  }

  lemma EraseOk<M>(nested: Nested<M>, client: string, pid: nat)
    requires NestedOk(nested) && Holds(nested, (client, pid))
    ensures NestedOk(Erase(nested, client, pid))
    ensures forall k :: Holds(Erase(nested, client, pid), k) <==> Holds(nested, k) && k != (client, pid)
    ensures forall k :: Holds(Erase(nested, client, pid), k) ==>
              Erase(nested, client, pid)[k.0].messages[k.1] == nested[k.0].messages[k.1]
  {
    var rest := nested[client].messages - {pid};
    assert rest == map[] ==> forall i :: i in nested[client].messages ==> i == pid by {
      assert forall i :: i in nested[client].messages && i != pid ==> i in rest;
    }
  }

  lemma ReplaceOk<M>(nested: Nested<M>, client: string, pid: nat, m: M)
    requires NestedOk(nested) && Holds(nested, (client, pid))
    ensures NestedOk(Replace(nested, client, pid, m))
    ensures forall k :: Holds(Replace(nested, client, pid, m), k) <==> Holds(nested, k)
    ensures forall k :: Holds(nested, k) ==>
              Replace(nested, client, pid, m)[k.0].messages[k.1]
              == if k == (client, pid) then m else nested[k.0].messages[k.1]
  {}

  /** A free identifier has been taken from a client's pool. */
  ghost predicate Takes<M>(before: Table<M>, after: Table<M>, pid: nat) {
    && pid in Ids() && pid !in before.inUse
    && after.messages == before.messages && after.inUse == before.inUse + {pid}
    && 1 <= after.nextId <= ID_COUNT
  }

  /** Taking a free identifier adds one key. */
  lemma InsertOk<M>(nested: Nested<M>, client: string, table: Table<M>, pid: nat, m: M)
    requires NestedOk(nested) && Takes(TableOf(nested, client), table, pid)
    ensures NestedOk(Insert(nested, client, table, pid, m))
    ensures forall k :: Holds(Insert(nested, client, table, pid, m), k) <==> Holds(nested, k) || k == (client, pid)
    ensures forall k :: Holds(Insert(nested, client, table, pid, m), k) ==>
              Insert(nested, client, table, pid, m)[k.0].messages[k.1]
              == if k == (client, pid) then m else nested[k.0].messages[k.1]
  {
    assert pid in Insert(nested, client, table, pid, m)[client].messages;
  }

  // ------------------------------------------------- showing the machine's messages

  /** The nested table holds, key by key, what the flat machine tracks; `shows`
      compares a stored record with a tracked message. */
  ghost predicate Shown<M>(nested: Nested<M>, flat: map<Key, Tracked>, shows: (Tracked, M, nat) -> bool) {
    && NestedOk(nested)
    && (forall k :: k in flat <==> Holds(nested, k))
    && (forall k :: k in flat ==> shows(flat[k], nested[k.0].messages[k.1], k.1))
  }

  lemma InsertShown<M>(nested: Nested<M>, flat: map<Key, Tracked>, shows: (Tracked, M, nat) -> bool,
                       client: string, table: Table<M>, pid: nat, m: M, t: Tracked)
    requires Shown(nested, flat, shows) && Takes(TableOf(nested, client), table, pid) && shows(t, m, pid)
    ensures (client, pid) !in flat
    ensures Shown(Insert(nested, client, table, pid, m), flat[(client, pid) := t], shows)
  {
    InsertOk(nested, client, table, pid, m);
    assert !Holds(nested, (client, pid));
  }

  lemma ReplaceShown<M>(nested: Nested<M>, flat: map<Key, Tracked>, shows: (Tracked, M, nat) -> bool,
                        client: string, pid: nat, m: M, t: Tracked)
    requires Shown(nested, flat, shows) && Holds(nested, (client, pid)) && shows(t, m, pid)
    ensures Shown(Replace(nested, client, pid, m), flat[(client, pid) := t], shows)
  {
    ReplaceOk(nested, client, pid, m);
  }

  lemma EraseShown<M>(nested: Nested<M>, flat: map<Key, Tracked>, shows: (Tracked, M, nat) -> bool, client: string,
                      pid: nat)
    requires Shown(nested, flat, shows) && Holds(nested, (client, pid))
    ensures Shown(Erase(nested, client, pid), flat - {(client, pid)}, shows)
  {
    EraseOk(nested, client, pid);
  }

  /** Pools and tables agree, no client entry is empty, the whole shows the flat
      machine's state, and exactly the packets it records have been sent. */
  ghost predicate Consistent<M>(nested: Nested<M>, shows: (Tracked, M, nat) -> bool, outbox: seq<Delivery>,
                                st: State, cfg: Config) {
    Shown(nested, st.flat, shows) && Sound(st, cfg) && outbox == Deliveries(st.log)
  }

  /** A step keeps this when the table is changed and the packets are sent that
      it calls for. */
  lemma {:induction false} StepConsistent<M>(nested: Nested<M>, next: Nested<M>, shows: (Tracked, M, nat) -> bool,
                                             outbox: seq<Delivery>, st: State, cfg: Config, step: Step)
    requires Consistent(nested, shows, outbox, st, cfg) && Accepted(st, step)
    requires Shown(next, FlatAfter(st, step, cfg), shows)
    ensures Consistent(next, shows, outbox + Calls(st, step, cfg), Apply(st, step, cfg), cfg)
  {
    SoundStep(st, step, cfg);
    CallsRecorded(st, step, cfg);
  }

  /** A packet that is not tracked. */
  lemma {:induction false} PlainConsistent<M>(nested: Nested<M>, shows: (Tracked, M, nat) -> bool,
                                              outbox: seq<Delivery>,
                                              st: State, cfg: Config, client: string, session: nat, packet: Packet)
    requires Consistent(nested, shows, outbox, st, cfg) && packet.Publish? && packet.qos < 2
    ensures Consistent(nested, shows, outbox + [Delivery(client, session, packet)],
                       Apply(st, Plain(client, session, packet), cfg), cfg)
  {
    var step := Plain(client, session, packet);
    StepConsistent(nested, nested, shows, outbox, st, cfg, step);
    assert Calls(st, step, cfg) == [Delivery(client, session, packet)];
  }

  /** Changing a message in place. */
  lemma {:induction false} ReplaceConsistent<M>(nested: Nested<M>, shows: (Tracked, M, nat) -> bool,
                                                outbox: seq<Delivery>,
                                                st: State, cfg: Config, step: Step, m: M, t: Tracked)
    requires Consistent(nested, shows, outbox, st, cfg) && (step.Pubrec? || step.Tick?) && Accepted(st, step)
    requires FlatAfter(st, step, cfg) == st.flat[(step.client, step.pid) := t] && shows(t, m, step.pid)
    ensures Holds(nested, (step.client, step.pid))
    ensures Consistent(Replace(nested, step.client, step.pid, m), shows, outbox + Calls(st, step, cfg),
                       Apply(st, step, cfg), cfg)
  {
    ReplaceShown(nested, st.flat, shows, step.client, step.pid, m, t);
    StepConsistent(nested, Replace(nested, step.client, step.pid, m), shows, outbox, st, cfg, step);
  }

  /** Removing a message, when it is acknowledged or given up. */
  lemma {:induction false} EraseConsistent<M>(nested: Nested<M>, shows: (Tracked, M, nat) -> bool,
                                              outbox: seq<Delivery>, st: State, cfg: Config, step: Step)
    requires Consistent(nested, shows, outbox, st, cfg) && (step.Remove? || step.Tick?)
    requires Holds(nested, (step.client, step.pid))
    requires step.Tick? ==> Accepted(st, step) && st.flat[(step.client, step.pid)].retries >= cfg.maxRetries
    ensures Consistent(Erase(nested, step.client, step.pid), shows, outbox, Apply(st, step, cfg), cfg)
  {
    EraseShown(nested, st.flat, shows, step.client, step.pid);
    assert Accepted(st, step) && FlatAfter(st, step, cfg) == st.flat - {(step.client, step.pid)};
    StepConsistent(nested, Erase(nested, step.client, step.pid), shows, outbox, st, cfg, step);
    assert Calls(st, step, cfg) == [] && outbox + [] == outbox;
  }

  /** Identifiers in flight to a client. */
  ghost function Pids(flat: map<Key, Tracked>, client: string): set<nat> {
    set k | k in flat && k.0 == client :: k.1
  }

  lemma PidsAreInUse<M>(nested: Nested<M>, flat: map<Key, Tracked>, shows: (Tracked, M, nat) -> bool, client: string)
    requires Shown(nested, flat, shows)
    ensures Pids(flat, client) == TableOf(nested, client).inUse
    ensures TableOf(nested, client).inUse <= Ids()
  {
    forall i | i in TableOf(nested, client).inUse ensures i in Pids(flat, client) {
      assert (client, i) in flat;
    }
  }

  lemma PidsAfterCopy(flat: map<Key, Tracked>, k: Key, t: Tracked, client: string)
    requires k !in flat
    ensures |Pids(flat[k := t], client)| == |Pids(flat, client)| + One(k.0 == client)
  {
    if k.0 == client {
      assert Pids(flat[k := t], client) == Pids(flat, client) + {k.1};
    } else {
      assert Pids(flat[k := t], client) == Pids(flat, client);
    }
  }

  /** What was delivered for each subscriber, skipped ones left out. */
  function Somes<T>(s: seq<Option<T>>): seq<T> {
    if s == [] then []
    else Somes(s[..|s| - 1]) + (if s[|s| - 1].Some? then [s[|s| - 1].value] else [])
  }

  lemma {:induction false} SomesMore<T>(s: seq<Option<T>>, x: Option<T>)
    ensures Somes(s + [x]) == Somes(s) + (if x.Some? then [x.value] else [])
  {
    assert (s + [x])[..|s|] == s;
  }

  function Min(a: nat, b: nat): nat {
    if a < b then a else b
  }
}
