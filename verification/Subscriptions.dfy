/** The persistent subscription store (src/subscription.cpp). */
module Subscriptions {
  import opened Wrappers

  datatype Subscription = Subscription(filter: string, qos: nat)

  type Store = map<string, seq<Subscription>>

  function Listing(store: Store, client: string): seq<Subscription> {
    if client in store then store[client] else []
  }

  /** Overwrite the first entry for the filter, or append one. */
  function Added(list: seq<Subscription>, filter: string, qos: nat): seq<Subscription> {
    if list == [] then [Subscription(filter, qos)]
    else if list[0].filter == filter then [Subscription(filter, qos)] + list[1..]
    else [list[0]] + Added(list[1..], filter, qos)
  }

  function Removed(list: seq<Subscription>, filter: string): seq<Subscription> {
    if list == [] then []
    else (if list[0].filter == filter then [] else [list[0]]) + Removed(list[1..], filter)
  }

  function Keep(store: Store, client: string, list: seq<Subscription>): Store {
    if list == [] then store - {client} else store[client := list]
  }

  lemma {:induction false} AddedAt(list: seq<Subscription>, filter: string, qos: nat, it: nat)
    requires it <= |list| && forall k :: 0 <= k < it ==> list[k].filter != filter
    requires it < |list| ==> list[it].filter == filter
    ensures Added(list, filter, qos)
         == if it < |list| then list[it := Subscription(filter, qos)] else list + [Subscription(filter, qos)]
    decreases |list|
  {
    if it > 0 {
      AddedAt(list[1..], filter, qos, it - 1);
    }
  }

  /** `remove_if` and `erase`. */
  method Erase(list: seq<Subscription>, filter: string) returns (kept: seq<Subscription>)
    ensures kept == Removed(list, filter)
  {
    kept := [];
    for i := 0 to |list|
      invariant kept + Removed(list[i..], filter) == Removed(list, filter)
    {
      assert list[i..][1..] == list[i + 1..];
      if list[i].filter != filter {
        MoveOver(kept, list[i], Removed(list[i + 1..], filter));
        kept := kept + [list[i]];
      } else {
        assert [] + Removed(list[i + 1..], filter) == Removed(list[i + 1..], filter);
      }
    }
  }

  class SubscriptionManager {
    var subs: Store

    /** A client without subscriptions has no entry. */
    ghost predicate Valid()
      reads this
    {
      forall c :: c in subs ==> subs[c] != []
    }

    constructor ()
      ensures Valid() && subs == map[]
    {
      subs := map[];
    }

    method Add(client: string, filter: string, qos: nat)
      requires Valid()
      modifies this
      ensures Valid()
      ensures subs == old(subs)[client := Added(Listing(old(subs), client), filter, qos)]
    {
      var list := if client in subs then subs[client] else [];
      var it := 0;
      while it < |list| && list[it].filter != filter
        invariant 0 <= it <= |list|
        invariant forall k :: 0 <= k < it ==> list[k].filter != filter
      {
        it := it + 1;
      }
      AddedAt(list, filter, qos, it);
      if it < |list| {
        subs := subs[client := list[it := list[it].(qos := qos)]];
      } else {
        subs := subs[client := list + [Subscription(filter, qos)]];
      }
    }

    method Remove(client: string, filter: string)
      requires Valid()
      modifies this
      ensures Valid()
      ensures subs == Keep(old(subs), client, Removed(Listing(old(subs), client), filter))
    {
      if client !in subs {
        assert subs == subs - {client};
        return;
      }
      var kept := Erase(subs[client], filter);
      if kept == [] {
        subs := subs - {client};
      } else {
        subs := subs[client := kept];
      }
    }

    method RemoveClient(client: string)
      requires Valid()
      modifies this
      ensures Valid() && subs == old(subs) - {client}
    {
      subs := subs - {client};
    }

    method GetClientSubs(client: string) returns (list: seq<Subscription>)
      requires Valid()
      ensures list == Listing(subs, client)
    {
      if client !in subs {
        return [];
      }
      return subs[client];
    }
  }
}
