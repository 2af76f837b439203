/** Access rules and their cache (src/auth/pg_authenticator.cpp:104-170). The
    database is a parameter: what one query came to. */
module AclCache {
  import opened Filter

  /** A topic filter and an access level, as cast from the database's integer to
      an 8-bit enumeration: 0 none, 1 read, 2 write, 3 both. */
  datatype Rule = Rule(filter: string, level: nat)

  /** Rows may have been read before a query fails. */
  datatype Query =
    | NoConnection
    | Failed(partial: seq<(string, int)>)
    | Rows(rows: seq<(string, int)>)

  function Rules(rows: seq<(string, int)>): seq<Rule> {
    seq(|rows|, i requires 0 <= i < |rows| => Rule(rows[i].0, rows[i].1 % 256))
  }

  function Snapshot(q: Query): seq<Rule> {
    match q
    case NoConnection => []
    case Failed(partial) => Rules(partial)
    case Rows(rows) => Rules(rows)
  }

  // ------------------------------------------------------------------------ the fold

  /** The highest level among the rules that match, 0 when none does. */
  function Highest(rules: seq<Rule>, topic: string): nat {
    if rules == [] then 0
    else
      var last, before := rules[|rules| - 1], Highest(rules[..|rules| - 1], topic);
      if Matches(topic, last.filter) && last.level > before then last.level else before
  }

  /** What `check_acl` returns for a snapshot of the rules. */
  function Answer(rules: seq<Rule>, topic: string, required: nat): nat {
    if Highest(rules, topic) >= required then Highest(rules, topic) else 0
  }

  ghost predicate Grants(rules: seq<Rule>, topic: string, level: nat) {
    exists i :: 0 <= i < |rules| && Matches(topic, rules[i].filter) && rules[i].level == level
  }

  lemma {:induction false} HighestIsMaximum(rules: seq<Rule>, topic: string)
    ensures Highest(rules, topic) == 0 || Grants(rules, topic, Highest(rules, topic))
    ensures forall i :: 0 <= i < |rules| && Matches(topic, rules[i].filter) ==> rules[i].level <= Highest(rules, topic)
    decreases |rules|
  {
    if rules != [] {
      var init := rules[..|rules| - 1];
      HighestIsMaximum(init, topic);
      if Grants(init, topic, Highest(init, topic)) {
        var i :| 0 <= i < |init| && Matches(topic, init[i].filter) && init[i].level == Highest(init, topic);
        assert rules[i] == init[i];
      }
      assert forall i :: 0 <= i < |init| ==> rules[i] == init[i];
    }
  }

  /** Access is granted exactly when some matching rule reaches the required
      level, and then at the highest matching level, whatever the order of the
      rules. */
  lemma AnswerMeans(rules: seq<Rule>, topic: string, required: nat)
    requires required >= 1
    ensures Answer(rules, topic, required) != 0
            <==> exists i :: 0 <= i < |rules| && Matches(topic, rules[i].filter) && rules[i].level >= required
    ensures Answer(rules, topic, required) != 0 ==>
              && Grants(rules, topic, Answer(rules, topic, required))
              && forall i :: 0 <= i < |rules| && Matches(topic, rules[i].filter) ==>
                   rules[i].level <= Answer(rules, topic, required)
  {
    HighestIsMaximum(rules, topic);
  }

  /** Against the database: access is granted exactly when some row read, its level
      cut to eight bits, matches the topic and reaches the required level. */
  lemma {:induction false} RowsDecide(rows: seq<(string, int)>, topic: string, required: nat)
    requires required >= 1
    ensures Answer(Snapshot(Rows(rows)), topic, required) != 0
            <==> exists i :: 0 <= i < |rows| && Matches(topic, rows[i].0) && rows[i].1 % 256 >= required
    ensures Snapshot(Failed(rows)) == Snapshot(Rows(rows)) && Answer(Snapshot(NoConnection), topic, required) == 0
  {
    var rules := Snapshot(Rows(rows));
    AnswerMeans(rules, topic, required);
    if i :| 0 <= i < |rules| && Matches(topic, rules[i].filter) && rules[i].level >= required {
      assert Matches(topic, rows[i].0);
    }
    if i :| 0 <= i < |rows| && Matches(topic, rows[i].0) && rows[i].1 % 256 >= required {
      assert rules[i] == Rule(rows[i].0, rows[i].1 % 256);
      assert Matches(topic, rules[i].filter);
    }
  }

  /** The loop of `check_acl`. */
  method FoldRules(rules: seq<Rule>, topic: string, required: nat) returns (access: nat)
    ensures access == Answer(rules, topic, required)
  {
    var result := 0;
    for i := 0 to |rules|
      invariant result == Highest(rules[..i], topic)
    {
      assert rules[..i + 1][..i] == rules[..i];
      var matched := MatchesTopic(topic, rules[i].filter);
      if matched {
        if rules[i].level > result {
          result := rules[i].level;
        }
      }
    }
    assert rules[..|rules|] == rules;
    if result >= required {
      return result;
    }
    return 0;
  }

  // ----------------------------------------------------------------------- the cache

  datatype CacheEntry = CacheEntry(rules: seq<Rule>, expiry: int)

  /** One load of a user's rules, complete or not, at some time. */
  datatype Load = Load(user: string, rules: seq<Rule>, complete: bool, at: int)

  class AclCache {
    const ttl: int
    var cache: map<string, CacheEntry>
    ghost var loads: seq<Load>
    ghost var origin: map<string, nat>

    /** Every cached entry is one recorded load; only a complete one expires later
        than the clock's epoch. */
    ghost predicate Valid()
      reads this
    {
      && origin.Keys == cache.Keys
      && forall u :: u in cache ==>
           && origin[u] < |loads| && loads[origin[u]].user == u
           && cache[u].rules == loads[origin[u]].rules
           && cache[u].expiry == if loads[origin[u]].complete then loads[origin[u]].at + ttl else 0
    }

    constructor (ttl: int)
      ensures Valid() && this.ttl == ttl && loads == [] && cache == map[]
    {
      this.ttl := ttl;
      cache, loads, origin := map[], [], map[];
    }

    /** `load_acl_rules`: an incomplete load keeps the epoch as its expiry. */
    method LoadAclRules(user: string, q: Query, now: int) returns (entry: CacheEntry)
      requires Valid()
      modifies this`loads
      ensures Valid()
      ensures loads == old(loads) + [Load(user, Snapshot(q), q.Rows?, now)]
      ensures entry == CacheEntry(Snapshot(q), if q.Rows? && ttl > 0 then now + ttl else 0)
    {
      loads := loads + [Load(user, Snapshot(q), q.Rows?, now)];
      match q
      case NoConnection => return CacheEntry([], 0);
      case Failed(partial) => return CacheEntry(Rules(partial), 0);
      case Rows(rows) => return CacheEntry(Rules(rows), if ttl > 0 then now + ttl else 0);
    }

    /** Every answer is the fold of one load `k` of that user's rules. A load made
        by an earlier call is used only if it was complete and is younger than the
        time to live; an incomplete one never is. */
    method CheckAcl(user: string, topic: string, required: nat, now: int, q: Query, loaded: int)
      returns (access: nat, ghost k: nat)
      requires Valid() && now >= 0
      modifies this
      ensures Valid()
      ensures old(loads) <= loads && k < |loads| && loads[k].user == user
      ensures access == Answer(loads[k].rules, topic, required)
      ensures k < |old(loads)| ==> loads == old(loads) && loads[k].complete && now - loads[k].at < ttl
      ensures k >= |old(loads)| ==> loads == old(loads) + [Load(user, Snapshot(q), q.Rows?, loaded)]
      ensures k < |old(loads)| <==> ttl > 0 && user in old(cache) && now < old(cache)[user].expiry
      ensures k >= |old(loads)| && ttl > 0 ==>
                cache == old(cache)[user := CacheEntry(Snapshot(q), if q.Rows? then loaded + ttl else 0)]
    {
      var entry;
      entry, k := Fetch(user, now, q, loaded);
      access := FoldRules(entry.rules, topic, required);
    }

    /** The entry that an answer uses: the cached one while it lasts, or a new one. */
    method Fetch(user: string, now: int, q: Query, loaded: int) returns (entry: CacheEntry, ghost k: nat)
      requires Valid() && now >= 0
      modifies this
      ensures Valid()
      ensures old(loads) <= loads && k < |loads| && loads[k].user == user && entry.rules == loads[k].rules
      ensures k < |old(loads)| ==> loads == old(loads) && loads[k].complete && now - loads[k].at < ttl
      ensures k >= |old(loads)| ==> loads == old(loads) + [Load(user, Snapshot(q), q.Rows?, loaded)]
      ensures k < |old(loads)| <==> ttl > 0 && user in old(cache) && now < old(cache)[user].expiry
      ensures k >= |old(loads)| && ttl > 0 ==>
                cache == old(cache)[user := CacheEntry(Snapshot(q), if q.Rows? then loaded + ttl else 0)]
    {
      if ttl > 0 {
        if user in cache && now < cache[user].expiry {
          entry := cache[user];
          k := origin[user];
        } else {
          k := |loads|;
          entry := LoadAclRules(user, q, loaded);
          cache := cache[user := entry];
          origin := origin[user := k];
        }
      } else {
        k := |loads|;
        entry := LoadAclRules(user, q, loaded);
      }
    }
  }
}
