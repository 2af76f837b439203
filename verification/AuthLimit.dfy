/** The brute-force protection of CONNECT (src/session.cpp:227-245, 289-314). */
module AuthLimit {

  datatype State = State(failures: map<string, int>, banUntil: map<string, int>)

  /** The critical sections: the rate-limit check, a failed authentication and
      the acceptance of a CONNECT. */
  datatype Step =
    | Check(ip: string, now: int)
    | Fail(ip: string, now: int)
    | Succeed(ip: string)

  datatype Config = Config(maxAttempts: int, banSeconds: int)

  function Failures(st: State, ip: string): int {
    if ip in st.failures then st.failures[ip] else 0
  }

  /** Whether the check refuses. */
  predicate Refuses(st: State, ip: string, now: int) {
    ip in st.banUntil && now < st.banUntil[ip]
  }

  function Next(st: State, step: Step, cfg: Config): State {
    match step
    case Check(ip, now) =>
      if ip in st.banUntil && now >= st.banUntil[ip] then State(st.failures - {ip}, st.banUntil - {ip}) else st
    case Fail(ip, now) =>
      var fails := Failures(st, ip) + 1;
      State(st.failures[ip := fails],
            if fails >= cfg.maxAttempts then st.banUntil[ip := now + cfg.banSeconds] else st.banUntil)
    case Succeed(ip) => State(st.failures - {ip}, st.banUntil - {ip})
  }

  function Exec(st: State, steps: seq<Step>, cfg: Config): State {
    if steps == [] then st else Next(Exec(st, steps[..|steps| - 1], cfg), steps[|steps| - 1], cfg)
  }

  const INITIAL := State(map[], map[])

  /** A ban entry exists exactly when the counted failures have reached the limit. */
  ghost predicate BanIffLimit(st: State, cfg: Config) {
    && (forall ip :: ip in st.failures ==> st.failures[ip] >= 1)
    && (forall ip :: ip in st.banUntil <==> ip in st.failures && st.failures[ip] >= cfg.maxAttempts)
  }

  lemma {:induction false} BanIffLimitRun(steps: seq<Step>, cfg: Config)
    ensures BanIffLimit(Exec(INITIAL, steps, cfg), cfg)
    decreases |steps|
  {
    if steps != [] {
      BanIffLimitRun(steps[..|steps| - 1], cfg);
    }
  }

  /** As the count is usually read, with 0 for an unknown address, this needs a
      limit of at least 1, and with a limit below that it fails for everyone new. */
  lemma BannedIffCountReached(steps: seq<Step>, cfg: Config, ip: string)
    ensures var st := Exec(INITIAL, steps, cfg);
            (ip in st.banUntil <==> Failures(st, ip) >= cfg.maxAttempts)
            <==> (cfg.maxAttempts >= 1 || ip in st.failures)
  {
    BanIffLimitRun(steps, cfg);
  }

  /** The clock never goes back, from `start` on. */
  ghost predicate Monotone(steps: seq<Step>, start: int) {
    && (forall i :: 0 <= i < |steps| && !steps[i].Succeed? ==> steps[i].now >= start)
    && (forall i, j :: 0 <= i < j < |steps| && !steps[i].Succeed? && !steps[j].Succeed? ==>
          steps[i].now <= steps[j].now)
  }

  /** While the ban that a failure at time `start` set is running and no CONNECT
      from the address succeeds, the address stays banned at least that long,
      and so every check before its end is refused. */
  lemma {:induction false} BanHolds(st: State, steps: seq<Step>, cfg: Config, ip: string, start: int, until: int)
    requires ip in st.banUntil && st.banUntil[ip] >= until && until <= start + cfg.banSeconds
    requires Monotone(steps, start)
    requires forall i :: 0 <= i < |steps| ==> steps[i] != Succeed(ip)
    requires forall i :: 0 <= i < |steps| && !steps[i].Succeed? ==> steps[i].now < until
    ensures var end := Exec(st, steps, cfg); ip in end.banUntil && end.banUntil[ip] >= until
    decreases |steps|
  {
    if steps != [] {
      var init, step := steps[..|steps| - 1], steps[|steps| - 1];
      assert forall i :: 0 <= i < |init| ==> init[i] == steps[i];
      BanHolds(st, init, cfg, ip, start, until);
    }
  }

  /** A failure that reaches the limit bans: every later check of that address,
      before the ban ends, is refused unless a CONNECT of it succeeds in between. */
  lemma BannedChecksAreRefused(st: State, steps: seq<Step>, cfg: Config, ip: string, start: int, now: int)
    requires Failures(st, ip) + 1 >= cfg.maxAttempts
    requires Monotone(steps + [Check(ip, now)], start)
    requires forall i :: 0 <= i < |steps| ==> steps[i] != Succeed(ip)
    requires now < start + cfg.banSeconds
    ensures Refuses(Exec(Next(st, Fail(ip, start), cfg), steps, cfg), ip, now)
  {
    var all := steps + [Check(ip, now)];
    assert forall i :: 0 <= i < |steps| ==> steps[i] == all[i];
    assert all[|steps|] == Check(ip, now);
    BanHolds(Next(st, Fail(ip, start), cfg), steps, cfg, ip, start, start + cfg.banSeconds);
  }

  /** What a success or an elapsed ban leaves behind: a clean address, whose next
      check is admitted whenever it comes. A check itself clears exactly what has
      elapsed. */
  lemma {:induction false} ClearedAddress(st: State, cfg: Config, ip: string, now: int, later: int)
    ensures var after := Next(st, Succeed(ip), cfg); Failures(after, ip) == 0 && !Refuses(after, ip, later)
    ensures ip in st.banUntil && now >= st.banUntil[ip] ==>
              var after := Next(st, Check(ip, now), cfg);
              !Refuses(st, ip, now) && Failures(after, ip) == 0 && !Refuses(after, ip, later)
    ensures ip !in st.banUntil || now < st.banUntil[ip] ==> Next(st, Check(ip, now), cfg) == st
  {}

  predicate Concerns(step: Step, ip: string) {
    step.ip == ip
  }

  predicate Idle(steps: seq<Step>, ip: string) {
    forall i :: 0 <= i < |steps| ==> !Concerns(steps[i], ip)
  }

  /** Other addresses do not matter. */
  lemma {:induction false} OthersDoNotMatter(st: State, steps: seq<Step>, cfg: Config, ip: string)
    requires Idle(steps, ip)
    ensures var end := Exec(st, steps, cfg);
            && (ip in end.failures <==> ip in st.failures) && Failures(end, ip) == Failures(st, ip)
            && (ip in end.banUntil <==> ip in st.banUntil)
            && (ip in st.banUntil ==> end.banUntil[ip] == st.banUntil[ip])
    decreases |steps|
  {
    if steps != [] {
      var init := steps[..|steps| - 1];
      assert forall i :: 0 <= i < |init| ==> init[i] == steps[i];
      OthersDoNotMatter(st, init, cfg, ip);
      assert !Concerns(steps[|steps| - 1], ip);
    }
  }

  /** The failure that reaches the limit bans for exactly the ban time: the next
      check of the address is refused if and only if it comes before the end. */
  lemma {:induction false} BanLasts(st: State, steps: seq<Step>, cfg: Config, ip: string, start: int, now: int)
    requires Failures(st, ip) + 1 >= cfg.maxAttempts && Idle(steps, ip)
    ensures Refuses(Exec(Next(st, Fail(ip, start), cfg), steps, cfg), ip, now) <==> now < start + cfg.banSeconds
  {
    OthersDoNotMatter(Next(st, Fail(ip, start), cfg), steps, cfg, ip);
  }

  function FailsOf(steps: seq<Step>, ip: string): nat {
    if steps == [] then 0
    else
      var last := steps[|steps| - 1];
      FailsOf(steps[..|steps| - 1], ip) + if last.Fail? && Concerns(last, ip) then 1 else 0
  }

  /** From a clean address on, every failure counts one, until the count reaches
      the limit the address is not banned, and from then on it is. */
  lemma {:induction false} FailuresAdd(st: State, steps: seq<Step>, cfg: Config, ip: string)
    requires ip !in st.failures && ip !in st.banUntil
    requires forall i :: 0 <= i < |steps| && Concerns(steps[i], ip) ==> steps[i].Fail?
    ensures var end := Exec(st, steps, cfg);
            && Failures(end, ip) == FailsOf(steps, ip)
            && (ip in end.banUntil <==> FailsOf(steps, ip) >= 1 && FailsOf(steps, ip) >= cfg.maxAttempts)
    decreases |steps|
  {
    if steps != [] {
      var init := steps[..|steps| - 1];
      assert forall i :: 0 <= i < |init| ==> init[i] == steps[i];
      FailuresAdd(st, init, cfg, ip);
    }
  }

  /** The state of `ServerState` that this touches. */
  class AuthLimiter {
    const cfg: Config
    var failures: map<string, int>
    var banUntil: map<string, int>

    ghost function Now(): State
      reads this
    {
      State(failures, banUntil)
    }

    ghost predicate Valid()
      reads this
    {
      BanIffLimit(Now(), cfg)
    }

    constructor (cfg: Config)
      ensures Valid() && Now() == INITIAL && this.cfg == cfg
    {
      this.cfg := cfg;
      failures, banUntil := map[], map[];
    }

    method CheckRateLimit(ip: string, now: int) returns (admitted: bool)
      requires Valid()
      modifies this
      ensures Valid() && Now() == Next(old(Now()), Check(ip, now), cfg)
      ensures admitted == !Refuses(old(Now()), ip, now)
    {
      if ip in banUntil {
        if now < banUntil[ip] {
          return false;
        }
        banUntil := banUntil - {ip};
        failures := failures - {ip};
      }
      return true;
    }

    method RecordFailure(ip: string, now: int)
      requires Valid()
      modifies this
      ensures Valid() && Now() == Next(old(Now()), Fail(ip, now), cfg)
    {
      var fails := (if ip in failures then failures[ip] else 0) + 1;
      failures := failures[ip := fails];
      if fails >= cfg.maxAttempts {
        banUntil := banUntil[ip := now + cfg.banSeconds];
      }
    }

    method RecordSuccess(ip: string)
      requires Valid()
      modifies this
      ensures Valid() && Now() == Next(old(Now()), Succeed(ip), cfg)
    {
      failures := failures - {ip};
      banUntil := banUntil - {ip};
    }
  }
}
