/**
 The rate-limit middleware: health paths bypass it, every other request must
 pass its IP's bucket and then, when it carries a tenant, its tenant's bucket.
 */
module Gateway {
  import opened IntSets
  import opened TokenBucket
  import opened RateLimit

  const BYPASS_PATHS: set<string> := {"/healthz", "/health", "/health/detail", "/ready", "/metrics"}

  predicate Bypasses(path: string) {
    path in BYPASS_PATHS
  }

  datatype Settings = Settings(ip: Config, tenant: Config, staleAfter: real)

  datatype Verdict = Bypassed | Forwarded | IpLimited | TenantLimited

  datatype State = State(ip: Entries, tenant: Entries)

  function ServeStep(cfg: Settings, s: State, path: string, ip: string, tenant: string, now: real): (State, Verdict) {
    if Bypasses(path) then (s, Bypassed)
    else
      var (ips, ipOk) := AllowStep(cfg.ip, s.ip, ip, now);
      if !ipOk then (s.(ip := ips), IpLimited)
      else if tenant == "" then (s.(ip := ips), Forwarded)
      else
        var (tenants, tenantOk) := AllowStep(cfg.tenant, s.tenant, tenant, now);
        (State(ips, tenants), if tenantOk then Forwarded else TenantLimited)
  }

  class Middleware {
    const cfg: Settings
    const ipLimiter: Limiter
    const tenantLimiter: Limiter

    ghost predicate Valid() {
      ipLimiter != tenantLimiter && ipLimiter.cfg == cfg.ip && tenantLimiter.cfg == cfg.tenant
    }

    ghost function Current(): State
      reads ipLimiter, tenantLimiter
    {
      State(ipLimiter.entries, tenantLimiter.entries)
    }

    constructor (cfg: Settings)
      ensures Valid() && this.cfg == cfg && fresh(ipLimiter) && fresh(tenantLimiter)
      ensures Current() == State(map[], map[])
    {
      this.cfg := cfg;
      ipLimiter := new Limiter(cfg.ip);
      tenantLimiter := new Limiter(cfg.tenant);
    }

    method Serve(path: string, ip: string, tenant: string, now: real) returns (verdict: Verdict)
      requires Valid()
      modifies ipLimiter, tenantLimiter
      ensures (Current(), verdict) == ServeStep(cfg, old(Current()), path, ip, tenant, now)
    {
      if Bypasses(path) {
        return Bypassed;
      }
      var ipOk := ipLimiter.Allow(ip, now);
      if !ipOk {
        return IpLimited;
      }
      if tenant != "" {
        var tenantOk := tenantLimiter.Allow(tenant, now);
        if !tenantOk {
          return TenantLimited;
        }
      }
      return Forwarded;
    }

    /** One tick of the background cleanup. */
    method Tidy(now: real)
      requires Valid()
      modifies ipLimiter, tenantLimiter
      ensures Current() == State(CleanupStep(old(ipLimiter.entries), cfg.staleAfter, now),
                                 CleanupStep(old(tenantLimiter.entries), cfg.staleAfter, now))
    {
      ipLimiter.Cleanup(cfg.staleAfter, now);
      tenantLimiter.Cleanup(cfg.staleAfter, now);
    }
  }

  // ----- Runs -----

  datatype Call = Serve(path: string, ip: string, tenant: string, at: real) | Tidy(at: real)

  ghost predicate CallsInOrder(calls: seq<Call>) {
    forall i, j :: 0 <= i < j < |calls| ==> calls[i].at <= calls[j].at
  }

  function StateStep(cfg: Settings, s: State, call: Call): State {
    match call
    case Serve(path, ip, tenant, at) => ServeStep(cfg, s, path, ip, tenant, at).0
    case Tidy(at) => State(CleanupStep(s.ip, cfg.staleAfter, at), CleanupStep(s.tenant, cfg.staleAfter, at))
  }

  function StateAfter(cfg: Settings, calls: seq<Call>): State {
    if calls == [] then State(map[], map[])
    else StateStep(cfg, StateAfter(cfg, calls[..|calls| - 1]), calls[|calls| - 1])
  }

  function Verdicts(cfg: Settings, s: State, call: Call): Verdict
    requires call.Serve?
  {
    ServeStep(cfg, s, call.path, call.ip, call.tenant, call.at).1
  }

  function VerdictOn(cfg: Settings, calls: seq<Call>, call: Call): Verdict
    requires call.Serve?
  {
    Verdicts(cfg, StateAfter(cfg, calls), call)
  }

  /** What each limiter is asked by one call. */
  function IpQuestion(call: Call): seq<Event> {
    match call
    case Tidy(at) => [Sweep(at)]
    case Serve(path, ip, _, at) => if Bypasses(path) then [] else [Request(ip, at)]
  }

  function TenantQuestion(cfg: Settings, s: State, call: Call): seq<Event> {
    match call
    case Tidy(at) => [Sweep(at)]
    case Serve(_, _, tenant, at) =>
      if Verdicts(cfg, s, call) in {Forwarded, TenantLimited} && tenant != "" then [Request(tenant, at)] else []
  }

  /** What each limiter is asked in the course of a run. */
  datatype Logs = Logs(ip: seq<Event>, tenant: seq<Event>)

  function Asked(cfg: Settings, calls: seq<Call>): Logs {
    if calls == [] then Logs([], [])
    else
      var before, call := calls[..|calls| - 1], calls[|calls| - 1];
      var logs := Asked(cfg, before);
      Logs(logs.ip + IpQuestion(call), logs.tenant + TenantQuestion(cfg, StateAfter(cfg, before), call))
  }

  lemma {:induction false} AskedInOrder(cfg: Settings, calls: seq<Call>, now: real)
    requires CallsInOrder(calls) && forall i :: 0 <= i < |calls| ==> calls[i].at <= now
    ensures var logs := Asked(cfg, calls);
            InOrder(logs.ip) && Until(logs.ip, now) && InOrder(logs.tenant) && Until(logs.tenant, now)
  {
    if calls != [] {
      AskedInOrder(cfg, calls[..|calls| - 1], calls[|calls| - 1].at);
      hide VerdictOn;
    }
  }

  /** A limiter asked at most one question. */
  function Follow(cfg: Config, staleAfter: real, entries: Entries, asked: seq<Event>): Entries {
    if asked == [] then entries else Step(cfg, staleAfter, entries, asked[0])
  }

  lemma FollowLog(cfg: Config, staleAfter: real, log: seq<Event>, asked: seq<Event>)
    requires |asked| <= 1
    ensures EntriesAfter(cfg, staleAfter, log + asked)
            == Follow(cfg, staleAfter, EntriesAfter(cfg, staleAfter, log), asked)
  {
    if asked == [] {
      assert log + asked == log;
    } else {
      assert asked == [asked[0]];
      EntriesAfterOneMore(cfg, staleAfter, log, asked[0]);
    }
  }

  lemma StepFollowsQuestions(cfg: Settings, s: State, call: Call)
    ensures StateStep(cfg, s, call) == State(Follow(cfg.ip, cfg.staleAfter, s.ip, IpQuestion(call)),
                                             Follow(cfg.tenant, cfg.staleAfter, s.tenant, TenantQuestion(cfg, s, call)))
  {
    hide AllowStep, CleanupStep, Bypasses;
  }

  /** Each limiter's entries are those of a run of just the questions it was asked. */
  lemma {:induction false} AskedExplainsState(cfg: Settings, calls: seq<Call>)
    ensures StateAfter(cfg, calls) == State(EntriesAfter(cfg.ip, cfg.staleAfter, Asked(cfg, calls).ip),
                                            EntriesAfter(cfg.tenant, cfg.staleAfter, Asked(cfg, calls).tenant))
  {
    if calls != [] {
      var before, call := calls[..|calls| - 1], calls[|calls| - 1];
      var was, s := Asked(cfg, before), StateAfter(cfg, before);
      AskedExplainsState(cfg, before);
      StepFollowsQuestions(cfg, s, call);
      FollowLog(cfg.ip, cfg.staleAfter, was.ip, IpQuestion(call));
      FollowLog(cfg.tenant, cfg.staleAfter, was.tenant, TenantQuestion(cfg, s, call));
      hide EntriesAfter, Follow, StateStep, IpQuestion, TenantQuestion;
    }
  }

  /** Forwarded requests (bypassed ones are not limited) that `counted` selects, within [a, b]. */
  function ForwardedIn(cfg: Settings, calls: seq<Call>, counted: Call -> bool, a: real, b: real): nat {
    if calls == [] then 0
    else
      var before, call := calls[..|calls| - 1], calls[|calls| - 1];
      ForwardedIn(cfg, before, counted, a, b)
      + if call.Serve? && counted(call) && a <= call.at <= b && VerdictOn(cfg, before, call) == Forwarded
        then 1 else 0
  }

  function FromIp(ip: string): Call -> bool {
    (call: Call) => call.Serve? && call.ip == ip
  }

  function ForTenant(tenant: string): Call -> bool {
    (call: Call) => call.Serve? && call.tenant == tenant
  }

  /** One more question grants its key at most what the answer says. */
  lemma GrantedByQuestion(cfg: Config, staleAfter: real, log: seq<Event>, asked: seq<Event>, key: string, a: real,
                          b: real)
    requires |asked| <= 1
    ensures GrantedIn(cfg, staleAfter, log + asked, key, a, b)
            == GrantedIn(cfg, staleAfter, log, key, a, b)
               + if asked != [] && asked[0].Request? && asked[0].key == key && a <= asked[0].at <= b
                    && AllowStep(cfg, EntriesAfter(cfg, staleAfter, log), key, asked[0].at).1 then 1 else 0
  {
    if asked == [] {
      assert log + asked == log;
    } else {
      assert asked == [asked[0]];
      GrantedInOneMore(cfg, staleAfter, log, asked[0], key, a, b);
    }
    hide AllowStep;
  }

  /** A forwarded request was granted by its IP's bucket and, if it has a tenant, by its tenant's. */
  lemma ForwardedMeansGranted(cfg: Settings, s: State, call: Call)
    requires call.Serve? && Verdicts(cfg, s, call) == Forwarded
    ensures IpQuestion(call) == [Request(call.ip, call.at)] && AllowStep(cfg.ip, s.ip, call.ip, call.at).1
    ensures call.tenant != "" ==>
              && TenantQuestion(cfg, s, call) == [Request(call.tenant, call.at)]
              && AllowStep(cfg.tenant, s.tenant, call.tenant, call.at).1
  {
    hide AllowStep, Bypasses;
  }

  lemma {:induction false} ForwardedFromIpWereGranted(cfg: Settings, calls: seq<Call>, ip: string, a: real, b: real)
    ensures ForwardedIn(cfg, calls, FromIp(ip), a, b)
            <= GrantedIn(cfg.ip, cfg.staleAfter, Asked(cfg, calls).ip, ip, a, b)
  {
    if calls != [] {
      hide EntriesAfter, GrantedIn, StateAfter, AllowStep, IpQuestion, TenantQuestion, Verdicts;
      var before, call := calls[..|calls| - 1], calls[|calls| - 1];
      var was, s := Asked(cfg, before), StateAfter(cfg, before);
      ForwardedFromIpWereGranted(cfg, before, ip, a, b);
      AskedExplainsState(cfg, before);
      AtMostOneQuestion(cfg, s, call);
      GrantedByQuestion(cfg.ip, cfg.staleAfter, was.ip, IpQuestion(call), ip, a, b);
      if call.Serve? && Verdicts(cfg, s, call) == Forwarded {
        ForwardedMeansGranted(cfg, s, call);
      }
    }
  }

  lemma {:induction false} ForwardedForTenantWereGranted(cfg: Settings, calls: seq<Call>, tenant: string, a: real,
                                                         b: real)
    requires tenant != ""
    ensures ForwardedIn(cfg, calls, ForTenant(tenant), a, b)
            <= GrantedIn(cfg.tenant, cfg.staleAfter, Asked(cfg, calls).tenant, tenant, a, b)
  {
    if calls != [] {
      hide EntriesAfter, GrantedIn, StateAfter, AllowStep, IpQuestion, TenantQuestion, Verdicts;
      var before, call := calls[..|calls| - 1], calls[|calls| - 1];
      var was, s := Asked(cfg, before), StateAfter(cfg, before);
      ForwardedForTenantWereGranted(cfg, before, tenant, a, b);
      AskedExplainsState(cfg, before);
      AtMostOneQuestion(cfg, s, call);
      GrantedByQuestion(cfg.tenant, cfg.staleAfter, was.tenant, TenantQuestion(cfg, s, call), tenant, a, b);
      if call.Serve? && Verdicts(cfg, s, call) == Forwarded {
        ForwardedMeansGranted(cfg, s, call);
      }
    }
  }

  lemma AtMostOneQuestion(cfg: Settings, s: State, call: Call)
    ensures |IpQuestion(call)| <= 1 && |TenantQuestion(cfg, s, call)| <= 1
  {
    hide Verdicts, Bypasses;
  }

  lemma ForwardedMeetsIpBound(cfg: Settings, calls: seq<Call>, ip: string, a: real, b: real)
    requires TokenBucket.Valid(cfg.ip) && RefillsBeforeStale(cfg.ip, cfg.staleAfter) && CallsInOrder(calls) && a <= b
    ensures ForwardedIn(cfg, calls, FromIp(ip), a, b) as real <= cfg.ip.burst as real + cfg.ip.rate * (b - a)
  {
    hide RefillsBeforeStale, GrantedIn, ForwardedIn, Asked, FromIp, CallsInOrder;
    ForwardedFromIpWereGranted(cfg, calls, ip, a, b);
    LogsInOrder(cfg, calls);
    RateBound(cfg.ip, cfg.staleAfter, Asked(cfg, calls).ip, ip, a, b);
  }

  lemma ForwardedMeetsTenantBound(cfg: Settings, calls: seq<Call>, tenant: string, a: real, b: real)
    requires TokenBucket.Valid(cfg.tenant) && RefillsBeforeStale(cfg.tenant, cfg.staleAfter)
    requires CallsInOrder(calls) && a <= b && tenant != ""
    ensures ForwardedIn(cfg, calls, ForTenant(tenant), a, b) as real
            <= cfg.tenant.burst as real + cfg.tenant.rate * (b - a)
  {
    hide RefillsBeforeStale, GrantedIn, ForwardedIn, Asked, ForTenant, CallsInOrder;
    ForwardedForTenantWereGranted(cfg, calls, tenant, a, b);
    LogsInOrder(cfg, calls);
    RateBound(cfg.tenant, cfg.staleAfter, Asked(cfg, calls).tenant, tenant, a, b);
  }

  lemma LogsInOrder(cfg: Settings, calls: seq<Call>)
    requires CallsInOrder(calls)
    ensures InOrder(Asked(cfg, calls).ip) && InOrder(Asked(cfg, calls).tenant)
  {
    AskedInOrder(cfg, calls, if calls == [] then 0.0 else calls[|calls| - 1].at);
    hide Asked;
  }

  /** Whatever mix of clients and sweeps, forwarded traffic meets the per-IP and the per-tenant bound. */
  lemma ForwardedMeetsBothBounds(cfg: Settings, calls: seq<Call>, ip: string, tenant: string, a: real, b: real)
    requires TokenBucket.Valid(cfg.ip) && RefillsBeforeStale(cfg.ip, cfg.staleAfter)
    requires TokenBucket.Valid(cfg.tenant) && RefillsBeforeStale(cfg.tenant, cfg.staleAfter)
    requires CallsInOrder(calls) && a <= b && tenant != ""
    ensures ForwardedIn(cfg, calls, FromIp(ip), a, b) as real <= cfg.ip.burst as real + cfg.ip.rate * (b - a)
    ensures ForwardedIn(cfg, calls, ForTenant(tenant), a, b) as real
            <= cfg.tenant.burst as real + cfg.tenant.rate * (b - a)
  {
    hide RefillsBeforeStale, ForwardedIn, FromIp, ForTenant, CallsInOrder;
    ForwardedMeetsIpBound(cfg, calls, ip, a, b);
    ForwardedMeetsTenantBound(cfg, calls, tenant, a, b);
  }

  /** Call `i` is one that `counted` selects, at a time within [a, b], and is forwarded. */
  predicate IsForwarded(cfg: Settings, calls: seq<Call>, counted: Call -> bool, a: real, b: real, i: nat)
    requires i < |calls|
  {
    && calls[i].Serve? && counted(calls[i]) && a <= calls[i].at <= b
    && VerdictOn(cfg, calls[..i], calls[i]) == Forwarded
  }

  /** The count is the number of such calls. */
  lemma {:induction false} ForwardedInCounts(cfg: Settings, calls: seq<Call>, counted: Call -> bool, a: real, b: real)
    ensures ForwardedIn(cfg, calls, counted, a, b)
            == |set i: nat | i < |calls| && IsForwarded(cfg, calls, counted, a, b, i)|
  {
    hide VerdictOn;
    if calls != [] {
      var n := |calls| - 1;
      var before := calls[..n];
      ForwardedInCounts(cfg, before, counted, a, b);
      var was := set i: nat | i < n && IsForwarded(cfg, before, counted, a, b, i);
      var now := set i: nat | i < n + 1 && IsForwarded(cfg, calls, counted, a, b, i);
      forall i: nat | i < n
        ensures IsForwarded(cfg, before, counted, a, b, i) == IsForwarded(cfg, calls, counted, a, b, i)
      {
        assert before[..i] == calls[..i];
      }
      hide IsForwarded;
      OneMoreCounted(was, now, n, IsForwarded(cfg, calls, counted, a, b, n));
    }
  }

  // ----- The verdict, without maps and without eviction -----

  /** When the client at `ip` asked for a path that is limited. */
  function IpTimes(calls: seq<Call>, ip: string): seq<real> {
    if calls == [] then []
    else
      var before, call := calls[..|calls| - 1], calls[|calls| - 1];
      if call.Serve? && !Bypasses(call.path) && call.ip == ip then IpTimes(before, ip) + [call.at]
      else IpTimes(before, ip)
  }

  /** When the tenant asked for such a path and the client's own bucket let it through. */
  function TenantTimes(cfg: Settings, calls: seq<Call>, tenant: string): seq<real> {
    if calls == [] then []
    else
      var before, call := calls[..|calls| - 1], calls[|calls| - 1];
      if call.Serve? && !Bypasses(call.path) && call.tenant == tenant
         && Answer(cfg.ip, IpTimes(before, call.ip), call.at)
      then TenantTimes(cfg, before, tenant) + [call.at]
      else TenantTimes(cfg, before, tenant)
  }

  lemma TimesOfOneMore(log: seq<Event>, asked: seq<Event>, key: string)
    requires |asked| <= 1
    ensures TimesOf(log + asked, key)
            == if asked != [] && asked[0].Request? && asked[0].key == key then TimesOf(log, key) + [asked[0].at]
               else TimesOf(log, key)
  {
    if asked == [] {
      assert log + asked == log;
    } else {
      assert (log + asked)[..|log|] == log;
    }
  }

  lemma {:induction false} AskedIpTimes(cfg: Settings, calls: seq<Call>, ip: string)
    ensures TimesOf(Asked(cfg, calls).ip, ip) == IpTimes(calls, ip)
  {
    if calls != [] {
      var before, call := calls[..|calls| - 1], calls[|calls| - 1];
      AskedIpTimes(cfg, before, ip);
      TimesOfOneMore(Asked(cfg, before).ip, IpQuestion(call), ip);
      hide TimesOf, Bypasses, StateAfter, TenantQuestion;
    }
  }

  ghost predicate NeverForgets(cfg: Settings) {
    && TokenBucket.Valid(cfg.ip) && RefillsBeforeStale(cfg.ip, cfg.staleAfter)
    && TokenBucket.Valid(cfg.tenant) && RefillsBeforeStale(cfg.tenant, cfg.staleAfter)
  }

  /** What the two limiters answer, in terms of what they were asked. */
  lemma {:induction false} AnswersOnLog(cfg: Settings, calls: seq<Call>, call: Call)
    requires NeverForgets(cfg) && CallsInOrder(calls) && forall i :: 0 <= i < |calls| ==> calls[i].at <= call.at
    requires call.Serve?
    ensures var s, logs := StateAfter(cfg, calls), Asked(cfg, calls);
            && AllowStep(cfg.ip, s.ip, call.ip, call.at).1 == Answer(cfg.ip, TimesOf(logs.ip, call.ip), call.at)
            && AllowStep(cfg.tenant, s.tenant, call.tenant, call.at).1
               == Answer(cfg.tenant, TimesOf(logs.tenant, call.tenant), call.at)
  {
    hide RefillsBeforeStale, TimesOf, AllowStep, Answer, EntriesAfter, StateAfter, Asked, InOrder, Until;
    AskedInOrder(cfg, calls, call.at);
    AskedExplainsState(cfg, calls);
    AllowedAsIfNeverEvicted(cfg.ip, cfg.staleAfter, Asked(cfg, calls).ip, call.ip, call.at);
    AllowedAsIfNeverEvicted(cfg.tenant, cfg.staleAfter, Asked(cfg, calls).tenant, call.tenant, call.at);
  }

  lemma {:induction false} AskedTenantTimes(cfg: Settings, calls: seq<Call>, tenant: string)
    requires NeverForgets(cfg) && CallsInOrder(calls) && tenant != ""
    ensures TimesOf(Asked(cfg, calls).tenant, tenant) == TenantTimes(cfg, calls, tenant)
  {
    if calls != [] {
      var before, call := calls[..|calls| - 1], calls[|calls| - 1];
      AskedTenantTimes(cfg, before, tenant);
      var s := StateAfter(cfg, before);
      AtMostOneQuestion(cfg, s, call);
      TimesOfOneMore(Asked(cfg, before).tenant, TenantQuestion(cfg, s, call), tenant);
      if call.Serve? {
        AnswersOnLog(cfg, before, call);
        AskedIpTimes(cfg, before, call.ip);
      }
      hide TimesOf, Bypasses, StateAfter, IpQuestion, NeverForgets, AllowStep, Answer, IpTimes;
    }
  }

  /**
   The verdict of every request in every run: the five health paths bypass, and
   otherwise the client's bucket decides and then, for a request with a tenant, the
   tenant's, each as if it had never been evicted or shared.
   */
  lemma {:induction false} VerdictIsExact(cfg: Settings, calls: seq<Call>, call: Call)
    requires NeverForgets(cfg) && CallsInOrder(calls) && forall i :: 0 <= i < |calls| ==> calls[i].at <= call.at
    requires call.Serve?
    ensures var v := VerdictOn(cfg, calls, call);
            var ipOk := Answer(cfg.ip, IpTimes(calls, call.ip), call.at);
            var tenantOk := call.tenant == "" || Answer(cfg.tenant, TenantTimes(cfg, calls, call.tenant), call.at);
            && (v == Bypassed <==> call.path in {"/healthz", "/health", "/health/detail", "/ready", "/metrics"})
            && (v != Bypassed ==>
                  && (v == IpLimited <==> !ipOk)
                  && (v == TenantLimited <==> ipOk && !tenantOk)
                  && (v == Forwarded <==> ipOk && tenantOk))
  {
    AnswersOnLog(cfg, calls, call);
    AskedIpTimes(cfg, calls, call.ip);
    if call.tenant != "" {
      AskedTenantTimes(cfg, calls, call.tenant);
    }
    hide StateAfter, Asked, AllowStep, Answer, IpTimes, TenantTimes, NeverForgets, TimesOf;
  }

  /** A request that its IP's bucket rejects leaves every tenant's bucket alone. */
  lemma RejectedIpSparesTenant(cfg: Settings, calls: seq<Call>, call: Call)
    requires call.Serve? && VerdictOn(cfg, calls, call) == IpLimited
    ensures Asked(cfg, calls + [call]).tenant == Asked(cfg, calls).tenant
    ensures StateAfter(cfg, calls + [call]).tenant == StateAfter(cfg, calls).tenant
  {
    assert (calls + [call])[..|calls|] == calls;
  }
}
