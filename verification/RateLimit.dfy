/**
 The keyed rate limiter: a map from key to bucket, opened on demand by `Allow`
 and thinned out by `Cleanup`.  One `Allow` call is one step; the clock is a parameter.
 */
module RateLimit {
  import opened Options
  import opened IntSets
  import opened TokenBucket

  /** `lastSeen` is when the key was last asked about. */
  datatype Entry = Entry(bucket: Bucket, lastSeen: real)

  type Entries = map<string, Entry>

  function AllowStep(cfg: Config, entries: Entries, key: string, now: real): (Entries, bool) {
    var known := if key in entries then Some(entries[key].bucket) else None;
    var (b, ok) := Take(cfg, Opened(cfg, known, now), now);
    (entries[key := Entry(b, now)], ok)
  }

  predicate Stale(e: Entry, staleAfter: real, now: real) {
    e.lastSeen < now - staleAfter
  }

  function CleanupStep(entries: Entries, staleAfter: real, now: real): Entries {
    map key | key in entries && !Stale(entries[key], staleAfter, now) :: entries[key]
  }

  class Limiter {
    const cfg: Config
    var entries: Entries

    constructor (cfg: Config)
      ensures this.cfg == cfg && entries == map[]
    {
      this.cfg := cfg;
      entries := map[];
    }

    method Allow(key: string, now: real) returns (ok: bool)
      modifies this
      ensures (entries, ok) == AllowStep(cfg, old(entries), key, now)
    {
      var e;
      if key in entries {
        e := entries[key];
      } else {
        e := Entry(Full(cfg, now), now);
      }
      var (b, granted) := Take(cfg, e.bucket, now);
      entries := entries[key := Entry(b, now)];
      ok := granted;
    }

    method Cleanup(staleAfter: real, now: real)
      modifies this
      ensures entries == CleanupStep(old(entries), staleAfter, now)
    {
      var rest := entries.Keys;
      while rest != {}
        invariant rest <= entries.Keys
        invariant forall k :: k in entries ==> k in old(entries) && entries[k] == old(entries)[k]
        invariant forall k :: k in old(entries) && k !in entries ==> Stale(old(entries)[k], staleAfter, now)
        invariant forall k :: k in entries && k !in rest ==> !Stale(entries[k], staleAfter, now)
        decreases rest
      {
        var key :| key in rest;
        rest := rest - {key};
        if Stale(entries[key], staleAfter, now) {
          entries := entries - {key};
        }
      }
    }
  }

  // ----- Runs -----

  datatype Event = Request(key: string, at: real) | Sweep(at: real)

  ghost predicate InOrder(events: seq<Event>) {
    forall i, j :: 0 <= i < j < |events| ==> events[i].at <= events[j].at
  }

  ghost predicate Until(events: seq<Event>, now: real) {
    forall i :: 0 <= i < |events| ==> events[i].at <= now
  }

  function EntriesAfter(cfg: Config, staleAfter: real, events: seq<Event>): Entries {
    if events == [] then map[]
    else
      Step(cfg, staleAfter, EntriesAfter(cfg, staleAfter, events[..|events| - 1]), events[|events| - 1])
  }

  function Step(cfg: Config, staleAfter: real, entries: Entries, event: Event): Entries {
    match event
    case Request(key, at) => AllowStep(cfg, entries, key, at).0
    case Sweep(at) => CleanupStep(entries, staleAfter, at)
  }

  lemma EntriesAfterOneMore(cfg: Config, staleAfter: real, events: seq<Event>, event: Event)
    ensures EntriesAfter(cfg, staleAfter, events + [event])
            == Step(cfg, staleAfter, EntriesAfter(cfg, staleAfter, events), event)
  {
    assert (events + [event])[..|events|] == events;
    hide AllowStep, CleanupStep;
  }

  /** The answer the evicting limiter gives to `key` at `now` after `events`. */
  predicate Allowed(cfg: Config, staleAfter: real, events: seq<Event>, key: string, now: real) {
    AllowStep(cfg, EntriesAfter(cfg, staleAfter, events), key, now).1
  }

  /** When `key` was asked about; all that one key's own bucket ever sees. */
  function TimesOf(events: seq<Event>, key: string): seq<real> {
    if events == [] then []
    else
      var before := TimesOf(events[..|events| - 1], key);
      match events[|events| - 1]
      case Request(k, at) => if k == key then before + [at] else before
      case Sweep(_) => before
  }

  lemma {:induction false} TimesOrdered(events: seq<Event>, key: string, now: real)
    requires InOrder(events) && Until(events, now)
    ensures Ordered(TimesOf(events, key)) && NotBefore(TimesOf(events, key), now)
  {
    if events != [] {
      var before := events[..|events| - 1];
      TimesOrdered(before, key, events[|events| - 1].at);
    }
  }

  lemma TimesOrderedInRun(events: seq<Event>, key: string)
    requires InOrder(events)
    ensures Ordered(TimesOf(events, key))
  {
    if events != [] {
      TimesOrdered(events, key, events[|events| - 1].at);
    }
  }

  /** The refill condition: by the time an entry is stale, its bucket is full again. */
  ghost predicate RefillsBeforeStale(cfg: Config, staleAfter: real) {
    cfg.burst == 0 || cfg.rate * staleAfter >= cfg.burst as real
  }

  /** Either the entry is the key's own bucket, or that bucket would be full by now. */
  ghost predicate Tracks(cfg: Config, entries: Entries, key: string, times: seq<real>, now: real) {
    if key in entries then
      && After(cfg, times) == Some(entries[key].bucket)
      && entries[key].bucket.last == entries[key].lastSeen
      && 0.0 <= entries[key].bucket.tokens <= cfg.burst as real
    else
      forall later :: now <= later ==> Ready(cfg, times, later) == cfg.burst as real
  }

  lemma StaleMeansFull(cfg: Config, b: Bucket, staleAfter: real, sweep: real, later: real)
    requires Valid(cfg) && RefillsBeforeStale(cfg, staleAfter)
    requires 0.0 <= b.tokens <= cfg.burst as real
    requires b.last < sweep - staleAfter && b.last <= sweep <= later
    ensures Available(cfg, b, later) == cfg.burst as real
  {
    var idle := later - b.last;
    RefillPositive(cfg, b.last, later);
    if cfg.burst != 0 {
      assert Refill(cfg, staleAfter) == cfg.rate * staleAfter;
      assert Refill(cfg, idle) >= Refill(cfg, staleAfter) by {
        RefillPositive(cfg, staleAfter, idle);
        RefillAdds(cfg, 0.0, staleAfter, idle);
        assert staleAfter - 0.0 == staleAfter && idle - 0.0 == idle;
      }
    }
    hide Refill;
  }

  lemma {:induction false} EntriesTrack(cfg: Config, staleAfter: real, events: seq<Event>, key: string, now: real)
    requires Valid(cfg) && RefillsBeforeStale(cfg, staleAfter)
    requires InOrder(events) && Until(events, now)
    ensures Tracks(cfg, EntriesAfter(cfg, staleAfter, events), key, TimesOf(events, key), now)
    ensures key in EntriesAfter(cfg, staleAfter, events) ==>
              EntriesAfter(cfg, staleAfter, events)[key].lastSeen <= now
  {
    if events == [] {
      forall later | now <= later
        ensures Ready(cfg, [], later) == cfg.burst as real
      {
        ReadyFresh(cfg, later);
      }
    } else {
      var before, last := events[..|events| - 1], events[|events| - 1];
      EntriesTrack(cfg, staleAfter, before, key, last.at);
      match last
      case Request(k, at) =>
        if k == key {
          TimesOrdered(before, key, at);
          RequestTracks(cfg, EntriesAfter(cfg, staleAfter, before), key, TimesOf(before, key), at, now);
        }
      case Sweep(at) =>
        SweepTracks(cfg, staleAfter, EntriesAfter(cfg, staleAfter, before), key, TimesOf(before, key), at, now);
    }
  }

  lemma RequestTracks(cfg: Config, entries: Entries, key: string, times: seq<real>, at: real, now: real)
    requires Valid(cfg) && at <= now
    requires Tracks(cfg, entries, key, times, at) && Ordered(times) && NotBefore(times, at)
    ensures Tracks(cfg, AllowStep(cfg, entries, key, at).0, key, times + [at], now)
    ensures AllowStep(cfg, entries, key, at).1 == Answer(cfg, times, at)
  {
    ReadyNonNegative(cfg, times, at);
    assert (times + [at])[..|times|] == times;
    if key !in entries {
      assert Ready(cfg, times, at) == cfg.burst as real;
      ReadyFresh(cfg, at);
    }
    hide Refill;
  }

  lemma SweepTracks(cfg: Config, staleAfter: real, entries: Entries, key: string, times: seq<real>, at: real, now: real)
    requires Valid(cfg) && RefillsBeforeStale(cfg, staleAfter) && at <= now
    requires Tracks(cfg, entries, key, times, at)
    requires key in entries ==> entries[key].lastSeen <= at
    ensures Tracks(cfg, CleanupStep(entries, staleAfter, at), key, times, now)
  {
    if key in entries && Stale(entries[key], staleAfter, at) {
      forall later | now <= later
        ensures Ready(cfg, times, later) == cfg.burst as real
      {
        StaleMeansFull(cfg, entries[key].bucket, staleAfter, at, later);
      }
    }
  }

  /**
   Eviction cannot be observed, and neither can traffic on other keys: the
   answer is the one a never-evicting bucket gives to this key's requests alone.
   */
  lemma AllowedAsIfNeverEvicted(cfg: Config, staleAfter: real, events: seq<Event>, key: string, now: real)
    requires Valid(cfg) && RefillsBeforeStale(cfg, staleAfter)
    requires InOrder(events) && Until(events, now)
    ensures Allowed(cfg, staleAfter, events, key, now) == Answer(cfg, TimesOf(events, key), now)
  {
    EntriesTrack(cfg, staleAfter, events, key, now);
    TimesOrdered(events, key, now);
    RequestTracks(cfg, EntriesAfter(cfg, staleAfter, events), key, TimesOf(events, key), now, now);
  }

  /** Requests for `key` granted at a time within [a, b]. */
  function GrantedIn(cfg: Config, staleAfter: real, events: seq<Event>, key: string, a: real, b: real): nat {
    if events == [] then 0
    else
      var before, last := events[..|events| - 1], events[|events| - 1];
      GrantedIn(cfg, staleAfter, before, key, a, b)
      + if last.Request? && last.key == key && a <= last.at <= b && Allowed(cfg, staleAfter, before, key, last.at)
        then 1 else 0
  }

  lemma GrantedInOneMore(cfg: Config, staleAfter: real, events: seq<Event>, event: Event, key: string, a: real, b: real)
    ensures GrantedIn(cfg, staleAfter, events + [event], key, a, b)
            == GrantedIn(cfg, staleAfter, events, key, a, b)
               + if event.Request? && event.key == key && a <= event.at <= b
                    && Allowed(cfg, staleAfter, events, key, event.at) then 1 else 0
  {
    assert (events + [event])[..|events|] == events;
    hide Allowed;
  }

  lemma {:induction false} GrantedAsIfNeverEvicted(cfg: Config, staleAfter: real, events: seq<Event>, key: string,
                                                   a: real, b: real)
    requires Valid(cfg) && RefillsBeforeStale(cfg, staleAfter) && InOrder(events)
    ensures GrantedIn(cfg, staleAfter, events, key, a, b) == GrantsIn(cfg, TimesOf(events, key), a, b)
  {
    if events != [] {
      var before, last := events[..|events| - 1], events[|events| - 1];
      GrantedAsIfNeverEvicted(cfg, staleAfter, before, key, a, b);
      if last.Request? && last.key == key {
        AllowedAsIfNeverEvicted(cfg, staleAfter, before, key, last.at);
        var times := TimesOf(before, key);
        assert (times + [last.at])[..|times|] == times;
      }
      hide Allowed, Answer;
    }
  }

  /** The windowed rate bound, in every run with any cleanups. */
  lemma RateBound(cfg: Config, staleAfter: real, events: seq<Event>, key: string, a: real, b: real)
    requires Valid(cfg) && RefillsBeforeStale(cfg, staleAfter) && InOrder(events) && a <= b
    ensures GrantedIn(cfg, staleAfter, events, key, a, b) as real <= cfg.burst as real + cfg.rate * (b - a)
  {
    hide *;
    GrantedAsIfNeverEvicted(cfg, staleAfter, events, key, a, b);
    TimesOrderedInRun(events, key);
    WindowBound(cfg, TimesOf(events, key), a, b);
  }

  /** Event `i` asks for `key` at a time within [a, b] and is granted. */
  predicate IsGrant(cfg: Config, staleAfter: real, events: seq<Event>, key: string, a: real, b: real, i: nat)
    requires i < |events|
  {
    && events[i].Request? && events[i].key == key && a <= events[i].at <= b
    && Allowed(cfg, staleAfter, events[..i], key, events[i].at)
  }

  /** The count is the number of such events. */
  lemma {:induction false} GrantedInCounts(cfg: Config, staleAfter: real, events: seq<Event>, key: string, a: real,
                                           b: real)
    ensures GrantedIn(cfg, staleAfter, events, key, a, b)
            == |set i: nat | i < |events| && IsGrant(cfg, staleAfter, events, key, a, b, i)|
  {
    hide Allowed;
    if events != [] {
      var n := |events| - 1;
      var before := events[..n];
      GrantedInCounts(cfg, staleAfter, before, key, a, b);
      var was := set i: nat | i < n && IsGrant(cfg, staleAfter, before, key, a, b, i);
      var now := set i: nat | i < n + 1 && IsGrant(cfg, staleAfter, events, key, a, b, i);
      forall i: nat | i < n
        ensures IsGrant(cfg, staleAfter, before, key, a, b, i) == IsGrant(cfg, staleAfter, events, key, a, b, i)
      {
        assert before[..i] == events[..i];
      }
      hide IsGrant;
      OneMoreCounted(was, now, n, IsGrant(cfg, staleAfter, events, key, a, b, n));
    }
  }

  // ----- Without the refill condition both claims fail -----

  ghost predicate EvictionUnobservable(cfg: Config, staleAfter: real) {
    forall events, key, now | InOrder(events) && Until(events, now) ::
      Allowed(cfg, staleAfter, events, key, now) == Answer(cfg, TimesOf(events, key), now)
  }

  ghost predicate RateBounded(cfg: Config, staleAfter: real) {
    forall events, key, a, b | InOrder(events) && a <= b ::
      GrantedIn(cfg, staleAfter, events, key, a, b) as real <= cfg.burst as real + cfg.rate * (b - a)
  }

  /** `n` requests for one key at the same moment. */
  function Flurry(n: nat, key: string, at: real): seq<Event> {
    seq(n, _ => Request(key, at))
  }

  /** The entries once `n` of the requests of a flurry for a new key were granted. */
  function Spent(cfg: Config, entries: Entries, n: nat, key: string, at: real): Entries {
    if n == 0 then entries else entries[key := Entry(Bucket(cfg.burst as real - n as real, at), at)]
  }

  lemma SpendOne(cfg: Config, entries: Entries, n: nat, key: string, at: real)
    requires n < cfg.burst && key !in entries
    ensures AllowStep(cfg, Spent(cfg, entries, n, key, at), key, at)
            == (Spent(cfg, entries, n + 1, key, at), true)
  {
    assert Refill(cfg, at - at) == 0.0;
    hide Refill;
    var spent := Spent(cfg, entries, n, key, at);
    var e := Entry(Bucket(cfg.burst as real - (n + 1) as real, at), at);
    assert spent[key := e] == Spent(cfg, entries, n + 1, key, at);
  }

  lemma FlurryOneMore(prefix: seq<Event>, n: nat, key: string, at: real)
    ensures prefix + Flurry(n, key, at)
            == if n == 0 then prefix else prefix + Flurry(n - 1, key, at) + [Request(key, at)]
  {
    assert n > 0 ==> Flurry(n, key, at) == Flurry(n - 1, key, at) + [Request(key, at)];
  }

  /** A full bucket grants the first `burst` requests of a flurry. */
  lemma {:induction false} FlurryGranted(cfg: Config, staleAfter: real, prefix: seq<Event>, n: nat, key: string,
                                         at: real)
    requires n <= cfg.burst && key !in EntriesAfter(cfg, staleAfter, prefix) && 0.0 <= at
    ensures var all, entries := prefix + Flurry(n, key, at), EntriesAfter(cfg, staleAfter, prefix);
            && GrantedIn(cfg, staleAfter, all, key, 0.0, at) == GrantedIn(cfg, staleAfter, prefix, key, 0.0, at) + n
            && EntriesAfter(cfg, staleAfter, all) == Spent(cfg, entries, n, key, at)
  {
    FlurryOneMore(prefix, n, key, at);
    var entries := EntriesAfter(cfg, staleAfter, prefix);
    assert n == 0 ==> Spent(cfg, entries, n, key, at) == entries;
    hide AllowStep, Spent, Flurry, EntriesAfter, GrantedIn;
    if n > 0 {
      var fewer := prefix + Flurry(n - 1, key, at);
      FlurryGranted(cfg, staleAfter, prefix, n - 1, key, at);
      SpendOne(cfg, entries, n - 1, key, at);
      EntriesAfterOneMore(cfg, staleAfter, fewer, Request(key, at));
      GrantedInOneMore(cfg, staleAfter, fewer, Request(key, at), key, 0.0, at);
    }
  }

  /** A moment after the entry went stale and before its bucket is full again. */
  function TooSoon(cfg: Config, staleAfter: real): (t: real)
    requires Valid(cfg) && !RefillsBeforeStale(cfg, staleAfter)
    ensures staleAfter < t && 0.0 <= t && cfg.rate * t < cfg.burst as real
  {
    if staleAfter < 0.0 then 0.0
    else if cfg.rate == 0.0 then staleAfter + 1.0
    else
      var t := (staleAfter + cfg.burst as real / cfg.rate) / 2.0;
      assert cfg.rate * (cfg.burst as real / cfg.rate) == cfg.burst as real;
      t
  }

  /** Spend the burst at time 0, let the sweep forget it, and spend it again. */
  function DoubleSpend(cfg: Config, staleAfter: real, key: string): seq<Event>
    requires Valid(cfg) && !RefillsBeforeStale(cfg, staleAfter)
  {
    var t := TooSoon(cfg, staleAfter);
    Flurry(cfg.burst, key, 0.0) + [Sweep(t)] + Flurry(cfg.burst, key, t)
  }

  lemma DoubleSpendGranted(cfg: Config, staleAfter: real, key: string)
    requires Valid(cfg) && !RefillsBeforeStale(cfg, staleAfter)
    ensures var t := TooSoon(cfg, staleAfter);
            && InOrder(DoubleSpend(cfg, staleAfter, key))
            && GrantedIn(cfg, staleAfter, DoubleSpend(cfg, staleAfter, key), key, 0.0, t) == 2 * cfg.burst
            && cfg.burst as real + cfg.rate * t < (2 * cfg.burst) as real
  {
    hide Refill, TooSoon, EntriesAfter, GrantedIn;
    var t := TooSoon(cfg, staleAfter);
    var first := Flurry(cfg.burst, key, 0.0);
    var swept := first + [Sweep(t)];
    assert [] + first == first && t - 0.0 == t;
    NothingYet(cfg, staleAfter, key);
    FlurryGranted(cfg, staleAfter, [], cfg.burst, key, 0.0);
    GrantedWithin(cfg, staleAfter, first, key, 0.0, t);
    EntriesAfterOneMore(cfg, staleAfter, first, Sweep(t));
    GrantedInOneMore(cfg, staleAfter, first, Sweep(t), key, 0.0, t);
    assert key !in EntriesAfter(cfg, staleAfter, swept);
    FlurryGranted(cfg, staleAfter, swept, cfg.burst, key, t);
  }

  lemma NothingYet(cfg: Config, staleAfter: real, key: string)
    ensures EntriesAfter(cfg, staleAfter, []) == map[] && GrantedIn(cfg, staleAfter, [], key, 0.0, 0.0) == 0
  {
  }

  /** Widening a window past the end of the run adds nothing. */
  lemma {:induction false} GrantedWithin(cfg: Config, staleAfter: real, events: seq<Event>, key: string, now: real,
                                         later: real)
    requires Until(events, now) && now <= later
    ensures GrantedIn(cfg, staleAfter, events, key, 0.0, later) == GrantedIn(cfg, staleAfter, events, key, 0.0, now)
  {
    if events != [] {
      GrantedWithin(cfg, staleAfter, events[..|events| - 1], key, now, later);
      hide Allowed;
    }
  }

  /** Exactly the refill condition makes the windowed bound hold in every run. */
  lemma RateBoundedIffRefills(cfg: Config, staleAfter: real)
    requires Valid(cfg)
    ensures RateBounded(cfg, staleAfter) <==> RefillsBeforeStale(cfg, staleAfter)
  {
    if RefillsBeforeStale(cfg, staleAfter) {
      hide Refill, GrantedIn, InOrder;
      forall events, key, a, b | InOrder(events) && a <= b
        ensures GrantedIn(cfg, staleAfter, events, key, a, b) as real <= cfg.burst as real + cfg.rate * (b - a)
      {
        RateBound(cfg, staleAfter, events, key, a, b);
      }
    } else {
      hide Refill, GrantedIn, InOrder, DoubleSpend, TooSoon;
      DoubleSpendGranted(cfg, staleAfter, "k");
      var run, t := DoubleSpend(cfg, staleAfter, "k"), TooSoon(cfg, staleAfter);
      assert t - 0.0 == t;
      assert GrantedIn(cfg, staleAfter, run, "k", 0.0, t) as real > cfg.burst as real + cfg.rate * (t - 0.0);
    }
  }

  /** Exactly the refill condition makes eviction impossible to observe. */
  lemma EvictionUnobservableIffRefills(cfg: Config, staleAfter: real)
    requires Valid(cfg)
    ensures EvictionUnobservable(cfg, staleAfter) <==> RefillsBeforeStale(cfg, staleAfter)
  {
    hide Refill, Answer, Allowed, DoubleSpend, GrantedIn, GrantsIn, InOrder, Until, TimesOf, TooSoon;
    if RefillsBeforeStale(cfg, staleAfter) {
      forall events, key, now | InOrder(events) && Until(events, now)
        ensures Allowed(cfg, staleAfter, events, key, now) == Answer(cfg, TimesOf(events, key), now)
      {
        AllowedAsIfNeverEvicted(cfg, staleAfter, events, key, now);
      }
    } else if EvictionUnobservable(cfg, staleAfter) {
      hide EvictionUnobservable;
      var run, t := DoubleSpend(cfg, staleAfter, "k"), TooSoon(cfg, staleAfter);
      DoubleSpendGranted(cfg, staleAfter, "k");
      UnobservableGrants(cfg, staleAfter, run, "k", 0.0, t);
      TimesOrderedInRun(run, "k");
      assert t - 0.0 == t;
      WindowBound(cfg, TimesOf(run, "k"), 0.0, t);
      assert false;
    }
  }

  lemma {:induction false} UnobservableGrants(cfg: Config, staleAfter: real, events: seq<Event>, key: string, a: real,
                                              b: real)
    requires EvictionUnobservable(cfg, staleAfter) && InOrder(events)
    ensures GrantedIn(cfg, staleAfter, events, key, a, b) == GrantsIn(cfg, TimesOf(events, key), a, b)
  {
    hide Allowed, Answer;
    if events != [] {
      var before, last := events[..|events| - 1], events[|events| - 1];
      assert InOrder(before) && Until(before, last.at) && events == before + [last];
      UnobservableGrants(cfg, staleAfter, before, key, a, b);
      GrantedInOneMore(cfg, staleAfter, before, last, key, a, b);
      if last.Request? && last.key == key {
        assert Allowed(cfg, staleAfter, before, key, last.at) == Answer(cfg, TimesOf(before, key), last.at);
        GrantsInOneMore(cfg, TimesOf(before, key), last.at, a, b);
      }
      hide EvictionUnobservable, GrantedIn, GrantsIn, InOrder, Until;
    }
  }
}
