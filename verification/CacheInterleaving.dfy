/**
 The TTL cache under concurrency.  `Get` reads the entry under the read lock,
 compares it with the clock outside any lock, and takes the write lock to count
 the hit or the miss (and to delete what it read as expired); the sweep reads the
 clock before it takes the lock.  Each such piece is one step of a thread, and
 steps of different threads interleave freely.
 */
module CacheInterleaving {
  import opened Options
  import opened Cache

  type Value(==, !new) = int

  type Items = map<string, Entry<Value>>

  /** Where a thread stands inside a call.  `spec` fields record, for the proof only, what the log said. */
  datatype Phase =
    | Idle
    | Read(key: string, seen: Option<Entry<Value>>, spec: Option<Entry<Value>>)
    | Hitting(key: string, value: Value, spec: Option<Entry<Value>>, checkedAt: int)
    | Missing(key: string, seen: Option<Entry<Value>>, checkedAt: int)
    | Sweeping(now: int)

  datatype Hit = Hit(key: string, value: Value, spec: Option<Entry<Value>>, checkedAt: int)

  datatype State = State(
    ttl: int,
    items: Items,
    clock: int,
    threads: map<nat, Phase>,
    hits: nat,
    misses: nat,
    log: Log<Value>,          // every Set and invalidation so far
    returnedHits: seq<Hit>,   // every Get that returned a value
    completedGets: nat,
    overtaken: set<string>)   // keys whose live entry a late delete took since their last Set

  datatype Step =
    | Tick(elapsed: nat)
    | GetRead(tid: nat, key: string)
    | GetCheck(tid: nat)
    | GetFinish(tid: nat)
    | DoSet(key: string, value: Value)
    | DoInvalidate(key: string)
    | DoInvalidateAll
    | SweepClock(tid: nat)
    | SweepApply(tid: nat)

  function At(s: State, tid: nat): Phase {
    if tid in s.threads then s.threads[tid] else Idle
  }

  function Init(ttl: int, now: int): State {
    State(ttl, map[], now, map[], 0, 0, [], [], 0, {})
  }

  predicate Live(s: State, key: string) {
    key in s.items && !Expired(s.items[key], s.clock)
  }

  function Next(s: State, step: Step): State {
    match step
    case Tick(d) => s.(clock := s.clock + d)
    case GetRead(t, key) =>
      if At(s, t) != Idle then s
      else
        var seen := if key in s.items then Some(s.items[key]) else None;
        s.(threads := s.threads[t := Read(key, seen, Lookup(s.log, key))])
    case GetCheck(t) =>
      (match At(s, t)
       case Read(key, seen, spec) =>
         if seen.None? || Expired(seen.value, s.clock) then s.(threads := s.threads[t := Missing(key, seen, s.clock)])
         else s.(threads := s.threads[t := Hitting(key, seen.value.value, spec, s.clock)])
       case _ => s)
    case GetFinish(t) =>
      (match At(s, t)
       case Missing(key, seen, _) =>
         var deletes := seen.Some? && Expired(seen.value, s.clock);
         s.(threads := s.threads[t := Idle], misses := s.misses + 1, completedGets := s.completedGets + 1,
            items := if deletes then s.items - {key} else s.items,
            overtaken := if deletes && Live(s, key) then s.overtaken + {key} else s.overtaken)
       case Hitting(key, value, spec, at) =>
         s.(threads := s.threads[t := Idle], hits := s.hits + 1, completedGets := s.completedGets + 1,
            returnedHits := s.returnedHits + [Hit(key, value, spec, at)])
       case _ => s)
    case DoSet(key, value) =>
      var e := Entry(value, s.clock + s.ttl);
      s.(items := s.items[key := e], log := s.log + [Op.Set(key, e)], overtaken := s.overtaken - {key})
    case DoInvalidate(key) => s.(items := s.items - {key}, log := s.log + [Op.Invalidate(key)])
    case DoInvalidateAll => s.(items := map[], log := s.log + [Op.InvalidateAll])
    case SweepClock(t) =>
      if At(s, t) != Idle then s else s.(threads := s.threads[t := Sweeping(s.clock)])
    case SweepApply(t) =>
      (match At(s, t)
       case Sweeping(now) =>
         s.(threads := s.threads[t := Idle],
            items := map k | k in s.items && !Expired(s.items[k], now) :: s.items[k])
       case _ => s)
  }

  function Reach(s: State, steps: seq<Step>): State {
    if steps == [] then s else Next(Reach(s, steps[..|steps| - 1]), steps[|steps| - 1])
  }

  ghost predicate PhaseSound(p: Phase, clock: int) {
    match p
    case Idle => true
    case Read(_, seen, spec) => seen.Some? ==> spec == seen
    case Hitting(key, value, spec, at) => HitSound(Hit(key, value, spec, at))
    case Missing(_, seen, at) => at <= clock && (seen.Some? ==> Expired(seen.value, at))
    case Sweeping(now) => now <= clock
  }

  /** The value is what the log held for the key at the snapshot, and it was unexpired at the check. */
  ghost predicate HitSound(h: Hit) {
    h.spec.Some? && h.spec.value.value == h.value && !Expired(h.spec.value, h.checkedAt)
  }

  ghost predicate Inv(s: State) {
    && (forall key :: key in s.items ==> Lookup(s.log, key) == Some(s.items[key]))
    && (forall key :: key !in s.items && Lookup(s.log, key).Some? ==>
          Expired(Lookup(s.log, key).value, s.clock) || key in s.overtaken)
    && (forall key :: key in s.overtaken ==> key !in s.items)
    && (forall t :: t in s.threads ==> PhaseSound(s.threads[t], s.clock))
    && (forall i :: 0 <= i < |s.returnedHits| ==> HitSound(s.returnedHits[i]))
    && s.hits + s.misses == s.completedGets
    && s.hits == |s.returnedHits|
  }

  lemma {:induction false} PhasesLater(s: State, later: int)
    requires Inv(s) && s.clock <= later
    ensures forall t :: t in s.threads ==> PhaseSound(s.threads[t], later)
  {
    forall t | t in s.threads
      ensures PhaseSound(s.threads[t], later)
    {
      assert PhaseSound(s.threads[t], s.clock);
    }
  }

  lemma {:induction false} GetKeepsInv(s: State, step: Step)
    requires Inv(s) && (step.GetRead? || step.GetCheck? || step.GetFinish?)
    ensures Inv(Next(s, step))
  {
    var t := step.tid;
    if t in s.threads {
      assert PhaseSound(s.threads[t], s.clock);
    }
  }

  lemma {:induction false} WriteKeepsInv(s: State, step: Step)
    requires Inv(s) && (step.DoSet? || step.DoInvalidate? || step.DoInvalidateAll?)
    ensures Inv(Next(s, step))
  {
    var s' := Next(s, step);
    var op := s'.log[|s.log|];
    assert s'.log == s.log + [op];
    forall key
      ensures key in s'.items ==> Lookup(s'.log, key) == Some(s'.items[key])
      ensures key !in s'.items && Lookup(s'.log, key).Some? ==>
                Expired(Lookup(s'.log, key).value, s'.clock) || key in s'.overtaken
    {
      LookupOneMore(s.log, op, key);
    }
  }

  lemma {:induction false} OtherKeepsInv(s: State, step: Step)
    requires Inv(s) && (step.Tick? || step.SweepClock? || step.SweepApply?)
    ensures Inv(Next(s, step))
  {
    if step.Tick? {
      PhasesLater(s, s.clock + step.elapsed);
    } else if step.tid in s.threads {
      assert PhaseSound(s.threads[step.tid], s.clock);
    }
  }

  /** The invariant holds after every interleaving of every set of calls. */
  lemma {:induction false} ReachableInv(ttl: int, now: int, steps: seq<Step>)
    ensures Inv(Reach(Init(ttl, now), steps))
  {
    if steps != [] {
      var before, step := steps[..|steps| - 1], steps[|steps| - 1];
      ReachableInv(ttl, now, before);
      var s := Reach(Init(ttl, now), before);
      match step
      case GetRead(_, _) | GetCheck(_) | GetFinish(_) => GetKeepsInv(s, step);
      case DoSet(_, _) | DoInvalidate(_) | DoInvalidateAll => WriteKeepsInv(s, step);
      case Tick(_) | SweepClock(_) | SweepApply(_) => OtherKeepsInv(s, step);
    }
  }

  /** Hits are sound over all interleavings, and every completed Get is counted once. */
  lemma {:induction false} HitsAreSound(ttl: int, now: int, steps: seq<Step>)
    ensures var s := Reach(Init(ttl, now), steps);
            && (forall i :: 0 <= i < |s.returnedHits| ==> HitSound(s.returnedHits[i]))
            && (forall key :: key in s.items ==> Lookup(s.log, key) == Some(s.items[key]))
            && s.hits + s.misses == s.completedGets
  {
    ReachableInv(ttl, now, steps);
  }

  /** The thread a step belongs to; writes and the clock belong to none of the threads modelled. */
  predicate StepsOf(step: Step, tid: nat) {
    (step.GetRead? || step.GetCheck? || step.GetFinish? || step.SweepClock? || step.SweepApply?) && step.tid == tid
  }

  lemma {:induction false} OthersLeavePhase(s: State, tid: nat, between: seq<Step>)
    requires forall step :: step in between ==> !StepsOf(step, tid)
    ensures At(Reach(s, between), tid) == At(s, tid)
  {
    if between != [] {
      var before, step := between[..|between| - 1], between[|between| - 1];
      assert step in between && forall b :: b in before ==> b in between;
      OthersLeavePhase(s, tid, before);
    }
  }

  /**
   Whatever others do in the gap, a Get hits if and only if the key had an entry at
   the read that is unexpired at the check, and then with that entry's value.
   */
  lemma {:induction false} GetHitsIff(s: State, tid: nat, key: string, between: seq<Step>)
    requires At(s, tid) == Idle && forall step :: step in between ==> !StepsOf(step, tid)
    ensures var u := Reach(Next(s, GetRead(tid, key)), between);
            var p := At(Next(u, GetCheck(tid)), tid);
            if key in s.items && !Expired(s.items[key], u.clock) then
              p.Hitting? && p.key == key && p.value == s.items[key].value && p.checkedAt == u.clock
            else p.Missing? && p.key == key && p.seen.Some? == (key in s.items)
  {
    OthersLeavePhase(Next(s, GetRead(tid, key)), tid, between);
    hide Reach;
  }

  /** The sweep drops exactly entries that had expired when it read the clock; never a live one. */
  lemma {:induction false} SweepDropsOnlyExpired(ttl: int, now: int, steps: seq<Step>, tid: nat, key: string)
    ensures var s := Reach(Init(ttl, now), steps);
            var s' := Next(s, SweepApply(tid));
            && (key in s'.items ==> key in s.items && s'.items[key] == s.items[key])
            && (Live(s, key) ==> Live(s', key))
            && (At(s, tid).Sweeping? && key in s'.items ==> !Expired(s'.items[key], At(s, tid).now))
  {
    ReachableInv(ttl, now, steps);
    var s := Reach(Init(ttl, now), steps);
    if tid in s.threads {
      assert PhaseSound(s.threads[tid], s.clock);
    }
  }

  /**
   A finishing Get drops a live entry exactly when it saw an entry that has
   expired while the key holds a newer, unexpired one.
   */
  lemma {:induction false} FinishDropsLiveIff(ttl: int, now: int, steps: seq<Step>, tid: nat, key: string)
    requires Live(Reach(Init(ttl, now), steps), key)
    ensures var s := Reach(Init(ttl, now), steps);
            !Live(Next(s, GetFinish(tid)), key) <==>
            && At(s, tid).Missing? && At(s, tid).key == key && At(s, tid).seen.Some?
            && At(s, tid).seen != Some(s.items[key])
  {
    ReachableInv(ttl, now, steps);
    var s := Reach(Init(ttl, now), steps);
    if tid in s.threads {
      assert PhaseSound(s.threads[tid], s.clock);
    }
  }

  /** What the cache holds is what the log says is live, except exactly where a late delete took a key that still is. */
  lemma {:induction false} AgreesUnlessOvertaken(ttl: int, now: int, steps: seq<Step>, key: string)
    ensures var s := Reach(Init(ttl, now), steps);
            (if Live(s, key) then Some(s.items[key].value) else None) == Answer(s.log, key, s.clock)
            <==> !(key in s.overtaken && Answer(s.log, key, s.clock).Some?)
  {
    ReachableInv(ttl, now, steps);
  }

  lemma {:induction false} ReachOneMore(s: State, steps: seq<Step>, step: Step)
    ensures Reach(s, steps + [step]) == Next(Reach(s, steps), step)
  {
    assert (steps + [step])[..|steps|] == steps;
    hide Next;
  }

  /** Such a schedule exists: a Get that read an expired entry deletes the one stored since. */
  lemma {:induction false} LateDeleteCanStrike() returns (steps: seq<Step>)
    ensures var s := Reach(Init(10, 0), steps);
            "k" !in s.items && "k" in s.overtaken && Answer(s.log, "k", s.clock) == Some(2)
  {
    var k := "k";
    steps := [];
    var s := Init(10, 0);
    steps := Extend(steps, DoSet(k, 1));
    steps := Extend(steps, Tick(11));
    steps := Extend(steps, GetRead(0, k));
    steps := Extend(steps, GetCheck(0));
    assert At(Reach(s, steps), 0) == Missing(k, Some(Entry(1, 10)), 11);
    steps := Extend(steps, DoSet(k, 2));
    assert Live(Reach(s, steps), k);
    LookupOneMore(Reach(s, steps[..4]).log, Op.Set(k, Entry(2, 21)), k);
    steps := Extend(steps, GetFinish(0));
  }

  lemma {:induction false} Extend(steps: seq<Step>, step: Step) returns (longer: seq<Step>)
    ensures longer == steps + [step]
    ensures Reach(Init(10, 0), longer) == Next(Reach(Init(10, 0), steps), step)
  {
    longer := steps + [step];
    ReachOneMore(Init(10, 0), steps, step);
  }
}
