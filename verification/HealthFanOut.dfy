/**
 The health aggregator's fan-out: one goroutine per service fetches, takes the
 mutex, writes the shared result and leaves.  Steps of different goroutines
 interleave freely; whether the result depends on how is a matter of the names.
 */
module HealthFanOut {
  /** What one service's check comes to; all failures look alike. */
  datatype Outcome = Unreachable | Healthy(status: string)

  datatype Service = Service(name: string, outcome: Outcome)

  datatype Pc = Fetching | Fetched | Locked | Wrote | Done

  datatype Lock = Free | HeldBy(who: nat)

  datatype State = State(pcs: seq<Pc>, lock: Lock, services: map<string, string>, unreachable: seq<string>)

  datatype Step = Fetch(i: nat) | Acquire(i: nat) | Write(i: nat) | Release(i: nat)

  function Start(svcs: seq<Service>): State {
    State(seq(|svcs|, _ => Fetching), Free, map[], [])
  }

  function Move(s: State, i: nat, pc: Pc): State
    requires i < |s.pcs|
  {
    s.(pcs := s.pcs[i := pc])
  }

  /** A step that is not enabled changes nothing. */
  function Next(svcs: seq<Service>, s: State, step: Step): State
    requires |s.pcs| == |svcs|
  {
    var i := step.i;
    if i >= |svcs| then s
    else
      match (step, s.pcs[i])
      case (Fetch(_), Fetching) => Move(s, i, Fetched)
      case (Acquire(_), Fetched) => if s.lock.Free? then Move(s, i, Locked).(lock := HeldBy(i)) else s
      case (Write(_), Locked) =>
        (match svcs[i].outcome
         case Unreachable => Move(s, i, Wrote).(unreachable := s.unreachable + [svcs[i].name])
         case Healthy(status) => Move(s, i, Wrote).(services := s.services[svcs[i].name := status]))
      case (Release(_), Wrote) => Move(s, i, Done).(lock := Free)
      case _ => s
  }

  function Reach(svcs: seq<Service>, steps: seq<Step>): (s: State)
    ensures |s.pcs| == |svcs|
  {
    if steps == [] then Start(svcs)
    else Next(svcs, Reach(svcs, steps[..|steps| - 1]), steps[|steps| - 1])
  }

  predicate AllDone(s: State) {
    forall i | 0 <= i < |s.pcs| :: s.pcs[i] == Done
  }

  predicate DistinctNames(svcs: seq<Service>) {
    forall i, j | 0 <= i < j < |svcs| :: svcs[i].name != svcs[j].name
  }

  // ----- Mutual exclusion and progress -----

  ghost predicate Exclusive(s: State) {
    forall i :: 0 <= i < |s.pcs| ==> (s.pcs[i] in {Locked, Wrote} <==> s.lock == HeldBy(i))
  }

  ghost predicate LockValid(s: State) {
    s.lock.HeldBy? ==> s.lock.who < |s.pcs|
  }

  lemma {:induction false} ReachableExclusive(svcs: seq<Service>, steps: seq<Step>)
    ensures Exclusive(Reach(svcs, steps)) && LockValid(Reach(svcs, steps))
  {
    if steps != [] {
      ReachableExclusive(svcs, steps[..|steps| - 1]);
    }
  }

  /** Every step that changes anything brings the wait nearer to its end, so every schedule ends. */
  lemma StepsComeToAnEnd(svcs: seq<Service>, s: State, step: Step)
    requires |s.pcs| == |svcs| && Next(svcs, s, step) != s
    ensures Remaining(Next(svcs, s, step).pcs) < Remaining(s.pcs)
  {
    RemainingDrops(s.pcs, step.i, Next(svcs, s, step).pcs[step.i]);
  }

  /** And until all are done, someone can move. */
  lemma SomeoneCanMove(svcs: seq<Service>, steps: seq<Step>) returns (step: Step)
    requires !AllDone(Reach(svcs, steps))
    ensures Next(svcs, Reach(svcs, steps), step) != Reach(svcs, steps)
  {
    ReachableExclusive(svcs, steps);
    var s := Reach(svcs, steps);
    var i: nat;
    if s.lock.HeldBy? {
      i := s.lock.who;
      step := if s.pcs[i] == Locked then Write(i) else Release(i);
    } else {
      i :| 0 <= i < |s.pcs| && s.pcs[i] != Done;
      step := if s.pcs[i] == Fetching then Fetch(i) else Acquire(i);
    }
    assert Next(svcs, s, step).pcs[i] != s.pcs[i];
  }

  /** So whatever has happened so far, the wait can end. */
  lemma {:induction false} Completes(svcs: seq<Service>, steps: seq<Step>) returns (longer: seq<Step>)
    ensures AllDone(Reach(svcs, longer))
    decreases Remaining(Reach(svcs, steps).pcs)
  {
    if AllDone(Reach(svcs, steps)) {
      longer := steps;
    } else {
      var step := SomeoneCanMove(svcs, steps);
      StepsComeToAnEnd(svcs, Reach(svcs, steps), step);
      ReachOneMore(svcs, steps, step);
      longer := Completes(svcs, steps + [step]);
    }
  }

  function Ahead(pc: Pc): nat {
    match pc
    case Fetching => 4
    case Fetched => 3
    case Locked => 2
    case Wrote => 1
    case Done => 0
  }

  function Remaining(pcs: seq<Pc>): nat {
    if pcs == [] then 0 else Remaining(pcs[..|pcs| - 1]) + Ahead(pcs[|pcs| - 1])
  }

  lemma {:induction false} RemainingDrops(pcs: seq<Pc>, i: nat, pc: Pc)
    requires i < |pcs| && Ahead(pc) < Ahead(pcs[i])
    ensures Remaining(pcs[i := pc]) < Remaining(pcs)
  {
    var n := |pcs| - 1;
    if i < n {
      assert pcs[i := pc][..n] == pcs[..n][i := pc];
      RemainingDrops(pcs[..n], i, pc);
    } else {
      assert pcs[i := pc][..n] == pcs[..n];
    }
  }

  // ----- What has been written -----

  predicate HasWritten(s: State, i: nat)
    requires i < |s.pcs|
  {
    s.pcs[i] in {Wrote, Done}
  }

  ghost predicate WrittenWith(svcs: seq<Service>, s: State, name: string, outcome: Outcome)
    requires |s.pcs| == |svcs|
  {
    exists i :: 0 <= i < |svcs| && HasWritten(s, i) && svcs[i] == Service(name, outcome)
  }

  /** Who has written is in the result, and what is in the result someone has written, whatever the names. */
  ghost predicate Recorded(svcs: seq<Service>, s: State)
    requires |s.pcs| == |svcs|
  {
    && (forall i :: 0 <= i < |svcs| && HasWritten(s, i) ==>
          if svcs[i].outcome.Unreachable? then svcs[i].name in s.unreachable else svcs[i].name in s.services)
    && (forall name :: name in s.services ==> WrittenWith(svcs, s, name, Healthy(s.services[name])))
    && (forall name :: name in s.unreachable ==> WrittenWith(svcs, s, name, Unreachable))
  }

  lemma WrittenStays(svcs: seq<Service>, s: State, step: Step, name: string, outcome: Outcome)
    requires |s.pcs| == |svcs| && WrittenWith(svcs, s, name, outcome)
    ensures WrittenWith(svcs, Next(svcs, s, step), name, outcome)
  {
    var i :| 0 <= i < |svcs| && HasWritten(s, i) && svcs[i] == Service(name, outcome);
    assert HasWritten(Next(svcs, s, step), i);
  }

  lemma NextKeepsRecorded(svcs: seq<Service>, s: State, step: Step)
    requires |s.pcs| == |svcs| && Recorded(svcs, s)
    ensures Recorded(svcs, Next(svcs, s, step))
  {
    var s', i := Next(svcs, s, step), step.i;
    if step.Write? && i < |svcs| && s.pcs[i] == Locked {
      assert HasWritten(s', i) && svcs[i] == Service(svcs[i].name, svcs[i].outcome);
      assert WrittenWith(svcs, s', svcs[i].name, svcs[i].outcome);
    } else {
      assert s'.services == s.services && s'.unreachable == s.unreachable;
    }
    assert forall j: nat :: j < |svcs| && j != i ==> HasWritten(s', j) == HasWritten(s, j);
    forall name, outcome | WrittenWith(svcs, s, name, outcome)
      ensures WrittenWith(svcs, s', name, outcome)
    {
      WrittenStays(svcs, s, step, name, outcome);
    }
    hide WrittenWith;
  }

  lemma {:induction false} ReachableRecorded(svcs: seq<Service>, steps: seq<Step>)
    ensures Recorded(svcs, Reach(svcs, steps))
  {
    if steps != [] {
      var s := Reach(svcs, steps[..|steps| - 1]);
      ReachableRecorded(svcs, steps[..|steps| - 1]);
      NextKeepsRecorded(svcs, s, steps[|steps| - 1]);
    }
  }

  ghost predicate NoneRepeated(names: seq<string>) {
    forall j, k :: 0 <= j < k < |names| ==> names[j] != names[k]
  }

  /** With distinct names no service is listed as unreachable twice. */
  lemma {:induction false} UnreachableOnce(svcs: seq<Service>, steps: seq<Step>)
    requires DistinctNames(svcs)
    ensures NoneRepeated(Reach(svcs, steps).unreachable)
  {
    if steps != [] {
      var s, step := Reach(svcs, steps[..|steps| - 1]), steps[|steps| - 1];
      UnreachableOnce(svcs, steps[..|steps| - 1]);
      ReachableRecorded(svcs, steps[..|steps| - 1]);
      if step.Write? && step.i < |svcs| && s.pcs[step.i] == Locked {
        assert !HasWritten(s, step.i);
        assert svcs[step.i].name !in s.unreachable;
      }
    }
  }

  /** Once all are done, every service is on exactly one side, once, with its own answer. */
  lemma EachServiceOnOneSide(svcs: seq<Service>, steps: seq<Step>)
    requires DistinctNames(svcs) && AllDone(Reach(svcs, steps))
    ensures var s := Reach(svcs, steps);
            && (forall i :: 0 <= i < |svcs| ==>
                  match svcs[i].outcome
                  case Unreachable => svcs[i].name in s.unreachable && svcs[i].name !in s.services
                  case Healthy(status) => svcs[i].name in s.services && s.services[svcs[i].name] == status
                                          && svcs[i].name !in s.unreachable)
            && (forall name :: name in s.services || name in s.unreachable ==>
                  exists i :: 0 <= i < |svcs| && svcs[i].name == name)
            && NoneRepeated(s.unreachable)
  {
    ReachableRecorded(svcs, steps);
    UnreachableOnce(svcs, steps);
    var s := Reach(svcs, steps);
    hide Reach, NoneRepeated;
    assert forall i :: 0 <= i < |svcs| ==> HasWritten(s, i);
    forall name | name in s.services || name in s.unreachable
      ensures exists i :: 0 <= i < |svcs| && svcs[i].name == name
    {
      if name in s.services {
        assert WrittenWith(svcs, s, name, Healthy(s.services[name]));
      } else {
        assert WrittenWith(svcs, s, name, Unreachable);
      }
    }
  }

  // ----- The overall status -----

  function Overall(services: map<string, string>, unreachable: seq<string>): string {
    if unreachable != [] then "unhealthy"
    else if exists name :: name in services && services[name] == "degraded" then "degraded"
    else "healthy"
  }

  /** The loop over the result map, in whatever order it is walked. */
  method ComputeOverall(services: map<string, string>, unreachable: seq<string>) returns (overall: string)
    ensures overall == Overall(services, unreachable)
  {
    overall := "healthy";
    if |unreachable| > 0 {
      overall := "unhealthy";
    } else {
      var rest := services.Keys;
      while rest != {}
        invariant rest <= services.Keys && overall == "healthy"
        invariant forall name :: name in services && name !in rest ==> services[name] != "degraded"
        decreases rest
      {
        var name :| name in rest;
        rest := rest - {name};
        if services[name] == "degraded" {
          overall := "degraded";
          break;
        }
      }
    }
  }

  /** Every complete schedule gives the same overall status. */
  ghost predicate ScheduleFree(svcs: seq<Service>) {
    forall steps, steps' | AllDone(Reach(svcs, steps)) && AllDone(Reach(svcs, steps')) ::
      OverallOf(Reach(svcs, steps)) == OverallOf(Reach(svcs, steps'))
  }

  function OverallOf(s: State): string {
    Overall(s.services, s.unreachable)
  }

  predicate SomeUnreachable(svcs: seq<Service>) {
    exists i | 0 <= i < |svcs| :: svcs[i].outcome.Unreachable?
  }

  predicate IsDegraded(svc: Service) {
    svc.outcome == Healthy("degraded")
  }

  /** Another service of the same name answers, and not with "degraded". */
  predicate Outvoted(svcs: seq<Service>, name: string) {
    exists j | 0 <= j < |svcs| :: svcs[j].name == name && svcs[j].outcome.Healthy? && !IsDegraded(svcs[j])
  }

  /** Some service is degraded, and each such answer can be overwritten by a better one of the same name. */
  predicate Races(svcs: seq<Service>) {
    && !SomeUnreachable(svcs)
    && (exists i | 0 <= i < |svcs| :: IsDegraded(svcs[i]))
    && forall i | 0 <= i < |svcs| && IsDegraded(svcs[i]) :: Outvoted(svcs, svcs[i].name)
  }

  /** The status as a function of the outcomes alone. */
  function Expected(svcs: seq<Service>): string {
    if SomeUnreachable(svcs) then "unhealthy"
    else if exists i | 0 <= i < |svcs| :: IsDegraded(svcs[i]) then "degraded"
    else "healthy"
  }

  /** Without a race, every complete schedule arrives at the status that the outcomes call for. */
  lemma OverallIsExpected(svcs: seq<Service>, steps: seq<Step>)
    requires !Races(svcs) && AllDone(Reach(svcs, steps))
    ensures OverallOf(Reach(svcs, steps)) == Expected(svcs)
  {
    ReachableRecorded(svcs, steps);
    var s := Reach(svcs, steps);
    hide Reach;
    assert forall i :: 0 <= i < |svcs| ==> HasWritten(s, i);
    assert s.unreachable != [] ==> s.unreachable[0] in s.unreachable;
    if i :| 0 <= i < |svcs| && svcs[i].outcome.Unreachable? {
      assert svcs[i].name in s.unreachable;
    } else {
      assert forall name :: !WrittenWith(svcs, s, name, Unreachable);
      if name :| name in s.services && s.services[name] == "degraded" {
        assert WrittenWith(svcs, s, name, Healthy("degraded"));
      }
      if i :| 0 <= i < |svcs| && IsDegraded(svcs[i]) && !Outvoted(svcs, svcs[i].name) {
        assert WrittenWith(svcs, s, svcs[i].name, Healthy(s.services[svcs[i].name]));
      }
    }
  }

  /** With distinct names: unhealthy if any is unreachable, else degraded if any says so, else healthy. */
  lemma OverallInWords(svcs: seq<Service>, steps: seq<Step>)
    requires DistinctNames(svcs) && AllDone(Reach(svcs, steps))
    ensures var overall := OverallOf(Reach(svcs, steps));
            var down := exists i :: 0 <= i < |svcs| && svcs[i].outcome == Unreachable;
            var degraded := exists i :: 0 <= i < |svcs| && svcs[i].outcome == Healthy("degraded");
            && (overall == "unhealthy" <==> down)
            && (overall == "degraded" <==> !down && degraded)
            && (overall == "healthy" <==> !down && !degraded)
  {
    OverallIsScheduleFree(svcs, steps);
    hide Reach, OverallOf;
  }

  /** With distinct names nothing can be overwritten. */
  lemma DistinctNeverRace(svcs: seq<Service>)
    requires DistinctNames(svcs)
    ensures !Races(svcs)
  {
    forall i | 0 <= i < |svcs| && IsDegraded(svcs[i])
      ensures !Outvoted(svcs, svcs[i].name)
    {
      assert forall j :: 0 <= j < |svcs| && svcs[j].name == svcs[i].name ==> j == i;
    }
  }

  /** With distinct names every complete schedule yields the same overall status. */
  lemma OverallIsScheduleFree(svcs: seq<Service>, steps: seq<Step>)
    requires DistinctNames(svcs) && AllDone(Reach(svcs, steps))
    ensures OverallOf(Reach(svcs, steps)) == Expected(svcs)
  {
    DistinctNeverRace(svcs);
    OverallIsExpected(svcs, steps);
  }

  // ----- Repeated names -----

  /** One goroutine from start to end. */
  function Alone(i: nat): seq<Step> {
    [Fetch(i), Acquire(i), Write(i), Release(i)]
  }

  lemma {:induction false} RunAlone(svcs: seq<Service>, steps: seq<Step>, i: nat)
    requires i < |svcs| && Reach(svcs, steps).pcs[i] == Fetching && Reach(svcs, steps).lock == Free
    ensures var s, s' := Reach(svcs, steps), Reach(svcs, steps + Alone(i));
            && s'.pcs == s.pcs[i := Done] && s'.lock == Free
            && (match svcs[i].outcome
                case Unreachable => s'.unreachable == s.unreachable + [svcs[i].name] && s'.services == s.services
                case Healthy(st) => s'.services == s.services[svcs[i].name := st] && s'.unreachable == s.unreachable)
  {
    hide Next;
    var a := steps + [Fetch(i)];
    var b := a + [Acquire(i)];
    var c := b + [Write(i)];
    assert steps + Alone(i) == c + [Release(i)];
    ReachOneMore(svcs, steps, Fetch(i));
    ReachOneMore(svcs, a, Acquire(i));
    ReachOneMore(svcs, b, Write(i));
    ReachOneMore(svcs, c, Release(i));
    hide Reach;
    AloneInState(svcs, Reach(svcs, steps), i);
  }

  lemma AloneInState(svcs: seq<Service>, s: State, i: nat)
    requires i < |svcs| == |s.pcs| && s.pcs[i] == Fetching && s.lock == Free
    ensures var s1 := Next(svcs, s, Fetch(i));
            && s1 == Move(s, i, Fetched)
            && var s2 := Next(svcs, s1, Acquire(i));
            && s2 == Move(s, i, Locked).(lock := HeldBy(i))
            && var s3 := Next(svcs, s2, Write(i));
            && s3.pcs == s.pcs[i := Wrote] && s3.lock == HeldBy(i)
            && var s4 := Next(svcs, s3, Release(i));
            && s4.pcs == s.pcs[i := Done] && s4.lock == Free
            && (match svcs[i].outcome
                case Unreachable => s4.unreachable == s.unreachable + [svcs[i].name] && s4.services == s.services
                case Healthy(st) => s4.services == s.services[svcs[i].name := st] && s4.unreachable == s.unreachable)
  {
    assert s.pcs[i := Fetched][i := Locked] == s.pcs[i := Locked];
    assert s.pcs[i := Locked][i := Wrote] == s.pcs[i := Wrote];
    assert s.pcs[i := Wrote][i := Done] == s.pcs[i := Done];
  }

  lemma ReachOneMore(svcs: seq<Service>, steps: seq<Step>, step: Step)
    ensures Reach(svcs, steps + [step]) == Next(svcs, Reach(svcs, steps), step)
  {
    assert (steps + [step])[..|steps|] == steps;
    hide Next;
  }

  /** The goroutines below `n` that `p` selects, in order. */
  function Select(n: nat, p: nat -> bool): (ids: seq<nat>)
    ensures forall i: nat :: i in ids <==> i < n && p(i)
    ensures forall j, k :: 0 <= j < k < |ids| ==> ids[j] < ids[k]
  {
    if n == 0 then []
    else
      var below := Select(n - 1, p);
      assert forall j :: 0 <= j < |below| ==> below[j] in below;
      if p(n - 1) then below + [n - 1] else below
  }

  /** `i` is one of `ids`, with the given name and status. */
  ghost predicate Among(svcs: seq<Service>, ids: seq<nat>, name: string, status: string) {
    exists i :: i in ids && i < |svcs| && svcs[i] == Service(name, Healthy(status))
  }

  ghost predicate NamedAmong(svcs: seq<Service>, ids: seq<nat>, name: string) {
    exists i :: i in ids && i < |svcs| && svcs[i].name == name
  }

  /** `ids` have run from start to end, one after the other: for each of their names, one of them has written last. */
  ghost predicate HaveRun(svcs: seq<Service>, s: State, ids: seq<nat>, s': State)
    requires |s.pcs| == |s'.pcs| == |svcs|
  {
    && s'.lock == Free && s'.unreachable == s.unreachable
    && (forall i :: 0 <= i < |svcs| ==> s'.pcs[i] == if i in ids then Done else s.pcs[i])
    && (forall name :: name in s'.services <==> name in s.services || NamedAmong(svcs, ids, name))
    && (forall name :: name in s'.services ==>
          if NamedAmong(svcs, ids, name) then Among(svcs, ids, name, s'.services[name])
          else s'.services[name] == s.services[name])
  }

  lemma {:induction false} RunThese(svcs: seq<Service>, steps: seq<Step>, ids: seq<nat>) returns (longer: seq<Step>)
    requires !SomeUnreachable(svcs) && Reach(svcs, steps).lock == Free
    requires forall i :: i in ids ==> i < |svcs| && Reach(svcs, steps).pcs[i] == Fetching
    requires forall j, k :: 0 <= j < k < |ids| ==> ids[j] < ids[k]
    ensures HaveRun(svcs, Reach(svcs, steps), ids, Reach(svcs, longer))
  {
    hide Reach, Alone;
    if ids == [] {
      longer := steps;
    } else {
      var n := |ids| - 1;
      var before, i := ids[..n], ids[n];
      assert i in ids && forall k :: k in before ==> k in ids;
      var mid := RunThese(svcs, steps, before);
      assert i !in before;
      RunAlone(svcs, mid, i);
      longer := mid + Alone(i);
      OneMoreHasRun(svcs, Reach(svcs, steps), before, Reach(svcs, mid), i, Reach(svcs, longer));
      assert before + [i] == ids;
    }
  }

  lemma OneMoreHasRun(svcs: seq<Service>, s: State, ids: seq<nat>, mid: State, i: nat, s': State)
    requires |s.pcs| == |mid.pcs| == |s'.pcs| == |svcs| && i < |svcs|
    requires HaveRun(svcs, s, ids, mid) && svcs[i].outcome.Healthy?
    requires s'.pcs == mid.pcs[i := Done] && s'.lock == Free && s'.unreachable == mid.unreachable
    requires s'.services == mid.services[svcs[i].name := svcs[i].outcome.status]
    ensures HaveRun(svcs, s, ids + [i], s')
  {
    var all := ids + [i];
    forall name
      ensures NamedAmong(svcs, all, name) <==> NamedAmong(svcs, ids, name) || name == svcs[i].name
      ensures forall status :: Among(svcs, ids, name, status) ==> Among(svcs, all, name, status)
    {
      assert i in all;
      forall k | k in ids
        ensures k in all
      {
      }
    }
    assert i in all && svcs[i] == Service(svcs[i].name, Healthy(svcs[i].outcome.status));
    assert Among(svcs, all, svcs[i].name, svcs[i].outcome.status);
    hide Among, NamedAmong;
  }

  /** First the services that `early` selects, one after the other, then the rest. */
  lemma {:induction false} RunEarlyFirst(svcs: seq<Service>, early: nat -> bool, late: nat -> bool)
    returns (steps: seq<Step>)
    requires !SomeUnreachable(svcs) && forall i :: late(i) == !early(i)
    ensures var s := Reach(svcs, steps);
            && AllDone(s) && s.unreachable == []
            && (forall i :: 0 <= i < |svcs| ==> svcs[i].name in s.services)
            && (forall name :: name in s.services && NamedAmong(svcs, Select(|svcs|, late), name) ==>
                  Among(svcs, Select(|svcs|, late), name, s.services[name]))
            && (forall name :: name in s.services && !NamedAmong(svcs, Select(|svcs|, late), name) ==>
                  Among(svcs, Select(|svcs|, early), name, s.services[name]))
  {
    assert Reach(svcs, []) == Start(svcs);
    hide Reach;
    var first, second := Select(|svcs|, early), Select(|svcs|, late);
    var mid := RunThese(svcs, [], first);
    steps := RunThese(svcs, mid, second);
    forall i: nat | i < |svcs|
      ensures i in first || i in second
    {
    }
    forall i: nat | i < |svcs|
      ensures svcs[i].name in Reach(svcs, steps).services
    {
      assert NamedAmong(svcs, first, svcs[i].name) || NamedAmong(svcs, second, svcs[i].name);
    }
  }

  /** In a race, a name with a degraded answer is on a better one too, and better ones are not degraded. */
  lemma BetterAnswer(svcs: seq<Service>, degraded: seq<nat>, others: seq<nat>, name: string, st: string)
    requires Races(svcs)
    requires forall i: nat :: i in degraded <==> i < |svcs| && IsDegraded(svcs[i])
    requires forall i: nat :: i in others <==> i < |svcs| && !IsDegraded(svcs[i])
    ensures Among(svcs, degraded, name, st) ==> NamedAmong(svcs, others, name)
    ensures Among(svcs, others, name, st) ==> st != "degraded"
  {
    if Among(svcs, degraded, name, st) {
      var i :| i in degraded && i < |svcs| && svcs[i] == Service(name, Healthy(st));
      var j: nat :| j < |svcs| && svcs[j].name == name && !IsDegraded(svcs[j]);
      assert j in others;
    }
  }

  /** In a race, one schedule overwrites every degraded answer. */
  lemma DegradedOverwritten(svcs: seq<Service>) returns (steps: seq<Step>)
    requires Races(svcs)
    ensures AllDone(Reach(svcs, steps)) && OverallOf(Reach(svcs, steps)) == "healthy"
  {
    var early := (i: nat) => i < |svcs| && IsDegraded(svcs[i]);
    var late := (i: nat) => !early(i);
    steps := RunEarlyFirst(svcs, early, late);
    var s, degraded, others := Reach(svcs, steps), Select(|svcs|, early), Select(|svcs|, late);
    forall name | name in s.services
      ensures s.services[name] != "degraded"
    {
      hide Reach, Select, Races, Among, NamedAmong;
      BetterAnswer(svcs, degraded, others, name, s.services[name]);
    }
  }

  /** And one schedule lets a degraded answer be written last. */
  lemma DegradedLast(svcs: seq<Service>) returns (steps: seq<Step>)
    requires Races(svcs)
    ensures AllDone(Reach(svcs, steps)) && OverallOf(Reach(svcs, steps)) == "degraded"
  {
    var last: nat :| last < |svcs| && IsDegraded(svcs[last]);
    var early, late := (i: nat) => i != last, (i: nat) => i == last;
    steps := RunEarlyFirst(svcs, early, late);
    var s, name := Reach(svcs, steps), svcs[last].name;
    hide Reach, Select;
    assert last in Select(|svcs|, late);
    assert NamedAmong(svcs, Select(|svcs|, late), name);
    assert Among(svcs, Select(|svcs|, late), name, s.services[name]);
    assert s.services[name] == "degraded";
  }

  /** Given the outcomes, the status is schedule-free if and only if no degraded answer races with a better one. */
  lemma ScheduleFreeIffNoRace(svcs: seq<Service>)
    ensures ScheduleFree(svcs) <==> !Races(svcs)
  {
    if Races(svcs) {
      var steps := DegradedOverwritten(svcs);
      var steps' := DegradedLast(svcs);
      assert OverallOf(Reach(svcs, steps)) != OverallOf(Reach(svcs, steps'));
    } else {
      forall steps | AllDone(Reach(svcs, steps))
        ensures OverallOf(Reach(svcs, steps)) == Expected(svcs)
      {
        OverallIsExpected(svcs, steps);
      }
      hide Races, OverallOf, AllDone, Reach;
    }
  }

  function NamesOf(svcs: seq<Service>): seq<string> {
    seq(|svcs|, i requires 0 <= i < |svcs| => svcs[i].name)
  }

  /** Before anything is known of the outcomes: safe for every outcome if and only if the names are distinct. */
  lemma ScheduleFreeIffDistinct(names: seq<string>)
    ensures (forall svcs: seq<Service> :: NamesOf(svcs) == names ==> ScheduleFree(svcs)) <==> NoneRepeated(names)
  {
    hide ScheduleFree, Races;
    if NoneRepeated(names) {
      forall svcs: seq<Service> | NamesOf(svcs) == names
        ensures ScheduleFree(svcs)
      {
        assert forall i :: 0 <= i < |svcs| ==> svcs[i].name == names[i];
        DistinctNeverRace(svcs);
        ScheduleFreeIffNoRace(svcs);
      }
    } else {
      var svcs := RacingServices(names);
      ScheduleFreeIffNoRace(svcs);
    }
  }

  /** A repeated name: one of the two is degraded, all others are well. */
  lemma RacingServices(names: seq<string>) returns (svcs: seq<Service>)
    requires !NoneRepeated(names)
    ensures NamesOf(svcs) == names && Races(svcs)
  {
    var j, k :| 0 <= j < k < |names| && names[j] == names[k];
    svcs := seq(|names|, i requires 0 <= i < |names| =>
      Service(names[i], Healthy(if i == j then "degraded" else "ok")));
    assert IsDegraded(svcs[j]) && svcs[k].name == svcs[j].name && !IsDegraded(svcs[k]);
    assert Outvoted(svcs, svcs[j].name);
  }

  /** In every complete schedule each service's name is in exactly one of the two results. */
  ghost predicate OneSideAlways(svcs: seq<Service>) {
    forall steps | AllDone(Reach(svcs, steps)) :: OnOneSide(svcs, Reach(svcs, steps))
  }

  predicate OnOneSide(svcs: seq<Service>, s: State) {
    forall i | 0 <= i < |svcs| :: svcs[i].name in s.services <==> svcs[i].name !in s.unreachable
  }

  /** Reachable and unreachable services never meet in the result if and only if the names are distinct. */
  lemma OneSideIffDistinct(names: seq<string>)
    ensures (forall svcs: seq<Service> :: NamesOf(svcs) == names ==> OneSideAlways(svcs)) <==> NoneRepeated(names)
  {
    if NoneRepeated(names) {
      forall svcs: seq<Service>, steps | NamesOf(svcs) == names && AllDone(Reach(svcs, steps))
        ensures OnOneSide(svcs, Reach(svcs, steps))
      {
        assert forall i :: 0 <= i < |svcs| ==> svcs[i].name == names[i];
        EachServiceOnOneSide(svcs, steps);
        hide Reach, AllDone;
      }
    } else {
      var svcs, steps := OnBothSides(names);
      hide Reach, AllDone, OnOneSide;
    }
  }

  /** A repeated name: one of the two is unreachable, all others answer. */
  lemma OnBothSides(names: seq<string>) returns (svcs: seq<Service>, steps: seq<Step>)
    requires !NoneRepeated(names)
    ensures NamesOf(svcs) == names && AllDone(Reach(svcs, steps)) && !OnOneSide(svcs, Reach(svcs, steps))
  {
    var j: nat, k: nat :| j < k < |names| && names[j] == names[k];
    svcs := seq(|names|, i requires 0 <= i < |names| =>
      Service(names[i], if i == j then Unreachable else Healthy("ok")));
    steps := Completes(svcs, []);
    ReachableRecorded(svcs, steps);
    var s := Reach(svcs, steps);
    assert HasWritten(s, j) && HasWritten(s, k);
    assert svcs[j].name in s.unreachable && svcs[k].name in s.services;
  }
}
