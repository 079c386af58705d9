/**
 The request counters under concurrency.  `Record` adds to the total, adds to an
 error counter and stores the latency in three separate steps, `Snapshot` loads
 the three counters one after the other, and steps of different threads
 interleave freely.
 */
module CounterInterleaving {
  import opened IntSets
  import opened Latency

  datatype Phase =
    | Idle
    | Counted(code: int)             // total added
    | Classified                     // error counters done, latency not stored yet
    | LoadedTotal(total: nat)
    | Loaded4xx(total: nat, err4xx: nat)

  datatype Report = Report(total: nat, err4xx: nat, err5xx: nat)

  datatype State = State(total: nat, err4xx: nat, err5xx: nat, latencyCount: nat,
                         threads: map<nat, Phase>, reports: seq<Report>,
                         codes: seq<int>)   // of every request begun

  datatype Step =
    | Begin(tid: nat, code: int) | Classify(tid: nat) | Store(tid: nat)
    | LoadTotal(tid: nat) | Load4xx(tid: nat) | Load5xx(tid: nat)

  const START: State := State(0, 0, 0, 0, map[], [], [])

  function At(s: State, tid: nat): Phase {
    if tid in s.threads then s.threads[tid] else Idle
  }

  function Move(s: State, tid: nat, p: Phase): State {
    s.(threads := s.threads[tid := p])
  }

  function Next(s: State, step: Step): State {
    var t := step.tid;
    match (step, At(s, t))
    case (Begin(_, code), Idle) => Move(s, t, Counted(code)).(total := s.total + 1, codes := s.codes + [code])
    case (Classify(_), Counted(code)) =>
      Move(s, t, Classified).(err4xx := if 400 <= code < 500 then s.err4xx + 1 else s.err4xx,
                              err5xx := if code >= 500 then s.err5xx + 1 else s.err5xx)
    case (Store(_), Classified) => Move(s, t, Idle).(latencyCount := s.latencyCount + 1)
    case (LoadTotal(_), Idle) => Move(s, t, LoadedTotal(s.total))
    case (Load4xx(_), LoadedTotal(n)) => Move(s, t, Loaded4xx(n, s.err4xx))
    case (Load5xx(_), Loaded4xx(n, e4)) =>
      Move(s, t, Idle).(reports := s.reports + [Report(n, e4, s.err5xx)])
    case _ => s
  }

  function Reach(steps: seq<Step>): State {
    if steps == [] then START else Next(Reach(steps[..|steps| - 1]), steps[|steps| - 1])
  }

  /** Threads whose request is in the total but not yet classified, and not yet stored. */
  function Unclassified(s: State): set<nat> {
    set t | t in s.threads && s.threads[t].Counted?
  }

  function Unstored(s: State): set<nat> {
    set t | t in s.threads && (s.threads[t].Counted? || s.threads[t].Classified?)
  }

  ghost predicate PhaseOk(p: Phase, s: State) {
    match p
    case LoadedTotal(n) => n <= s.total
    case Loaded4xx(n, e4) => n <= s.total && e4 <= s.err4xx
    case _ => true
  }

  ghost predicate Inv(s: State) {
    && s.err4xx + s.err5xx + |Unclassified(s)| <= s.total
    && s.latencyCount + |Unstored(s)| == s.total
    && (forall t :: t in s.threads ==> PhaseOk(s.threads[t], s))
    && (forall i :: 0 <= i < |s.reports| ==>
          var r := s.reports[i]; r.total <= s.total && r.err4xx + r.err5xx <= s.total)
  }

  lemma {:induction false} MovedSets(s: State, tid: nat, p: Phase)
    ensures Unclassified(Move(s, tid, p)) == if p.Counted? then Unclassified(s) + {tid} else Unclassified(s) - {tid}
    ensures Unstored(Move(s, tid, p))
            == if p.Counted? || p.Classified? then Unstored(s) + {tid} else Unstored(s) - {tid}
  {
  }

  /** What a request's step does to the two pending sets and the counters that mirror them. */
  lemma {:induction false} CountersStep(s: State, step: Step)
    requires s.err4xx + s.err5xx + |Unclassified(s)| <= s.total && s.latencyCount + |Unstored(s)| == s.total
    ensures var s' := Next(s, step);
            && s'.err4xx + s'.err5xx + |Unclassified(s')| <= s'.total && s'.latencyCount + |Unstored(s')| == s'.total
            && s.total <= s'.total && s.err4xx <= s'.err4xx && s.err5xx <= s'.err5xx
  {
    var s', t := Next(s, step), step.tid;
    if s' != s {
      MovedSets(s, t, s'.threads[t]);
      assert Unclassified(s') == Unclassified(Move(s, t, s'.threads[t]));
      assert Unstored(s') == Unstored(Move(s, t, s'.threads[t]));
      if t in Unstored(s) {
        assert Unstored(s) + {t} == Unstored(s);
      }
    }
  }

  /** Loaded values stay below counters that only grow. */
  lemma {:induction false} PhasesStep(s: State, step: Step)
    requires forall t :: t in s.threads ==> PhaseOk(s.threads[t], s)
    ensures forall t :: t in Next(s, step).threads ==> PhaseOk(Next(s, step).threads[t], Next(s, step))
  {
    var s', t := Next(s, step), step.tid;
    forall u | u in s'.threads
      ensures PhaseOk(s'.threads[u], s')
    {
      assert u in s.threads ==> PhaseOk(s.threads[u], s);
      assert t in s.threads ==> PhaseOk(s.threads[t], s);
    }
  }

  lemma {:induction false} NextKeepsInv(s: State, step: Step)
    requires Inv(s)
    ensures Inv(Next(s, step))
  {
    hide Unclassified, Unstored;
    CountersStep(s, step);
    PhasesStep(s, step);
    if step.tid in s.threads {
      assert PhaseOk(s.threads[step.tid], s);
    }
    var s' := Next(s, step);
    assert s'.reports == s.reports || s'.reports == s.reports + [s'.reports[|s.reports|]];
    hide PhaseOk;
  }

  lemma {:induction false} ReachableInv(steps: seq<Step>)
    ensures Inv(Reach(steps))
  {
    if steps != [] {
      ReachableInv(steps[..|steps| - 1]);
      NextKeepsInv(Reach(steps[..|steps| - 1]), steps[|steps| - 1]);
    }
  }

  /** In every state the error counters and the latency count stay within the total. */
  lemma {:induction false} CountersWithinTotal(steps: seq<Step>)
    ensures var s := Reach(steps);
            s.err4xx + s.err5xx <= s.total && s.latencyCount <= s.total
            && (s.latencyCount == s.total <==> Unstored(s) == {})
  {
    ReachableInv(steps);
    var s := Reach(steps);
    assert |Unstored(s)| == 0 <==> Unstored(s) == {};
  }

  /** Threads whose request is in the total but not yet in the error counter it belongs to. */
  function Pending4xx(s: State): set<nat> {
    set t | t in s.threads && s.threads[t].Counted? && 400 <= s.threads[t].code < 500
  }

  function Pending5xx(s: State): set<nat> {
    set t | t in s.threads && s.threads[t].Counted? && s.threads[t].code >= 500
  }

  ghost predicate Accounted(s: State) {
    s.total == |s.codes| && Accounted4xx(s) && Accounted5xx(s)
  }

  ghost predicate Accounted4xx(s: State) {
    s.err4xx + |Pending4xx(s)| == ClientErrors(s.codes)
  }

  ghost predicate Accounted5xx(s: State) {
    s.err5xx + |Pending5xx(s)| == ServerErrors(s.codes)
  }

  lemma {:induction false} MovedPendingByClass(s: State, tid: nat, p: Phase)
    ensures Pending4xx(Move(s, tid, p))
            == if p.Counted? && 400 <= p.code < 500 then Pending4xx(s) + {tid} else Pending4xx(s) - {tid}
    ensures Pending5xx(Move(s, tid, p))
            == if p.Counted? && p.code >= 500 then Pending5xx(s) + {tid} else Pending5xx(s) - {tid}
  {
  }

  lemma {:induction false} NextKeeps4xx(s: State, step: Step)
    requires Accounted4xx(s)
    ensures Accounted4xx(Next(s, step))
  {
    var s', t := Next(s, step), step.tid;
    if s' != s {
      MovedPendingByClass(s, t, s'.threads[t]);
      assert Pending4xx(s') == Pending4xx(Move(s, t, s'.threads[t]));
      if step.Begin? && At(s, t).Idle? {
        OneMoreCall(s.codes, step.code, [], 0);
      }
      hide ClientErrors, ServerErrors, Pending4xx, Pending5xx;
      assert t in Pending4xx(s) ==> Pending4xx(s) + {t} == Pending4xx(s);
    }
  }

  lemma {:induction false} NextKeeps5xx(s: State, step: Step)
    requires Accounted5xx(s)
    ensures Accounted5xx(Next(s, step))
  {
    var s', t := Next(s, step), step.tid;
    if s' != s {
      MovedPendingByClass(s, t, s'.threads[t]);
      assert Pending5xx(s') == Pending5xx(Move(s, t, s'.threads[t]));
      if step.Begin? && At(s, t).Idle? {
        OneMoreCall(s.codes, step.code, [], 0);
      }
      hide ClientErrors, ServerErrors, Pending4xx, Pending5xx;
      assert t in Pending5xx(s) ==> Pending5xx(s) + {t} == Pending5xx(s);
    }
  }

  /**
   The counters are those of the requests begun: all of them in the total, and each
   client or server error in its own counter once its thread has got that far.
   */
  lemma {:induction false} CountersAreOfRequests(steps: seq<Step>)
    ensures Accounted(Reach(steps))
  {
    if steps != [] {
      CountersAreOfRequests(steps[..|steps| - 1]);
      NextKeeps4xx(Reach(steps[..|steps| - 1]), steps[|steps| - 1]);
      NextKeeps5xx(Reach(steps[..|steps| - 1]), steps[|steps| - 1]);
      hide Accounted4xx, Accounted5xx;
    } else {
      assert Pending4xx(START) == {} && Pending5xx(START) == {};
    }
  }

  /** What a snapshot reports, errors included, stays within the total that counts at its end and ever after. */
  lemma {:induction false} ReportsWithinTotal(steps: seq<Step>, i: nat)
    requires i < |Reach(steps).reports|
    ensures var r, s := Reach(steps).reports[i], Reach(steps);
            r.total <= s.total && r.err4xx + r.err5xx <= s.total
  {
    ReachableInv(steps);
  }

  // ----- When a snapshot reports more errors than requests -----

  function Run(s: State, steps: seq<Step>): State {
    if steps == [] then s else Next(Run(s, steps[..|steps| - 1]), steps[|steps| - 1])
  }

  /** Requests that begin during `steps`. */
  function Begun(s: State, steps: seq<Step>): nat {
    if steps == [] then 0
    else
      var before, step := steps[..|steps| - 1], steps[|steps| - 1];
      Begun(s, before) + if step.Begin? && At(Run(s, before), step.tid).Idle? then 1 else 0
  }

  predicate IsErrorPending(p: Phase) {
    p.Counted? && p.code >= 400
  }

  /** Threads whose request is an error that is in the total only. */
  function PendingErrors(s: State): set<nat> {
    set t | t in s.threads && IsErrorPending(s.threads[t])
  }

  /** Requests so far that are not errors. */
  function Successes(s: State): int {
    s.total - s.err4xx - s.err5xx - |PendingErrors(s)|
  }

  /**
   The snapshot that `tid` begins in `s` and ends after `during` reports more
   errors than requests.  `tid` begins no other snapshot in between.
   */
  predicate Torn(s: State, tid: nat, during: seq<Step>) {
    var end := Run(Next(s, LoadTotal(tid)), during);
    && At(s, tid).Idle? && LoadTotal(tid) !in during
    && At(end, tid).Loaded4xx?
    && var r := Next(end, Load5xx(tid)).reports[|end.reports|];
       r.err4xx + r.err5xx > r.total
  }

  lemma {:induction false} MovedPending(s: State, tid: nat, p: Phase)
    ensures PendingErrors(Move(s, tid, p))
            == if IsErrorPending(p) then PendingErrors(s) + {tid} else PendingErrors(s) - {tid}
  {
  }

  /** Successes only grow, by at most the requests that begin. */
  lemma {:induction false} SuccessesStep(s: State, step: Step)
    ensures var s' := Next(s, step);
            && Successes(s) <= Successes(s')
            && s'.total == s.total + (if step.Begin? && At(s, step.tid).Idle? then 1 else 0)
            && s.err4xx <= s'.err4xx && s.err5xx <= s'.err5xx
  {
    var s', t := Next(s, step), step.tid;
    if s' != s {
      MovedPending(s, t, s'.threads[t]);
      assert PendingErrors(s') == PendingErrors(Move(s, t, s'.threads[t]));
      if t in PendingErrors(s) {
        assert PendingErrors(s) + {t} == PendingErrors(s);
      }
      hide PendingErrors;
    }
  }

  lemma {:induction false} SuccessesGrow(s: State, steps: seq<Step>)
    ensures Successes(s) <= Successes(Run(s, steps))
    ensures Run(s, steps).total == s.total + Begun(s, steps)
  {
    if steps != [] {
      var before := steps[..|steps| - 1];
      SuccessesGrow(s, before);
      SuccessesStep(Run(s, before), steps[|steps| - 1]);
      hide Next, Successes;
    }
  }

  /** While the snapshot of `tid` runs, it holds the total it began with, and no 4xx count ahead of the counter. */
  ghost predicate Holding(p: Phase, total: nat, s: State) {
    match p
    case LoadedTotal(n) => n == total
    case Loaded4xx(n, e4) => n == total && e4 <= s.err4xx
    case _ => true
  }

  lemma {:induction false} HoldingStays(s: State, tid: nat, total: nat, steps: seq<Step>)
    requires Holding(At(s, tid), total, s) && LoadTotal(tid) !in steps
    ensures Holding(At(Run(s, steps), tid), total, Run(s, steps))
  {
    if steps != [] {
      var before, step := steps[..|steps| - 1], steps[|steps| - 1];
      assert step in steps && forall b :: b in before ==> b in steps;
      HoldingStays(s, tid, total, before);
      SuccessesStep(Run(s, before), step);
      hide Run, Successes;
    }
  }

  /** A torn snapshot takes more new requests than there were successes when it began. */
  lemma {:induction false} TornNeedsNewRequests(s: State, tid: nat, during: seq<Step>)
    requires Torn(s, tid, during)
    ensures Begun(Next(s, LoadTotal(tid)), during) > Successes(s)
  {
    var s' := Next(s, LoadTotal(tid));
    var end := Run(s', during);
    SuccessesStep(s, LoadTotal(tid));
    SuccessesGrow(s', during);
    HoldingStays(s', tid, s.total, during);
    hide PendingErrors, Run;
  }

  lemma {:induction false} RunOneMore(s: State, steps: seq<Step>, step: Step)
    ensures Run(s, steps + [step]) == Next(Run(s, steps), step)
    ensures Begun(s, steps + [step])
            == Begun(s, steps) + if step.Begin? && At(Run(s, steps), step.tid).Idle? then 1 else 0
  {
    assert (steps + [step])[..|steps|] == steps;
    hide Next;
  }

  /** `classified` more errors have been counted, and `tid` waits as before. */
  ghost predicate ErrorsGrewBy(s: State, tid: nat, s': State, classified: nat) {
    && s'.err4xx + s'.err5xx == s.err4xx + s.err5xx + classified
    && At(s', tid) == At(s, tid)
  }

  /** Every pending error can be classified while `tid` waits. */
  lemma {:induction false} ClassifyPending(s: State, tid: nat, steps: seq<Step>) returns (longer: seq<Step>)
    requires At(Run(s, steps), tid).LoadedTotal? && LoadTotal(tid) !in steps
    ensures LoadTotal(tid) !in longer && Begun(s, longer) == Begun(s, steps)
    ensures ErrorsGrewBy(Run(s, steps), tid, Run(s, longer), |PendingErrors(Run(s, steps))|)
    decreases |PendingErrors(Run(s, steps))|
  {
    var u := Run(s, steps);
    if t :| t in PendingErrors(u) {
      RunOneMore(s, steps, Classify(t));
      hide Run, Begun;
      var v := Next(u, Classify(t));
      MovedPending(u, t, Classified);
      assert PendingErrors(v) == PendingErrors(Move(u, t, Classified));
      assert |PendingErrors(u)| == |PendingErrors(v)| + 1;
      longer := ClassifyPending(s, tid, steps + [Classify(t)]);
    } else {
      assert |PendingErrors(u)| == 0;
      longer := steps;
    }
  }

  /** `m` fresh requests can begin and fail while `tid` waits. */
  lemma {:induction false} FailRequests(s: State, tid: nat, steps: seq<Step>, m: nat) returns (longer: seq<Step>)
    requires At(Run(s, steps), tid).LoadedTotal? && LoadTotal(tid) !in steps
    ensures LoadTotal(tid) !in longer && Begun(s, longer) == Begun(s, steps) + m
    ensures ErrorsGrewBy(Run(s, steps), tid, Run(s, longer), m)
    decreases m
  {
    if m == 0 {
      longer := steps;
    } else {
      var t := FreshThread(Run(s, steps), tid);
      var begun := steps + [Begin(t, 404)];
      RunOneMore(s, steps, Begin(t, 404));
      RunOneMore(s, begun, Classify(t));
      hide Run, Begun;
      longer := FailRequests(s, tid, begun + [Classify(t)], m - 1);
    }
  }

  lemma {:induction false} FreshThread(s: State, tid: nat) returns (t: nat)
    ensures t !in s.threads && t != tid
  {
    t := PastAll(s.threads.Keys + {tid}, 0);
  }

  /** With more new requests than successes, some schedule tears the snapshot. */
  lemma {:induction false} EnoughRequestsTear(s: State, tid: nat, m: nat) returns (during: seq<Step>)
    requires At(s, tid).Idle? && m > Successes(s)
    ensures Torn(s, tid, during) && Begun(Next(s, LoadTotal(tid)), during) == m
  {
    var s' := Next(s, LoadTotal(tid));
    assert Run(s', []) == s' && Begun(s', []) == 0;
    MovedPending(s, tid, LoadedTotal(s.total));
    assert PendingErrors(s') == PendingErrors(s);
    hide Run, Begun, PendingErrors;
    var classified := ClassifyPending(s', tid, []);
    var failed := FailRequests(s', tid, classified, m);
    during := failed + [Load4xx(tid)];
    RunOneMore(s', failed, Load4xx(tid));
  }

  /**
   A snapshot begun in `s` can report more errors than requests, while `m`
   requests begin, if and only if `m` exceeds the successes so far.
   */
  lemma {:induction false} TornIffMoreThanSuccesses(s: State, tid: nat, m: nat)
    requires At(s, tid).Idle?
    ensures (exists during :: Torn(s, tid, during) && Begun(Next(s, LoadTotal(tid)), during) == m) <==> m > Successes(s)
  {
    hide Torn, Begun, Successes;
    if m > Successes(s) {
      var during := EnoughRequestsTear(s, tid, m);
    }
    forall during | Torn(s, tid, during)
      ensures Begun(Next(s, LoadTotal(tid)), during) > Successes(s)
    {
      TornNeedsNewRequests(s, tid, during);
    }
  }

  /** There are never fewer than no successes, so without new requests no snapshot is torn. */
  lemma {:induction false} SuccessesNonNegative(steps: seq<Step>)
    ensures 0 <= Successes(Reach(steps))
  {
    if steps == [] {
      assert PendingErrors(START) == {};
    } else {
      SuccessesNonNegative(steps[..|steps| - 1]);
      SuccessesStep(Reach(steps[..|steps| - 1]), steps[|steps| - 1]);
    }
  }

  lemma {:induction false} ReachOneMore(steps: seq<Step>, step: Step) returns (longer: seq<Step>)
    ensures longer == steps + [step] && Reach(longer) == Next(Reach(steps), step)
  {
    longer := steps + [step];
    assert longer[..|steps|] == steps;
  }

  /** The smallest case: one error among zero requests. */
  lemma {:induction false} SnapshotCanBeTorn() returns (steps: seq<Step>)
    ensures Reach(steps).reports == [Report(0, 1, 0)]
  {
    steps := ReachOneMore([], LoadTotal(0));
    steps := ReachOneMore(steps, Begin(1, 404));
    steps := ReachOneMore(steps, Classify(1));
    steps := ReachOneMore(steps, Load4xx(0));
    steps := ReachOneMore(steps, Load5xx(0));
  }
}
