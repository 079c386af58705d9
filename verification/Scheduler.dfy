/**
 The scheduler's incremental change tracking: it keeps the last status of every
 check across runs and sends, per run, the changes against it.  Replaying what it
 sent reproduces what it keeps.
 */
module Scheduler {
  import opened Sequences
  import opened Monitoring

  type StatusMap = map<string, string>

  datatype StatusChange = StatusChange(checkName: string, prevStatus: string, newStatus: string, message: string)

  /** The `PrevStatus` of a check that was not there before. */
  const NEW := "new"

  /** The change one result contributes: none, or one. */
  function Delta(prev: StatusMap, c: CheckResult): seq<StatusChange> {
    if c.checkName !in prev then [StatusChange(c.checkName, NEW, c.status, c.message)]
    else if prev[c.checkName] != c.status then
      [StatusChange(c.checkName, prev[c.checkName], c.status, c.message)]
    else []
  }

  function Deltas(prev: StatusMap, checks: seq<CheckResult>): seq<StatusChange> {
    if checks == [] then [] else Deltas(prev, Init(checks)) + Delta(prev, Last(checks))
  }

  /** The first run with checks only sets the baseline. */
  function Detect(prev: StatusMap, checks: seq<CheckResult>): seq<StatusChange> {
    if |prev| == 0 then [] else Deltas(prev, checks)
  }

  function Absorb(prev: StatusMap, checks: seq<CheckResult>): StatusMap {
    if checks == [] then prev else Absorb(prev, Init(checks))[Last(checks).checkName := Last(checks).status]
  }

  datatype State = State(prevStatuses: StatusMap, sent: seq<StatusChange>)

  function RunStep(s: State, run: Run): State {
    match run
    case Failed => s
    case Completed(r) => State(Absorb(s.prevStatuses, r.checks), s.sent + Detect(s.prevStatuses, r.checks))
  }

  function AfterRuns(runs: seq<Run>): State {
    if runs == [] then State(map[], []) else RunStep(AfterRuns(Init(runs)), Last(runs))
  }

  class Scheduler {
    /** Changes are only looked for when there is a webhook to send them to. */
    const webhook: bool
    var prevStatuses: StatusMap
    var sent: seq<StatusChange>

    constructor (webhook: bool)
      ensures this.webhook == webhook && prevStatuses == map[] && sent == []
    {
      this.webhook := webhook;
      prevStatuses := map[];
      sent := [];
    }

    method DetectStatusChanges(checks: seq<CheckResult>) returns (changes: seq<StatusChange>)
      ensures changes == Detect(prevStatuses, checks)
    {
      if |prevStatuses| == 0 {
        return [];
      }
      changes := [];
      for i := 0 to |checks|
        invariant changes == Deltas(prevStatuses, checks[..i])
      {
        var c := checks[i];
        assert Init(checks[..i + 1]) == checks[..i];
        if c.checkName !in prevStatuses {
          changes := changes + [StatusChange(c.checkName, NEW, c.status, c.message)];
          continue;
        }
        if prevStatuses[c.checkName] != c.status {
          changes := changes + [StatusChange(c.checkName, prevStatuses[c.checkName], c.status, c.message)];
        }
      }
      assert checks[..|checks|] == checks;
    }

    /** One turn of the scheduling loop. */
    method Turn(run: Run)
      modifies this
      ensures prevStatuses == RunStep(State(old(prevStatuses), old(sent)), run).prevStatuses
      ensures sent == if webhook then RunStep(State(old(prevStatuses), old(sent)), run).sent else old(sent)
    {
      if run.Completed? {
        var checks := run.report.checks;
        if webhook {
          var changes := DetectStatusChanges(checks);
          sent := sent + changes;
        }
        for i := 0 to |checks|
          invariant prevStatuses == Absorb(old(prevStatuses), checks[..i])
          invariant sent == if webhook then old(sent) + Detect(old(prevStatuses), checks) else old(sent)
        {
          assert Init(checks[..i + 1]) == checks[..i];
          prevStatuses := prevStatuses[checks[i].checkName := checks[i].status];
        }
        assert checks[..|checks|] == checks;
      }
    }
  }

  /** `d` announces `c`: a check the kept map lacks, as "new", or one whose kept status differs. */
  predicate Announces(prev: StatusMap, c: CheckResult, d: StatusChange) {
    && d == StatusChange(c.checkName, if c.checkName in prev then prev[c.checkName] else "new", c.status, c.message)
    && (c.checkName in prev ==> prev[c.checkName] != c.status)
  }

  /** A run's changes announce exactly the new and the differing results, with their messages. */
  lemma {:induction false} DeltasAnnounce(prev: StatusMap, checks: seq<CheckResult>)
    ensures forall d :: d in Deltas(prev, checks) <==> exists c :: c in checks && Announces(prev, c, d)
  {
    if checks != [] {
      DeltasAnnounce(prev, Init(checks));
      assert forall c :: c in checks <==> c in Init(checks) || c == Last(checks);
      assert forall d :: d in Delta(prev, Last(checks)) <==> Announces(prev, Last(checks), d);
      hide Delta, Announces;
    }
  }

  /** And in report order: later results only add at the end. */
  lemma {:induction false} DeltasInOrder(prev: StatusMap, checks: seq<CheckResult>, n: nat)
    requires n <= |checks|
    ensures Deltas(prev, checks[..n]) <= Deltas(prev, checks)
  {
    hide Delta;
    if n < |checks| {
      DeltasInOrder(prev, Init(checks), n);
      assert Init(checks)[..n] == checks[..n];
    } else {
      assert checks[..n] == checks;
    }
  }

  // ----- What the kept map means -----

  /** The kept map holds each check's latest status, however many runs it was missing from. */
  lemma {:induction false} AbsorbIsLatest(prev: StatusMap, checks: seq<CheckResult>, name: string)
    ensures var seen := StatusesIn(checks, name);
            && (name in Absorb(prev, checks) <==> name in prev || seen != [])
            && (name in Absorb(prev, checks) ==>
                  Absorb(prev, checks)[name] == if seen != [] then Last(seen) else prev[name])
  {
    if checks != [] {
      AbsorbIsLatest(prev, Init(checks), name);
    }
  }

  lemma OneMoreReport(reports: seq<Report>, r: Report, name: string)
    ensures var seen, added := Statuses(reports, name), StatusesIn(r.checks, name);
            var all := Statuses(reports + [r], name);
            && (all == [] <==> seen == [] && added == [])
            && (all != [] ==> Last(all) == if added != [] then Last(added) else Last(seen))
  {
    assert Init(reports + [r]) == reports;
    hide StatusesIn;
  }

  lemma {:induction false} KeptIsLatest(runs: seq<Run>, name: string)
    ensures var kept, seen := AfterRuns(runs).prevStatuses, Statuses(Reports(runs), name);
            (name in kept <==> seen != []) && (name in kept ==> kept[name] == Last(seen))
  {
    if runs != [] {
      KeptIsLatest(Init(runs), name);
      if Last(runs).Completed? {
        var r := Last(runs).report;
        AbsorbIsLatest(AfterRuns(Init(runs)).prevStatuses, r.checks, name);
        OneMoreReport(Reports(Init(runs)), r, name);
        hide Absorb, StatusesIn, Statuses;
      }
    }
  }

  // ----- Delta replay -----

  function Replay(m: StatusMap, changes: seq<StatusChange>): StatusMap {
    if changes == [] then m else Replay(m, Init(changes))[Last(changes).checkName := Last(changes).newStatus]
  }

  ghost predicate QuotesAt(m: StatusMap, changes: seq<StatusChange>, i: nat)
    requires i < |changes|
  {
    var before, c := Replay(m, changes[..i]), changes[i];
    c.prevStatus == if c.checkName in before then before[c.checkName] else NEW
  }

  /** Each change quotes the status that replaying the earlier ones arrives at, or "new" when there is none. */
  ghost predicate Quotes(m: StatusMap, changes: seq<StatusChange>) {
    forall i: nat :: i < |changes| ==> QuotesAt(m, changes, i)
  }

  lemma {:induction false} ReplayConcat(m: StatusMap, xs: seq<StatusChange>, ys: seq<StatusChange>)
    ensures Replay(m, xs + ys) == Replay(Replay(m, xs), ys)
  {
    if ys == [] {
      assert xs + ys == xs;
    } else {
      assert Init(xs + ys) == xs + Init(ys);
      ReplayConcat(m, xs, Init(ys));
    }
  }

  lemma QuotesAtLeft(m: StatusMap, xs: seq<StatusChange>, ys: seq<StatusChange>, i: nat)
    requires i < |xs| && QuotesAt(m, xs, i)
    ensures QuotesAt(m, xs + ys, i)
  {
    assert (xs + ys)[..i] == xs[..i];
    hide Replay;
  }

  lemma {:induction false} QuotesAtRight(m: StatusMap, xs: seq<StatusChange>, ys: seq<StatusChange>, k: nat)
    requires k < |ys| && QuotesAt(Replay(m, xs), ys, k)
    ensures QuotesAt(m, xs + ys, |xs| + k)
  {
    assert (xs + ys)[..|xs| + k] == xs + ys[..k];
    ReplayConcat(m, xs, ys[..k]);
    hide Replay;
  }

  lemma {:induction false} QuotesConcat(m: StatusMap, xs: seq<StatusChange>, ys: seq<StatusChange>)
    requires Quotes(m, xs) && Quotes(Replay(m, xs), ys)
    ensures Quotes(m, xs + ys)
  {
    hide Replay, QuotesAt;
    forall i: nat | i < |xs + ys|
      ensures QuotesAt(m, xs + ys, i)
    {
      if i < |xs| {
        QuotesAtLeft(m, xs, ys, i);
      } else {
        QuotesAtRight(m, xs, ys, i - |xs|);
      }
    }
  }

  lemma AbsorbKeepsOthers(prev: StatusMap, checks: seq<CheckResult>, name: string)
    requires forall i :: 0 <= i < |checks| ==> checks[i].checkName != name
    ensures name in Absorb(prev, checks) <==> name in prev
    ensures name in prev ==> Absorb(prev, checks)[name] == prev[name]
  {
    AbsentMeansNoStatus(checks, name);
    AbsorbIsLatest(prev, checks, name);
  }

  /** One result's change, if any, carries the map as far as absorbing the result does. */
  lemma DeltaReplays(prev: StatusMap, mid: StatusMap, c: CheckResult)
    requires c.checkName in mid <==> c.checkName in prev
    requires c.checkName in prev ==> mid[c.checkName] == prev[c.checkName]
    ensures Replay(mid, Delta(prev, c)) == mid[c.checkName := c.status]
    ensures Quotes(mid, Delta(prev, c))
  {
    var delta := Delta(prev, c);
    if delta != [] {
      assert Init(delta) == [] && delta[..0] == [];
    } else {
      assert mid[c.checkName := c.status] == mid;
    }
  }

  /** With no check reported twice, a run's changes carry the old map to the new one. */
  lemma {:induction false} DeltasReplay(prev: StatusMap, checks: seq<CheckResult>)
    requires DistinctNames(checks)
    ensures Replay(prev, Deltas(prev, checks)) == Absorb(prev, checks)
    ensures Quotes(prev, Deltas(prev, checks))
  {
    hide Replay, Quotes, Delta;
    if checks != [] {
      var mid, c := Absorb(prev, Init(checks)), Last(checks);
      var earlier, delta := Deltas(prev, Init(checks)), Delta(prev, c);
      DeltasReplay(prev, Init(checks));
      AbsorbKeepsOthers(prev, Init(checks), c.checkName);
      DeltaReplays(prev, mid, c);
      ReplayConcat(prev, earlier, delta);
      QuotesConcat(prev, earlier, delta);
    } else {
      NothingReplays(prev);
    }
  }

  lemma NothingReplays(m: StatusMap)
    ensures Replay(m, []) == m && Quotes(m, [])
  {
  }

  lemma {:induction false} AbsorbGrows(prev: StatusMap, checks: seq<CheckResult>)
    ensures Absorb(prev, checks).Keys >= prev.Keys
    ensures checks != [] ==> Last(checks).checkName in Absorb(prev, checks)
  {
    if checks != [] {
      AbsorbGrows(prev, Init(checks));
    }
  }

  /**
   Delta replay: after the run that sets the baseline, replaying everything sent
   since gives the kept map after every later run, and every change quotes the
   replayed status.
   */
  lemma {:induction false} SentReplaysToKept(runs: seq<Run>, later: seq<Run>)
    requires DistinctInReports(Reports(runs + later))
    requires AfterRuns(runs).sent == [] && AfterRuns(runs).prevStatuses != map[]
    ensures var base, s := AfterRuns(runs).prevStatuses, AfterRuns(runs + later);
            && Replay(base, s.sent) == s.prevStatuses
            && Quotes(base, s.sent)
            && s.prevStatuses != map[]
  {
    if later == [] {
      assert runs + later == runs;
    } else {
      var all, before := runs + later, runs + Init(later);
      assert Init(all) == before && Last(all) == Last(later);
      if Last(later).Completed? {
        assert Reports(all) == Reports(before) + [Last(later).report];
        assert forall i :: 0 <= i < |Reports(before)| ==> Reports(before)[i] == Reports(all)[i];
        assert Reports(all)[|Reports(before)|] == Last(later).report;
      }
      SentReplaysToKept(runs, Init(later));
      if Last(later).Completed? {
        var s, checks := AfterRuns(before), Last(later).report.checks;
        AbsorbGrows(s.prevStatuses, checks);
        DeltasReplay(s.prevStatuses, checks);
        var base := AfterRuns(runs).prevStatuses;
        ReplayConcat(base, s.sent, Deltas(s.prevStatuses, checks));
        QuotesConcat(base, s.sent, Deltas(s.prevStatuses, checks));
      }
    }
  }

  /**
   The same from the first run: whatever failed or empty runs come first, the
   first run with checks sets the baseline that the changes build on.  A change
   quotes "new" exactly when its check is absent, or its status was literally "new".
   */
  lemma ReplayFromBaseline(quiet: seq<Run>, first: Run, later: seq<Run>)
    requires forall r :: r in quiet ==> r.Failed? || r.report.checks == []
    requires first.Completed? && first.report.checks != []
    requires DistinctInReports(Reports(quiet + [first] + later))
    ensures var base := Absorb(map[], first.report.checks);
            var s := AfterRuns(quiet + [first] + later);
            && AfterRuns(quiet + [first]) == State(base, [])
            && Replay(base, s.sent) == s.prevStatuses
            && forall i: nat :: i < |s.sent| ==>
                 var before, c := Replay(base, s.sent[..i]), s.sent[i];
                 && (c.checkName in before ==> c.prevStatus == before[c.checkName])
                 && (c.prevStatus == NEW <==> c.checkName !in before || before[c.checkName] == NEW)
  {
    QuietRuns(quiet);
    assert Init(quiet + [first]) == quiet && Last(quiet + [first]) == first;
    AbsorbGrows(map[], first.report.checks);
    SentReplaysToKept(quiet + [first], later);
    var base, s := Absorb(map[], first.report.checks), AfterRuns(quiet + [first] + later);
    hide Replay, AfterRuns, Absorb, Reports;
    forall i: nat | i < |s.sent|
      ensures var before, c := Replay(base, s.sent[..i]), s.sent[i];
              && (c.checkName in before ==> c.prevStatus == before[c.checkName])
              && (c.prevStatus == NEW <==> c.checkName !in before || before[c.checkName] == NEW)
    {
      assert QuotesAt(base, s.sent, i);
    }
  }

  lemma {:induction false} QuietRuns(quiet: seq<Run>)
    requires forall r :: r in quiet ==> r.Failed? || r.report.checks == []
    ensures AfterRuns(quiet) == State(map[], [])
  {
    if quiet != [] {
      QuietRuns(Init(quiet));
      assert Last(quiet) in quiet;
    }
  }

  // ----- A check reported more than once in one run -----

  /** The last of the statuses that differs from `from`, or `from` itself. */
  function LastOther(seen: seq<string>, from: string): string {
    if seen == [] then from
    else if Last(seen) != from then Last(seen)
    else LastOther(Init(seen), from)
  }

  /** The check left its previous status within the report and came back to it. */
  predicate CameBack(seen: seq<string>, from: string) {
    seen != [] && Last(seen) == from && exists i | 0 <= i < |seen| :: seen[i] != from
  }

  lemma {:induction false} LastOtherMisses(seen: seq<string>, from: string)
    ensures LastOther(seen, from) != (if seen == [] then from else Last(seen)) <==> CameBack(seen, from)
    ensures LastOther(seen, from) == from <==> forall i :: 0 <= i < |seen| ==> seen[i] == from
  {
    if seen != [] && Last(seen) == from {
      LastOtherMisses(Init(seen), from);
      assert seen == Init(seen) + [Last(seen)];
    }
  }

  /** One more result's change, replayed. */
  lemma ReplayOne(m: StatusMap, prev: StatusMap, c: CheckResult)
    ensures Replay(m, Delta(prev, c))
            == if c.checkName in prev && prev[c.checkName] == c.status then m else m[c.checkName := c.status]
  {
    var delta := Delta(prev, c);
    if delta != [] {
      assert Init(delta) == [];
    }
  }

  /** Every change is computed against the old map, so replaying arrives at the last status other than the old one. */
  lemma {:induction false} ReplayedStatus(prev: StatusMap, checks: seq<CheckResult>, name: string)
    ensures var m, seen := Replay(prev, Deltas(prev, checks)), StatusesIn(checks, name);
            && (name in m <==> name in prev || seen != [])
            && (name in m ==> m[name] == if name in prev then LastOther(seen, prev[name]) else Last(seen))
  {
    hide Replay, Delta;
    if checks != [] {
      var c, before := Last(checks), Init(checks);
      ReplayedStatus(prev, before, name);
      ReplayConcat(prev, Deltas(prev, before), Delta(prev, c));
      ReplayOne(Replay(prev, Deltas(prev, before)), prev, c);
      var earlier := StatusesIn(before, name);
      if c.checkName == name {
        assert StatusesIn(checks, name) == earlier + [c.status];
        assert Init(earlier + [c.status]) == earlier;
      } else {
        assert StatusesIn(checks, name) == earlier;
        hide LastOther, StatusesIn;
      }
    } else {
      NothingReplays(prev);
    }
  }

  ghost predicate NoneCameBack(prev: StatusMap, checks: seq<CheckResult>) {
    forall name :: name in prev ==> !CameBack(StatusesIn(checks, name), prev[name])
  }

  /** Replaying one run's changes gives the kept map if and only if no check came back to its previous status. */
  lemma ReplayIffNoneCameBack(prev: StatusMap, checks: seq<CheckResult>)
    ensures Replay(prev, Deltas(prev, checks)) == Absorb(prev, checks)
            <==> NoneCameBack(prev, checks)
  {
    var replayed, kept := Replay(prev, Deltas(prev, checks)), Absorb(prev, checks);
    hide Replay, Deltas, Absorb, CameBack, LastOther, StatusesIn;
    forall name
      ensures name in replayed <==> name in kept
      ensures name in replayed ==>
                (replayed[name] == kept[name] <==> !(name in prev && CameBack(StatusesIn(checks, name), prev[name])))
      ensures name in prev ==> name in kept
    {
      ReplayedStatus(prev, checks, name);
      AbsorbIsLatest(prev, checks, name);
      if name in prev {
        LastOtherMisses(StatusesIn(checks, name), prev[name]);
      }
    }
  }

  /** Replaying what was sent since the baseline gives the map kept after the first `k` later runs. */
  ghost predicate ReplaysAt(runs: seq<Run>, later: seq<Run>, k: nat)
    requires k <= |later|
  {
    var s := AfterRuns(runs + later[..k]);
    Replay(AfterRuns(runs).prevStatuses, s.sent) == s.prevStatuses
  }

  /** Later run `k`, if it completes, brings no check back to the status kept before it. */
  ghost predicate NoneCameBackAt(runs: seq<Run>, later: seq<Run>, k: nat)
    requires k < |later|
  {
    later[k].Completed? ==> NoneCameBack(AfterRuns(runs + later[..k]).prevStatuses, later[k].report.checks)
  }

  lemma OneMoreRun(runs: seq<Run>, run: Run)
    ensures AfterRuns(runs + [run]) == RunStep(AfterRuns(runs), run)
  {
    assert Init(runs + [run]) == runs;
    hide RunStep;
  }

  lemma {:induction false} KeptStaysNonEmpty(runs: seq<Run>, later: seq<Run>, k: nat)
    requires AfterRuns(runs).prevStatuses != map[] && k <= |later|
    ensures AfterRuns(runs + later[..k]).prevStatuses != map[]
  {
    if k == 0 {
      assert runs + later[..0] == runs;
    } else {
      KeptStaysNonEmpty(runs, later, k - 1);
      assert runs + later[..k] == (runs + later[..k - 1]) + [later[k - 1]];
      OneMoreRun(runs + later[..k - 1], later[k - 1]);
      hide AfterRuns;
      if later[k - 1].Completed? {
        AbsorbGrows(AfterRuns(runs + later[..k - 1]).prevStatuses, later[k - 1].report.checks);
      }
    }
  }

  lemma ReplayGoesOn(runs: seq<Run>, later: seq<Run>, k: nat)
    requires AfterRuns(runs).prevStatuses != map[] && k < |later| && ReplaysAt(runs, later, k)
    ensures ReplaysAt(runs, later, k + 1) <==> NoneCameBackAt(runs, later, k)
  {
    KeptStaysNonEmpty(runs, later, k);
    assert runs + later[..k + 1] == (runs + later[..k]) + [later[k]];
    OneMoreRun(runs + later[..k], later[k]);
    var base, s := AfterRuns(runs).prevStatuses, AfterRuns(runs + later[..k]);
    hide AfterRuns, Replay, Absorb, Deltas, NoneCameBack;
    if later[k].Completed? {
      var checks := later[k].report.checks;
      ReplayConcat(base, s.sent, Deltas(s.prevStatuses, checks));
      ReplayIffNoneCameBack(s.prevStatuses, checks);
    }
  }

  lemma {:induction false} ReplaysUpTo(runs: seq<Run>, later: seq<Run>, n: nat)
    requires AfterRuns(runs).sent == [] && AfterRuns(runs).prevStatuses != map[] && n <= |later|
    ensures (forall k: nat :: k <= n ==> ReplaysAt(runs, later, k))
            <==> forall k: nat :: k < n ==> NoneCameBackAt(runs, later, k)
  {
    if n == 0 {
      assert runs + later[..0] == runs;
      assert ReplaysAt(runs, later, 0);
    } else {
      hide ReplaysAt, NoneCameBackAt, AfterRuns;
      ReplaysUpTo(runs, later, n - 1);
      if ReplaysAt(runs, later, n - 1) {
        ReplayGoesOn(runs, later, n - 1);
      }
    }
  }

  /**
   Over whole runs: replaying what was sent gives the kept map after every later
   run if and only if no run brings a check back to the status kept before it.
   */
  lemma ReplaysThroughoutIff(runs: seq<Run>, later: seq<Run>)
    requires AfterRuns(runs).sent == [] && AfterRuns(runs).prevStatuses != map[]
    ensures (forall k: nat :: k <= |later| ==> ReplaysAt(runs, later, k))
            <==> forall k: nat :: k < |later| ==> NoneCameBackAt(runs, later, k)
  {
    ReplaysUpTo(runs, later, |later|);
  }

  /** A check reported twice in one run can break the replay. */
  lemma DuplicateBreaksReplay(name: string)
    ensures var twice := [CheckResult(name, "fail", "", 0.0), CheckResult(name, "pass", "", 0.0)];
            var prev: StatusMap := map[name := "pass"];
            Replay(prev, Deltas(prev, twice)) != Absorb(prev, twice)
  {
    var a, b := CheckResult(name, "fail", "", 0.0), CheckResult(name, "pass", "", 0.0);
    var prev: StatusMap := map[name := "pass"];
    assert Init([a, b]) == [a] && Init([a]) == [];
    var c := StatusChange(name, "pass", "fail", "");
    assert Delta(prev, a) == [c] && Delta(prev, b) == [];
    assert Deltas(prev, [a]) == [c] && Deltas(prev, [a, b]) == [c];
    assert Init([c]) == [];
    assert Replay(prev, [c])[name] == "fail";
    assert Absorb(prev, [a, b])[name] == "pass";
  }
}
