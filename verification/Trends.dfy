/**
 The dashboard's batch view: it recomputes every check's timeline from the whole
 history.  Its count of status changes is the scheduler's count of sent changes.
 */
module Trends {
  import opened Sequences
  import opened Monitoring
  import Scheduler

  datatype CheckTimePoint = CheckTimePoint(runAt: string, status: string, actual: real)

  datatype CheckTimeline = CheckTimeline(checkName: string, points: seq<CheckTimePoint>, changes: nat)

  datatype TrendResponse = TrendResponse(dataPoints: nat, earliest: string, latest: string,
                                         checkTimeline: seq<CheckTimeline>)

  function PointsIn(r: Report, checks: seq<CheckResult>, name: string): seq<CheckTimePoint> {
    if checks == [] then []
    else
      var c := Last(checks);
      PointsIn(r, Init(checks), name)
      + if c.checkName == name then [CheckTimePoint(r.runAt, c.status, c.actual)] else []
  }

  /** Every point of `name`, oldest report first. */
  function Points(reports: seq<Report>, name: string): seq<CheckTimePoint> {
    if reports == [] then [] else Points(Init(reports), name) + PointsIn(Last(reports), Last(reports).checks, name)
  }

  function StatusOf(p: CheckTimePoint): string {
    p.status
  }

  function StatusesOf(points: seq<CheckTimePoint>): seq<string> {
    Map(points, StatusOf)
  }

  lemma StatusesConcat(xs: seq<CheckTimePoint>, ys: seq<CheckTimePoint>)
    ensures StatusesOf(xs + ys) == StatusesOf(xs) + StatusesOf(ys)
  {
  }

  lemma {:induction false} PointsInStatuses(r: Report, checks: seq<CheckResult>, name: string)
    ensures StatusesOf(PointsIn(r, checks, name)) == StatusesIn(checks, name)
  {
    if checks != [] {
      PointsInStatuses(r, Init(checks), name);
    }
  }

  lemma {:induction false} PointsStatuses(reports: seq<Report>, name: string)
    ensures StatusesOf(Points(reports, name)) == Statuses(reports, name)
  {
    if reports != [] {
      PointsStatuses(Init(reports), name);
      PointsInStatuses(Last(reports), Last(reports).checks, name);
      StatusesConcat(Points(Init(reports), name), PointsIn(Last(reports), Last(reports).checks, name));
    }
  }

  /** Go's byte order on strings. */
  predicate Before(a: string, b: string) {
    if b == "" then false
    else if a == "" then true
    else a[0] < b[0] || (a[0] == b[0] && Before(a[1..], b[1..]))
  }

  /** At position `k` the two part: `a` ends there, or has the smaller character. */
  predicate PartAt(a: string, b: string, k: nat) {
    k <= |a| && k < |b| && a[..k] == b[..k] && (k == |a| || a[k] < b[k])
  }

  lemma PartEarly(a: string, b: string, k: nat)
    requires b != "" && (a == "" || a[0] != b[0])
    ensures PartAt(a, b, k) ==> PartAt(a, b, 0)
  {
  }

  /** The order is lexicographic. */
  lemma {:induction false} BeforeIsLexicographic(a: string, b: string)
    ensures Before(a, b) <==> exists k: nat :: PartAt(a, b, k)
  {
    if a != "" && b != "" && a[0] == b[0] {
      BeforeIsLexicographic(a[1..], b[1..]);
      if k: nat :| PartAt(a[1..], b[1..], k) {
        assert a[..k + 1] == [a[0]] + a[1..][..k] && b[..k + 1] == [b[0]] + b[1..][..k];
        assert PartAt(a, b, k + 1);
      }
      if k: nat :| PartAt(a, b, k) {
        assert k > 0;
        assert a[1..][..k - 1] == a[..k][1..] && b[1..][..k - 1] == b[..k][1..];
        assert PartAt(a[1..], b[1..], k - 1);
      }
    } else if b != "" {
      if Before(a, b) {
        assert PartAt(a, b, 0);
      }
      forall k: nat
        ensures PartAt(a, b, k) ==> PartAt(a, b, 0)
      {
        PartEarly(a, b, k);
      }
    }
  }

  lemma {:induction false} BeforeTransitive(a: string, b: string, c: string)
    requires Before(a, b) && Before(b, c)
    ensures Before(a, c)
  {
    if a != "" && a[0] == b[0] == c[0] {
      BeforeTransitive(a[1..], b[1..], c[1..]);
    }
  }

  lemma {:induction false} BeforeTotal(a: string, b: string)
    ensures Before(a, b) || a == b || Before(b, a)
  {
    if a != "" && b != "" && a[0] == b[0] {
      BeforeTotal(a[1..], b[1..]);
      assert a == [a[0]] + a[1..] && b == [b[0]] + b[1..];
    }
  }

  lemma {:induction false} BeforeIrreflexive(a: string)
    ensures !Before(a, a)
  {
    if a != "" {
      BeforeIrreflexive(a[1..]);
    }
  }

  ghost predicate Ascending(ts: seq<CheckTimeline>) {
    forall i, j :: 0 <= i < j < |ts| ==> Before(ts[i].checkName, ts[j].checkName)
  }

  /** One timeline per check that ever appeared, in name order, with its points and their switches. */
  ghost predicate IsTimelineOf(ts: seq<CheckTimeline>, reports: seq<Report>) {
    && Ascending(ts)
    && (forall i :: 0 <= i < |ts| ==>
          var t := ts[i];
          t.points != [] && t.points == Points(reports, t.checkName) && t.changes == Switches(StatusesOf(t.points)))
    && (forall name :: Points(reports, name) != [] ==> exists i :: 0 <= i < |ts| && ts[i].checkName == name)
  }

  /** The response is fixed by the reports, whatever order the map is walked in. */
  lemma {:induction false} TimelineUnique(ts: seq<CheckTimeline>, us: seq<CheckTimeline>, reports: seq<Report>)
    requires IsTimelineOf(ts, reports) && IsTimelineOf(us, reports)
    ensures ts == us
  {
    hide IsTimelineOf;
    if |ts| <= |us| {
      SamePrefix(ts, us, reports, |ts|);
      NothingMissing(ts, us, reports);
    } else {
      SamePrefix(us, ts, reports, |us|);
      NothingMissing(us, ts, reports);
    }
  }

  lemma {:induction false} SamePrefix(ts: seq<CheckTimeline>, us: seq<CheckTimeline>, reports: seq<Report>, n: nat)
    requires IsTimelineOf(ts, reports) && IsTimelineOf(us, reports) && n <= |ts| && n <= |us|
    ensures ts[..n] == us[..n]
  {
    hide IsTimelineOf;
    if n > 0 {
      SamePrefix(ts, us, reports, n - 1);
      SameNext(ts, us, reports, n - 1);
      SameNext(us, ts, reports, n - 1);
      BeforeTotal(ts[n - 1].checkName, us[n - 1].checkName);
      SameNameSameTimeline(ts, us, reports, n - 1, n - 1);
      assert ts[..n] == ts[..n - 1] + [ts[n - 1]] && us[..n] == us[..n - 1] + [us[n - 1]];
    }
  }

  lemma SameNameSameTimeline(ts: seq<CheckTimeline>, us: seq<CheckTimeline>, reports: seq<Report>, i: nat, j: nat)
    requires IsTimelineOf(ts, reports) && IsTimelineOf(us, reports) && i < |ts| && j < |us|
    requires ts[i].checkName == us[j].checkName
    ensures ts[i] == us[j]
  {
  }

  /** A timeline that continues another would repeat a name. */
  lemma NothingMissing(ts: seq<CheckTimeline>, us: seq<CheckTimeline>, reports: seq<Report>)
    requires IsTimelineOf(ts, reports) && IsTimelineOf(us, reports) && |ts| <= |us| && us[..|ts|] == ts
    ensures |us| == |ts|
  {
    var n := |ts|;
    if n < |us| {
      var name := us[n].checkName;
      assert Points(reports, name) != [];
      var i :| 0 <= i < |ts| && ts[i].checkName == name;
      assert us[i] == ts[i];
      BeforeIrreflexive(name);
    }
  }

  lemma NotBoth(a: string, b: string)
    requires Before(a, b)
    ensures !Before(b, a)
  {
    if Before(b, a) {
      BeforeTransitive(a, b, a);
      BeforeIrreflexive(a);
    }
  }

  /** Where two timelines agree so far, the next name of one does not precede the next of the other. */
  lemma SameNext(ts: seq<CheckTimeline>, us: seq<CheckTimeline>, reports: seq<Report>, k: nat)
    requires IsTimelineOf(ts, reports) && IsTimelineOf(us, reports) && k < |ts| && k < |us|
    requires ts[..k] == us[..k]
    ensures !Before(ts[k].checkName, us[k].checkName)
  {
    var name := ts[k].checkName;
    assert Points(reports, name) != [];
    var i :| 0 <= i < |us| && us[i].checkName == name;
    if i < k {
      assert ts[..k][i] == us[..k][i];
      BeforeIrreflexive(name);
      assert false;
    } else if i > k {
      NotBoth(us[k].checkName, name);
    } else {
      BeforeIrreflexive(name);
    }
  }

  // ----- The computation -----

  type PointMap = map<string, seq<CheckTimePoint>>

  ghost predicate Groups(m: PointMap, reports: seq<Report>) {
    forall name :: (name in m <==> Points(reports, name) != []) && (name in m ==> m[name] == Points(reports, name))
  }

  /** The map entry for one name, as far as the report's results `checks` go. */
  ghost predicate GroupsName(m: PointMap, earlier: seq<CheckTimePoint>, partly: seq<CheckTimePoint>, name: string) {
    (name in m <==> earlier + partly != []) && (name in m ==> m[name] == earlier + partly)
  }

  ghost predicate GroupsPartly(m: PointMap, reports: seq<Report>, r: Report, checks: seq<CheckResult>) {
    forall name :: GroupsName(m, Points(reports, name), PointsIn(r, checks, name), name)
  }

  lemma AppendToName(m: PointMap, earlier: seq<CheckTimePoint>, partly: seq<CheckTimePoint>, name: string,
                     p: CheckTimePoint)
    requires GroupsName(m, earlier, partly, name)
    ensures GroupsName(m[name := (if name in m then m[name] else []) + [p]], earlier, partly + [p], name)
  {
    assert earlier + (partly + [p]) == (earlier + partly) + [p];
  }

  lemma AppendPoint(m: PointMap, reports: seq<Report>, r: Report, checks: seq<CheckResult>, c: CheckResult)
    requires GroupsPartly(m, reports, r, checks)
    ensures var points := if c.checkName in m then m[c.checkName] else [];
            var point := CheckTimePoint(r.runAt, c.status, c.actual);
            GroupsPartly(m[c.checkName := points + [point]], reports, r, checks + [c])
  {
    hide PointsIn, Points, GroupsName;
    var p := CheckTimePoint(r.runAt, c.status, c.actual);
    var m' := m[c.checkName := (if c.checkName in m then m[c.checkName] else []) + [p]];
    forall name
      ensures GroupsName(m', Points(reports, name), PointsIn(r, checks + [c], name), name)
    {
      var earlier, partly := Points(reports, name), PointsIn(r, checks, name);
      PointsInOneMore(r, checks, c, name);
      assert GroupsName(m, earlier, partly, name);
      if name == c.checkName {
        AppendToName(m, earlier, partly, name, p);
      } else {
        SameName(m, m', earlier, partly, name);
        assert partly + [] == partly;
      }
    }
  }

  lemma SameName(m: PointMap, m': PointMap, earlier: seq<CheckTimePoint>, partly: seq<CheckTimePoint>, name: string)
    requires GroupsName(m, earlier, partly, name)
    requires (name in m <==> name in m') && (name in m ==> m[name] == m'[name])
    ensures GroupsName(m', earlier, partly, name)
  {
  }

  lemma PointsInOneMore(r: Report, checks: seq<CheckResult>, c: CheckResult, name: string)
    ensures PointsIn(r, checks + [c], name)
            == PointsIn(r, checks, name)
               + if c.checkName == name then [CheckTimePoint(r.runAt, c.status, c.actual)] else []
  {
    assert Init(checks + [c]) == checks;
  }

  lemma ReportDone(m: PointMap, reports: seq<Report>, r: Report)
    requires GroupsPartly(m, reports, r, r.checks)
    ensures Groups(m, reports + [r])
  {
    assert Init(reports + [r]) == reports;
    forall name
      ensures GroupsName(m, Points(reports, name), PointsIn(r, r.checks, name), name)
    {
    }
  }

  method GroupPoints(reports: seq<Report>) returns (checkMap: PointMap)
    ensures Groups(checkMap, reports)
  {
    hide Groups, GroupsPartly;
    checkMap := map[];
    assert Groups(checkMap, []) by { GroupsNothing(); }
    for i := 0 to |reports|
      invariant Groups(checkMap, reports[..i])
    {
      var r := reports[i];
      ReportBegins(checkMap, reports[..i], r);
      for j := 0 to |r.checks|
        invariant GroupsPartly(checkMap, reports[..i], r, r.checks[..j])
      {
        var c := r.checks[j];
        AppendPoint(checkMap, reports[..i], r, r.checks[..j], c);
        assert r.checks[..j + 1] == r.checks[..j] + [c];
        var points := if c.checkName in checkMap then checkMap[c.checkName] else [];
        checkMap := checkMap[c.checkName := points + [CheckTimePoint(r.runAt, c.status, c.actual)]];
      }
      assert r.checks[..|r.checks|] == r.checks;
      ReportDone(checkMap, reports[..i], r);
      assert reports[..i + 1] == reports[..i] + [r];
    }
    assert reports[..|reports|] == reports;
  }

  lemma GroupsNothing()
    ensures Groups(map[], [])
  {
  }

  lemma ReportBegins(m: PointMap, reports: seq<Report>, r: Report)
    requires Groups(m, reports)
    ensures GroupsPartly(m, reports, r, r.checks[..0])
  {
    forall name
      ensures GroupsName(m, Points(reports, name), PointsIn(r, r.checks[..0], name), name)
    {
      assert Points(reports, name) + [] == Points(reports, name);
    }
  }

  lemma OneMorePoint(points: seq<CheckTimePoint>, p: CheckTimePoint)
    requires points != []
    ensures Switches(StatusesOf(points + [p]))
            == Switches(StatusesOf(points)) + if p.status != Last(points).status then 1 else 0
  {
    StatusesConcat(points, [p]);
    hide StatusesOf;
    var statuses := StatusesOf(points);
    StatusesAt(points);
    assert StatusesOf([p]) == [p.status] by {
      StatusesAt([p]);
    }
    assert Init(statuses + [p.status]) == statuses;
  }

  lemma StatusesAt(points: seq<CheckTimePoint>)
    ensures |StatusesOf(points)| == |points|
    ensures forall i :: 0 <= i < |points| ==> StatusesOf(points)[i] == points[i].status
  {
  }

  lemma FewerThanTwo(points: seq<CheckTimePoint>)
    requires |points| < 2
    ensures Switches(StatusesOf(points)) == 0
  {
    StatusesAt(points);
  }

  method CountChanges(points: seq<CheckTimePoint>) returns (changes: nat)
    ensures changes == Switches(StatusesOf(points))
  {
    hide Switches, StatusesOf;
    changes := 0;
    FewerThanTwo(points[..if points == [] then 0 else 1]);
    var i := 1;
    while i < |points|
      invariant 1 <= i && (i <= |points| || |points| == 0)
      invariant changes == Switches(StatusesOf(points[..if points == [] then 0 else i]))
    {
      OneMorePoint(points[..i], points[i]);
      assert points[..i + 1] == points[..i] + [points[i]];
      if points[i].status != points[i - 1].status {
        changes := changes + 1;
      }
      i := i + 1;
    }
    assert points[..|points|] == points;
  }

  lemma InsertedAscending(ts: seq<CheckTimeline>, k: nat, t: CheckTimeline)
    requires k <= |ts| && Ascending(ts)
    requires k > 0 ==> Before(ts[k - 1].checkName, t.checkName)
    requires k < |ts| ==> Before(t.checkName, ts[k].checkName)
    ensures Ascending(ts[..k] + [t] + ts[k..])
  {
    var us := ts[..k] + [t] + ts[k..];
    forall i, j | 0 <= i < j < |us|
      ensures Before(us[i].checkName, us[j].checkName)
    {
      if i < k && j >= k {
        if i < k - 1 { BeforeTransitive(ts[i].checkName, ts[k - 1].checkName, t.checkName); }
      }
      if j > k && i <= k {
        if j > k + 1 { BeforeTransitive(t.checkName, ts[k].checkName, ts[j - 1].checkName); }
      }
    }
  }

  /** Appends a timeline and restores the name order. */
  method InsertByName(ts: seq<CheckTimeline>, t: CheckTimeline) returns (us: seq<CheckTimeline>)
    requires Ascending(ts) && forall i :: 0 <= i < |ts| ==> ts[i].checkName != t.checkName
    ensures Ascending(us) && multiset(us) == multiset(ts) + multiset{t}
  {
    hide Before;
    var k := |ts|;
    while k > 0 && Before(t.checkName, ts[k - 1].checkName)
      invariant 0 <= k <= |ts|
      invariant k < |ts| ==> Before(t.checkName, ts[k].checkName)
    {
      k := k - 1;
    }
    if k > 0 {
      BeforeTotal(t.checkName, ts[k - 1].checkName);
    }
    InsertedAscending(ts, k, t);
    InsertedMultiset(ts, k, t);
    us := ts[..k] + [t] + ts[k..];
  }

  function TimelineFor(checkMap: PointMap, name: string): CheckTimeline
    requires name in checkMap
  {
    CheckTimeline(name, checkMap[name], Switches(StatusesOf(checkMap[name])))
  }

  /** The timelines of exactly the names in `done`. */
  ghost predicate Covers(ts: seq<CheckTimeline>, checkMap: PointMap, done: set<string>) {
    && Ascending(ts)
    && (forall i :: 0 <= i < |ts| ==>
          ts[i].checkName in done && ts[i].checkName in checkMap && ts[i] == TimelineFor(checkMap, ts[i].checkName))
    && (forall name :: name in done ==> exists i :: 0 <= i < |ts| && ts[i].checkName == name)
  }

  lemma CoversOneMore(ts: seq<CheckTimeline>, us: seq<CheckTimeline>, checkMap: PointMap, done: set<string>,
                      name: string)
    requires Covers(ts, checkMap, done) && name in checkMap && Ascending(us)
    requires multiset(us) == multiset(ts) + multiset{TimelineFor(checkMap, name)}
    ensures Covers(us, checkMap, done + {name})
  {
    forall i | 0 <= i < |us|
      ensures var t := us[i];
              t.checkName in done + {name} && t.checkName in checkMap && t == TimelineFor(checkMap, t.checkName)
    {
      assert us[i] in multiset(us);
      if us[i] in multiset(ts) {
        assert us[i] in ts;
      }
    }
    forall n | n in done + {name}
      ensures exists i :: 0 <= i < |us| && us[i].checkName == n
    {
      var t := TimelineFor(checkMap, name);
      if n != name {
        var i :| 0 <= i < |ts| && ts[i].checkName == n;
        t := ts[i];
      }
      assert t in multiset(us);
      assert t in us;
    }
  }

  /** Walks the map in any order. */
  method BuildTimelines(checkMap: PointMap) returns (timeline: seq<CheckTimeline>)
    ensures Covers(timeline, checkMap, checkMap.Keys)
  {
    timeline := [];
    var rest := checkMap.Keys;
    while rest != {}
      invariant rest <= checkMap.Keys
      invariant Covers(timeline, checkMap, checkMap.Keys - rest)
      decreases rest
    {
      var name :| name in rest;
      var changes := CountChanges(checkMap[name]);
      ghost var was, done := timeline, checkMap.Keys - rest;
      timeline := InsertByName(timeline, CheckTimeline(name, checkMap[name], changes));
      CoversOneMore(was, timeline, checkMap, done, name);
      rest := rest - {name};
      assert checkMap.Keys - rest == done + {name};
    }
    assert checkMap.Keys - rest == checkMap.Keys;
  }

  /** The handler calls this with at least one report. */
  method ComputeTrends(reports: seq<Report>) returns (resp: TrendResponse)
    requires reports != []
    ensures resp.dataPoints == |reports|
    ensures resp.earliest == reports[0].runAt && resp.latest == Last(reports).runAt
    ensures IsTimelineOf(resp.checkTimeline, reports)
  {
    var checkMap := GroupPoints(reports);
    var timeline := BuildTimelines(checkMap);
    resp := TrendResponse(|reports|, reports[0].runAt, Last(reports).runAt, timeline);
  }

  // ----- Incremental equals batch -----

  /** The sent changes of `name` that do not announce it as new. */
  function SentFor(sent: seq<Scheduler.StatusChange>, name: string): nat {
    Count(sent, Concerns(name))
  }

  function Concerns(name: string): Scheduler.StatusChange -> bool {
    (c: Scheduler.StatusChange) => c.checkName == name && c.prevStatus != Scheduler.NEW
  }

  lemma SentForConcat(xs: seq<Scheduler.StatusChange>, ys: seq<Scheduler.StatusChange>, name: string)
    ensures SentFor(xs + ys, name) == SentFor(xs, name) + SentFor(ys, name)
  {
    CountConcat(xs, ys, Concerns(name));
  }

  /** What one result adds for `name`. */
  lemma DeltaFor(prev: Scheduler.StatusMap, c: CheckResult, name: string)
    ensures SentFor(Scheduler.Delta(prev, c), name)
            == if c.checkName == name && name in prev && prev[name] != c.status && prev[name] != Scheduler.NEW
               then 1 else 0
  {
    var delta := Scheduler.Delta(prev, c);
    if delta != [] {
      assert delta == [] + [delta[0]];
      CountOneMore([], delta[0], Concerns(name));
    }
  }

  lemma NothingSentFor(name: string)
    ensures SentFor([], name) == 0
  {
  }

  /** What one report adds for `name`. */
  lemma {:induction false} DeltasFor(prev: Scheduler.StatusMap, checks: seq<CheckResult>, name: string)
    requires DistinctNames(checks)
    ensures |StatusesIn(checks, name)| <= 1
    ensures SentFor(Scheduler.Deltas(prev, checks), name)
            == if StatusesIn(checks, name) != [] && name in prev && prev[name] != StatusesIn(checks, name)[0]
                  && prev[name] != Scheduler.NEW then 1 else 0
  {
    hide SentFor, Scheduler.Delta;
    if checks != [] {
      var before, c := Init(checks), Last(checks);
      DeltasFor(prev, before, name);
      SentForConcat(Scheduler.Deltas(prev, before), Scheduler.Delta(prev, c), name);
      DeltaFor(prev, c, name);
      if c.checkName == name {
        AbsentMeansNoStatus(before, name);
        assert StatusesIn(checks, name) == [c.status];
      } else {
        assert StatusesIn(checks, name) == StatusesIn(before, name);
      }
      hide StatusesIn;
    } else {
      NothingSentFor(name);
    }
  }

  lemma SwitchesOneMore(statuses: seq<string>, s: string, from: string)
    ensures Switches(statuses + [s])
            == Switches(statuses) + if statuses != [] && Last(statuses) != s then 1 else 0
    ensures SwitchesFrom(statuses + [s], from)
            == SwitchesFrom(statuses, from)
               + if statuses != [] && Last(statuses) != s && Last(statuses) == from then 1 else 0
  {
    assert Init(statuses + [s]) == statuses;
  }

  /**
   Incremental equals batch, whatever runs a check was missing from: the batch
   count is the number of changes sent, plus those out of a status that is
   literally "new", which the scheduler's changes cannot tell from a first sighting.
   */
  lemma {:induction false} BatchIsIncremental(runs: seq<Run>, name: string)
    requires DistinctInReports(Reports(runs))
    ensures var statuses := Statuses(Reports(runs), name);
            Switches(statuses)
            == SentFor(Scheduler.AfterRuns(runs).sent, name) + SwitchesFrom(statuses, Scheduler.NEW)
  {
    if runs != [] {
      var before := Reports(Init(runs));
      assert forall i :: 0 <= i < |before| ==> before[i] == Reports(runs)[i];
      BatchIsIncremental(Init(runs), name);
      if Last(runs).Completed? {
        var r := Last(runs).report;
        assert Init(before + [r]) == before && Reports(runs)[|before|] == r;
        OneMoreReport(Init(runs), r.checks, name);
      }
    }
  }

  /** What one report's changes add for `name`, also when the report only sets the baseline. */
  lemma SentByDetect(s: Scheduler.State, checks: seq<CheckResult>, name: string)
    requires DistinctNames(checks)
    ensures var added, prev := StatusesIn(checks, name), s.prevStatuses;
            && |added| <= 1
            && SentFor(s.sent + Scheduler.Detect(prev, checks), name)
               == SentFor(s.sent, name)
                  + if added != [] && name in prev && prev[name] != added[0] && prev[name] != Scheduler.NEW
                    then 1 else 0
  {
    DeltasFor(s.prevStatuses, checks, name);
    SentForConcat(s.sent, Scheduler.Detect(s.prevStatuses, checks), name);
    NothingSentFor(name);
    hide Scheduler.Deltas, StatusesIn, SentFor;
  }

  lemma OneMoreReport(runs: seq<Run>, checks: seq<CheckResult>, name: string)
    requires DistinctNames(checks)
    ensures var s, seen := Scheduler.AfterRuns(runs), Statuses(Reports(runs), name);
            var seen' := seen + StatusesIn(checks, name);
            var sent' := s.sent + Scheduler.Detect(s.prevStatuses, checks);
            Switches(seen') - Switches(seen)
            == SentFor(sent', name) - SentFor(s.sent, name)
               + SwitchesFrom(seen', Scheduler.NEW) - SwitchesFrom(seen, Scheduler.NEW)
  {
    hide Switches, SwitchesFrom, Statuses, StatusesIn, Scheduler.AfterRuns, Scheduler.Detect, Reports, SentFor;
    var s, seen, added := Scheduler.AfterRuns(runs), Statuses(Reports(runs), name), StatusesIn(checks, name);
    Scheduler.KeptIsLatest(runs, name);
    SentByDetect(s, checks, name);
    if added == [] {
      assert seen + added == seen;
    } else {
      assert added == [added[0]];
      SwitchesOneMore(seen, added[0], Scheduler.NEW);
    }
  }

  /** Entry `i` is a change away from a status that is literally `from`. */
  predicate LeavesAt(statuses: seq<string>, from: string, i: int) {
    0 < i < |statuses| && statuses[i] != statuses[i - 1] && statuses[i - 1] == from
  }

  /** The two counts agree exactly when the check never leaves a status called "new". */
  lemma BatchEqualsIncrementalIff(runs: seq<Run>, ts: seq<CheckTimeline>, t: CheckTimeline)
    requires DistinctInReports(Reports(runs)) && IsTimelineOf(ts, Reports(runs)) && t in ts
    ensures t.changes == SentFor(Scheduler.AfterRuns(runs).sent, t.checkName)
            <==> forall i :: !LeavesAt(StatusesOf(t.points), Scheduler.NEW, i)
  {
    hide Switches, SwitchesFrom, Statuses, Scheduler.AfterRuns, SentFor;
    BatchIsIncremental(runs, t.checkName);
    PointsStatuses(Reports(runs), t.checkName);
    NoSwitchFrom(StatusesOf(t.points), Scheduler.NEW);
  }

  lemma {:induction false} NoSwitchFrom(statuses: seq<string>, from: string)
    ensures SwitchesFrom(statuses, from) == 0 <==> forall i :: !LeavesAt(statuses, from, i)
  {
    if |statuses| >= 2 {
      NoSwitchFrom(Init(statuses), from);
      var n := |statuses| - 1;
      assert forall i :: i != n ==> LeavesAt(statuses, from, i) == LeavesAt(Init(statuses), from, i);
      assert !LeavesAt(Init(statuses), from, n);
      assert SwitchesFrom(statuses, from)
             == SwitchesFrom(Init(statuses), from) + if LeavesAt(statuses, from, n) then 1 else 0;
    }
  }

  /** A check that reports the status "new" and then another one tells the two counts apart. */
  lemma StatusNewIsMiscounted(name: string)
    ensures var a := Report("1", [CheckResult(name, "new", "", 0.0)]);
            var b := Report("2", [CheckResult(name, "ok", "", 0.0)]);
            var runs := [Completed(a), Completed(b)];
            && Switches(Statuses(Reports(runs), name)) == 1
            && SentFor(Scheduler.AfterRuns(runs).sent, name) == 0
  {
    var x, y := CheckResult(name, "new", "", 0.0), CheckResult(name, "ok", "", 0.0);
    var a, b := Report("1", [x]), Report("2", [y]);
    var runs := [Completed(a), Completed(b)];
    assert Init(runs) == [Completed(a)] && Init([Completed(a)]) == [];
    assert Init([a, b]) == [a] && Init([a]) == [] && Init([x]) == [] && Init([y]) == [];
    assert Reports([Completed(a)]) == [a] && Reports(runs) == [a, b];
    assert StatusesIn([], name) == [] && Statuses([], name) == [];
    assert StatusesIn([x], name) == ["new"] && StatusesIn([y], name) == ["ok"];
    assert Statuses([a], name) == ["new"];
    assert Statuses([a, b], name) == ["new"] + ["ok"];
    SwitchesOneMore(["new"], "ok", "new");
    assert ["new"] + ["ok"] == ["new", "ok"];
    assert DistinctNames([x]) && DistinctNames([y]);
    BatchIsIncremental(runs, name);
  }

  // ----- The dashboard's own history -----

  const HISTORY_CAP := 100

  datatype RunSummary = RunSummary(runAt: string, totalChecks: int, passed: int, warnings: int, failed: int)

  /** The most recent `HISTORY_CAP` of all summaries ever loaded. */
  function Capped(all: seq<RunSummary>): seq<RunSummary> {
    if |all| > HISTORY_CAP then all[|all| - HISTORY_CAP..] else all
  }

  /** The newest summaries are kept, all of them up to the cap. */
  lemma CappedIsNewest(all: seq<RunSummary>)
    ensures var kept := Capped(all);
            && |kept| == (if |all| <= 100 then |all| else 100)
            && forall i :: 0 <= i < |kept| ==> kept[i] == all[|all| - |kept| + i]
  {
    if |all| > HISTORY_CAP {
      NewestAt(all, |all| - HISTORY_CAP);
    }
  }

  lemma NewestAt(all: seq<RunSummary>, n: nat)
    requires n <= |all|
    ensures |all[n..]| == |all| - n && forall i :: 0 <= i < |all| - n ==> all[n..][i] == all[n + i]
  {
  }

  class DashboardState {
    var runHistory: seq<RunSummary>
    ghost var loaded: seq<RunSummary>

    ghost predicate Valid()
      reads this
    {
      runHistory == Capped(loaded)
    }

    constructor ()
      ensures Valid() && loaded == []
    {
      runHistory, loaded := [], [];
    }

    /** An unreadable report file leaves the state alone. */
    method LoadReport(summary: RunSummary, readable: bool) returns (ok: bool)
      requires Valid()
      modifies this
      ensures Valid() && ok == readable
      ensures loaded == if readable then old(loaded) + [summary] else old(loaded)
    {
      if !readable {
        return false;
      }
      runHistory := runHistory + [summary];
      if |runHistory| > HISTORY_CAP {
        runHistory := runHistory[|runHistory| - HISTORY_CAP..];
      }
      loaded := loaded + [summary];
      return true;
    }
  }
}
