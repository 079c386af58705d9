/** The parts of a monitor report that change tracking reads.  A run without checks has the empty list. */
module Monitoring {
  import opened Sequences

  datatype CheckResult = CheckResult(checkName: string, status: string, message: string, actual: real)

  datatype Report = Report(runAt: string, checks: seq<CheckResult>)

  /** Every scheduled run either fails or completes with a report. */
  datatype Run = Failed | Completed(report: Report)

  /** No check is reported twice in one report. */
  ghost predicate DistinctNames(checks: seq<CheckResult>) {
    forall i, j :: 0 <= i < j < |checks| ==> checks[i].checkName != checks[j].checkName
  }

  ghost predicate DistinctInReports(reports: seq<Report>) {
    forall i :: 0 <= i < |reports| ==> DistinctNames(reports[i].checks)
  }

  /** The reports that reach the history directory. */
  function Reports(runs: seq<Run>): seq<Report> {
    if runs == [] then []
    else
      var before := Reports(Init(runs));
      match Last(runs)
      case Failed => before
      case Completed(r) => before + [r]
  }

  /** The statuses reported under `name`, oldest first. */
  function StatusesIn(checks: seq<CheckResult>, name: string): seq<string> {
    if checks == [] then []
    else
      StatusesIn(Init(checks), name) + if Last(checks).checkName == name then [Last(checks).status] else []
  }

  function Statuses(reports: seq<Report>, name: string): seq<string> {
    if reports == [] then []
    else Statuses(Init(reports), name) + StatusesIn(Last(reports).checks, name)
  }

  /** How often consecutive statuses differ. */
  function Switches(statuses: seq<string>): nat {
    if |statuses| < 2 then 0
    else Switches(Init(statuses)) + if Last(statuses) != statuses[|statuses| - 2] then 1 else 0
  }

  /** How often a status that is literally `from` is left for another one. */
  function SwitchesFrom(statuses: seq<string>, from: string): nat {
    if |statuses| < 2 then 0
    else
      var prev := statuses[|statuses| - 2];
      SwitchesFrom(Init(statuses), from) + if Last(statuses) != prev && prev == from then 1 else 0
  }

  lemma {:induction false} AbsentMeansNoStatus(checks: seq<CheckResult>, name: string)
    requires forall i :: 0 <= i < |checks| ==> checks[i].checkName != name
    ensures StatusesIn(checks, name) == []
  {
    if checks != [] {
      AbsentMeansNoStatus(Init(checks), name);
    }
  }
}
