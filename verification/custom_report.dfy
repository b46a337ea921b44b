/**
 * The JSON report of `CustomReporter` (Meowwright/utils/reporting/custom-reporter.ts):
 * written only when the `json` option is on, with one entry per begun test.
 */
module CustomReport {
  import opened Wrappers
  import TestRun
  import ReporterConfig

  /** One element of the report's `tests` array (location fields are left out). */
  datatype JsonEntry = JsonEntry(
    id: string, title: string, status: string, duration: nat, retry: nat,
    errors: seq<TestRun.TestError>)

  datatype JsonReport = JsonReport(summary: TestRun.Summary, tests: seq<JsonEntry>)

  /** The entry for one test; a test that never ended gets status 'unknown' and zeros. */
  function Entry(run: TestRun.Run, e: TestRun.Entry): (r: JsonEntry)
    ensures r.id == e.id && r.title == e.info.title
    ensures r.errors == TestRun.ErrorsOf(run, e.id)
    ensures e.info.result.None? ==> r.status == "unknown" && r.duration == 0 && r.retry == 0
    ensures e.info.result.Some? ==>
      && r.status == TestRun.StatusName(e.info.result.value.status)
      && r.duration == e.info.result.value.duration
      && r.retry == e.info.result.value.retry
  {
    match e.info.result
    case None => JsonEntry(e.id, e.info.title, "unknown", 0, 0, TestRun.ErrorsOf(run, e.id))
    case Some(res) =>
      JsonEntry(e.id, e.info.title, TestRun.StatusName(res.status), res.duration, res.retry,
                TestRun.ErrorsOf(run, e.id))
  }

  /**
   * `generateCustomReport()`: the report that `generateJsonReport` writes, or `None` when
   * `config.json` is off and nothing is written.
   */
  function GenerateCustomReport(config: ReporterConfig.Config, run: TestRun.Run): (r: Option<JsonReport>)
    ensures r.Some? <==> config.json
    ensures r.Some? ==> r.value.summary == run.summary && |r.value.tests| == |run.tests|
    ensures r.Some? ==> forall i :: 0 <= i < |run.tests| ==> r.value.tests[i] == Entry(run, run.tests[i])
  {
    if config.json then
      Some(JsonReport(run.summary, seq(|run.tests|, i requires 0 <= i < |run.tests| => Entry(run, run.tests[i]))))
    else None
  }

  /**
   * The written summary counts the callbacks: `total` every ended test, `failed` its
   * failures and time-outs, `flaky` passes on a retry, and no counter exceeds `total`.
   */
  lemma ReportSummary(config: ReporterConfig.Config, events: seq<TestRun.Event>)
    requires config.json
    ensures var run := TestRun.Replay(TestRun.Start(config.includeTestSteps), events);
      var s := GenerateCustomReport(config, run).value.summary;
      && s.total == TestRun.CountEnds(events, _ => true)
      && s.passed == TestRun.CountEnds(events, TestRun.IsPassed)
      && s.failed == TestRun.CountEnds(events, TestRun.IsFailed)
      && s.skipped == TestRun.CountEnds(events, TestRun.IsSkipped)
      && s.flaky == TestRun.CountEnds(events, TestRun.IsFlaky)
      && TestRun.Consistent(s)
  {
    TestRun.ReplayCounts(config.includeTestSteps, events);
    TestRun.ReplayConsistent(config.includeTestSteps, events);
  }
}
