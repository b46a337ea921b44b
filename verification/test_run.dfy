/**
 * The run bookkeeping shared, line for line, by `EnhancedHtmlReporter` and
 * `CustomReporter` (Meowwright/utils/reporting/enhanced-html-reporter.ts and
 * custom-reporter.ts): the per-test records kept by `onTestBegin`, `onStepBegin` and
 * `onTestEnd`, the summary counters, and the per-test error lists. A run is the fold of
 * its event history, and each counter is proved equal to a count over that history.
 */
module TestRun {
  import opened Wrappers

  /** Playwright's `TestStatus`. */
  datatype Status = Passed | Failed | TimedOut | Skipped | Interrupted

  function StatusName(s: Status): (r: string)
    ensures r != ""
  {
    match s
    case Passed => "passed"
    case Failed => "failed"
    case TimedOut => "timedOut"
    case Skipped => "skipped"
    case Interrupted => "interrupted"
  }

  datatype TestError = TestError(message: string, stack: Option<string>)

  datatype TestResult = TestResult(status: Status, retry: nat, duration: nat, error: Option<TestError>)

  /** The record kept per test: its title, the result once it ended, and its steps. */
  datatype TestInfo = TestInfo(title: string, result: Option<TestResult>, steps: seq<string>)

  /** One entry of the `testCases` map, which keeps insertion order. */
  datatype Entry = Entry(id: string, info: TestInfo)

  datatype Summary = Summary(total: nat, passed: nat, failed: nat, skipped: nat, flaky: nat)

  datatype Run = Run(
    includeTestSteps: bool,
    summary: Summary,
    tests: seq<Entry>,
    errors: map<string, seq<TestError>>)

  /** The state the constructor leaves: zero counters, no tests, no errors. */
  function Start(includeTestSteps: bool): (r: Run)
    ensures r.summary.total == 0 && r.tests == [] && r.errors == map[]
  {
    Run(includeTestSteps, Summary(0, 0, 0, 0, 0), [], map[])
  }

  function Ids(tests: seq<Entry>): seq<string>
  {
    seq(|tests|, i requires 0 <= i < |tests| => tests[i].id)
  }

  /** `testCases.get(id)`. */
  function Find(tests: seq<Entry>, id: string): (r: Option<TestInfo>)
    ensures r.None? <==> id !in Ids(tests)
    ensures r.Some? ==> Entry(id, r.value) in tests
  {
    if |tests| == 0 then None
    else if tests[0].id == id then assert Ids(tests)[0] == id; Some(tests[0].info)
    else
      assert Ids(tests) == [tests[0].id] + Ids(tests[1..]);
      Find(tests[1..], id)
  }

  lemma IdsCons(e: Entry, rest: seq<Entry>)
    ensures Ids([e] + rest) == [e.id] + Ids(rest)
  {
    assert ([e] + rest)[1..] == rest;
  }

  /** Looking up in a list that starts with `e`. */
  lemma FindCons(e: Entry, rest: seq<Entry>)
    ensures forall j :: Find([e] + rest, j) == if e.id == j then Some(e.info) else Find(rest, j)
  {
    assert ([e] + rest)[0] == e;
    assert ([e] + rest)[1..] == rest;
  }

  /** `testCases.set(id, info)`: an existing id keeps its place, a new one goes last. */
  function SetInfo(tests: seq<Entry>, id: string, info: TestInfo): (r: seq<Entry>)
    ensures Find(r, id) == Some(info)
    ensures forall j :: j != id ==> Find(r, j) == Find(tests, j)
    ensures id in Ids(tests) ==> Ids(r) == Ids(tests)
    ensures id !in Ids(tests) ==> r == tests + [Entry(id, info)]
  {
    if |tests| == 0 then
      FindCons(Entry(id, info), []);
      [Entry(id, info)]
    else
      var head := tests[0];
      assert tests == [head] + tests[1..];
      FindCons(head, tests[1..]);
      IdsCons(head, tests[1..]);
      if head.id == id then
        FindCons(Entry(id, info), tests[1..]);
        IdsCons(Entry(id, info), tests[1..]);
        [Entry(id, info)] + tests[1..]
      else
        var rest := SetInfo(tests[1..], id, info);
        FindCons(head, rest);
        IdsCons(head, rest);
        assert id !in Ids(tests) ==> [head] + rest == tests + [Entry(id, info)];
        [head] + rest
  }

  /** `errors.get(id) || []`. */
  function ErrorsOf(run: Run, id: string): seq<TestError>
  {
    if id in run.errors then run.errors[id] else []
  }

  /** The summary invariants: every counted outcome is counted in `total`, and a flaky test passed. */
  predicate Consistent(s: Summary)
  {
    s.passed + s.failed + s.skipped <= s.total && s.flaky <= s.passed
  }

  predicate IsPassed(r: TestResult) { r.status == Passed }
  predicate IsFailed(r: TestResult) { r.status == Failed || r.status == TimedOut }
  predicate IsSkipped(r: TestResult) { r.status == Skipped }
  predicate IsFlaky(r: TestResult) { r.retry > 0 && r.status == Passed }
  /** Only a failure that carries an error is recorded; a time-out is not. */
  predicate Records(r: TestResult) { r.status == Failed && r.error.Some? }

  /** The counter updates of `onTestEnd`. */
  function Tally(s: Summary, r: TestResult): (t: Summary)
    ensures t.total == s.total + 1
    ensures Consistent(s) ==> Consistent(t)
  {
    Summary(
      s.total + 1,
      s.passed + (if r.status == Passed then 1 else 0),
      s.failed + (if r.status == Failed then 1 else 0) + (if r.status == TimedOut then 1 else 0),
      s.skipped + (if r.status == Skipped then 1 else 0),
      s.flaky + (if r.retry > 0 && r.status == Passed then 1 else 0))
  }

  /** `onTestBegin(test)`: a fresh record with no result and no steps. */
  function OnTestBegin(run: Run, id: string, title: string): (r: Run)
    ensures Find(r.tests, id) == Some(TestInfo(title, None, []))
    ensures forall j :: j != id ==> Find(r.tests, j) == Find(run.tests, j)
    ensures r.summary == run.summary && r.errors == run.errors
  {
    run.(tests := SetInfo(run.tests, id, TestInfo(title, None, [])))
  }

  /** `onStepBegin(test, result, step)`: recorded only with `includeTestSteps` and a begun test. */
  function OnStepBegin(run: Run, id: string, step: string): (r: Run)
    ensures !run.includeTestSteps || id !in Ids(run.tests) ==> r == run
    ensures run.includeTestSteps && id in Ids(run.tests) ==>
      Find(r.tests, id) == Some(Find(run.tests, id).value.(steps := Find(run.tests, id).value.steps + [step]))
    ensures forall j :: j != id ==> Find(r.tests, j) == Find(run.tests, j)
    ensures r.summary == run.summary && r.errors == run.errors
  {
    if run.includeTestSteps then
      match Find(run.tests, id)
      case None => run
      case Some(info) => run.(tests := SetInfo(run.tests, id, info.(steps := info.steps + [step])))
    else run
  }

  /**
   * `onTestEnd(test, result)`: the result is stored on a begun test, the counters are
   * updated whether or not the test was begun, and a failure's error is appended to the
   * test's error list.
   */
  function OnTestEnd(run: Run, id: string, result: TestResult): (r: Run)
    ensures r.summary.total == run.summary.total + 1
    ensures Consistent(run.summary) ==> Consistent(r.summary)
    ensures id in Ids(run.tests) ==> Find(r.tests, id) == Some(Find(run.tests, id).value.(result := Some(result)))
    ensures id !in Ids(run.tests) ==> r.tests == run.tests
    ensures forall j :: j != id ==> Find(r.tests, j) == Find(run.tests, j)
    ensures ErrorsOf(r, id) == ErrorsOf(run, id) + (if Records(result) then [result.error.value] else [])
    ensures forall j :: j != id ==> ErrorsOf(r, j) == ErrorsOf(run, j)
  {
    var tests :=
      match Find(run.tests, id)
      case None => run.tests
      case Some(info) => SetInfo(run.tests, id, info.(result := Some(result)));
    var errors :=
      if result.status == Failed && result.error.Some? then
        run.errors[id := ErrorsOf(run, id) + [result.error.value]]
      else run.errors;
    Run(run.includeTestSteps, Tally(run.summary, result), tests, errors)
  }

  /** The reporter callbacks, as events. */
  datatype Event =
    | TestBegin(id: string, title: string)
    | StepBegin(id: string, step: string)
    | TestEnd(id: string, result: TestResult)

  function Apply(run: Run, e: Event): Run
  {
    match e
    case TestBegin(id, title) => OnTestBegin(run, id, title)
    case StepBegin(id, step) => OnStepBegin(run, id, step)
    case TestEnd(id, result) => OnTestEnd(run, id, result)
  }

  /** The state after a history of callbacks, oldest first. */
  function Replay(run: Run, events: seq<Event>): Run
    decreases |events|
  {
    if |events| == 0 then run else Apply(Replay(run, events[..|events| - 1]), events[|events| - 1])
  }

  /** The number of ended tests whose result satisfies `p`. */
  function CountEnds(events: seq<Event>, p: TestResult -> bool): (n: nat)
    ensures n <= |events|
    decreases |events|
  {
    if |events| == 0 then 0
    else
      var e := events[|events| - 1];
      CountEnds(events[..|events| - 1], p) + (if e.TestEnd? && p(e.result) then 1 else 0)
  }

  /** The errors of recorded failures of test `id`, oldest first. */
  function FailureErrors(events: seq<Event>, id: string): seq<TestError>
    decreases |events|
  {
    if |events| == 0 then []
    else
      var e := events[|events| - 1];
      FailureErrors(events[..|events| - 1], id)
        + (if e.TestEnd? && e.id == id && Records(e.result) then [e.result.error.value] else [])
  }

  /**
   * Every counter equals the number of `onTestEnd` calls of its kind: `total` all of
   * them, `failed` failures and time-outs, `flaky` passes on a retry.
   */
  lemma {:induction false} ReplayCounts(includeTestSteps: bool, events: seq<Event>)
    ensures var s := Replay(Start(includeTestSteps), events).summary;
      && s.total == CountEnds(events, _ => true)
      && s.passed == CountEnds(events, IsPassed)
      && s.failed == CountEnds(events, IsFailed)
      && s.skipped == CountEnds(events, IsSkipped)
      && s.flaky == CountEnds(events, IsFlaky)
    decreases |events|
  {
    if |events| > 0 {
      ReplayCounts(includeTestSteps, events[..|events| - 1]);
    }
  }

  /** The summary invariants hold after any history. */
  lemma {:induction false} ReplayConsistent(includeTestSteps: bool, events: seq<Event>)
    ensures Consistent(Replay(Start(includeTestSteps), events).summary)
    decreases |events|
  {
    if |events| > 0 {
      ReplayConsistent(includeTestSteps, events[..|events| - 1]);
    }
  }

  /** A test's error list holds exactly the errors of its failures, in order; time-outs add none. */
  lemma {:induction false} ReplayErrors(includeTestSteps: bool, events: seq<Event>, id: string)
    ensures ErrorsOf(Replay(Start(includeTestSteps), events), id) == FailureErrors(events, id)
    decreases |events|
  {
    if |events| > 0 {
      ReplayErrors(includeTestSteps, events[..|events| - 1], id);
    }
  }

  /** Every recorded test has an empty step list. */
  ghost predicate NoSteps(run: Run)
  {
    forall j :: Find(run.tests, j).Some? ==> Find(run.tests, j).value.steps == []
  }

  lemma {:induction false} ReplayKeepsFlag(includeTestSteps: bool, events: seq<Event>)
    ensures Replay(Start(includeTestSteps), events).includeTestSteps == includeTestSteps
    decreases |events|
  {
    if |events| > 0 {
      ReplayKeepsFlag(includeTestSteps, events[..|events| - 1]);
    }
  }

  /** With `includeTestSteps` off, no test ever records a step. */
  lemma {:induction false} ReplayNoSteps(events: seq<Event>)
    ensures NoSteps(Replay(Start(false), events))
    decreases |events|
  {
    if |events| > 0 {
      var before := Replay(Start(false), events[..|events| - 1]);
      ReplayNoSteps(events[..|events| - 1]);
      ReplayKeepsFlag(false, events[..|events| - 1]);
      var e := events[|events| - 1];
      var after := Apply(before, e);
      forall j | Find(after.tests, j).Some?
        ensures Find(after.tests, j).value.steps == []
      {
        if j != e.id {
          assert Find(after.tests, j) == Find(before.tests, j);
        }
      }
    }
  }
}
