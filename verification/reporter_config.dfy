/**
 * `ReporterConfig` (Meowwright/utils/reporting/reporter-config.ts): the reporter options,
 * their defaults, and the merge of a partial configuration over the defaults.
 */
module ReporterConfig {
  import opened Wrappers
  import opened Text
  import DateUtils

  datatype Config = Config(
    outputDir: string,
    includeScreenshots: bool,
    includeVideos: bool,
    includeTestSteps: bool,
    includeConsoleLogs: bool,
    includeNetworkData: bool,
    html: bool,
    json: bool,
    junit: bool,
    allure: bool,
    reportName: string)

  /** `Partial<ReporterConfig>`: `None` is a field the caller did not give. */
  datatype Partial = Partial(
    outputDir: Option<string>,
    includeScreenshots: Option<bool>,
    includeVideos: Option<bool>,
    includeTestSteps: Option<bool>,
    includeConsoleLogs: Option<bool>,
    includeNetworkData: Option<bool>,
    html: Option<bool>,
    json: Option<bool>,
    junit: Option<bool>,
    allure: Option<bool>,
    reportName: Option<string>)

  /** The empty partial configuration `{}`. */
  const NoOverrides: Partial := Partial(None, None, None, None, None, None, None, None, None, None, None)

  /** A path segment that POSIX path normalisation keeps: not empty, not `.`, not `..`. */
  predicate NormalSegment(seg: string)
  {
    seg != "" && seg != "." && seg != ".."
  }

  /**
   * An absolute POSIX path in normal form, as `process.cwd()` returns it: the root, or a
   * slash followed by normal segments separated by single slashes.
   */
  predicate NormalAbsolute(p: string)
  {
    |p| > 0 && p[0] == '/' &&
    (p == "/" || forall seg :: seg in Split(p[1..], '/') ==> NormalSegment(seg))
  }

  /** The segments of a path in normal form; the root has none. */
  function Segments(p: string): seq<string>
    requires NormalAbsolute(p)
  {
    if p == "/" then [] else Split(p[1..], '/')
  }

  /**
   * `path.join(dir, name)` for a normal absolute `dir` and one normal segment `name`: the
   * result is in normal form and has `name` as one more segment. The root directory
   * contributes no slash of its own, so joining onto "/" gives "/name".
   */
  function JoinPath(dir: string, name: string): (r: string)
    requires NormalAbsolute(dir) && NormalSegment(name) && '/' !in name
    ensures NormalAbsolute(r)
    ensures Segments(r) == Segments(dir) + [name]
  {
    if dir == "/" then
      var r := "/" + name;
      assert r[1..] == name;
      SplitNoSep(name, '/');
      r
    else
      var r := dir + "/" + name;
      assert r[1..] == dir[1..] + ['/'] + name;
      SplitSnoc(dir[1..], '/', name);
      r
  }

  const ReportDirName := "playwright-report"

  lemma ReportDirNameNormal()
    ensures NormalSegment(ReportDirName) && '/' !in ReportDirName
  {
    assert forall i :: 0 <= i < |ReportDirName| ==> ReportDirName[i] != '/';
  }

  /**
   * `defaultReporterConfig`, evaluated once when the module loads: `cwd` is
   * `process.cwd()`, an absolute path in normal form, and `now` the clock reading that
   * names the report.
   */
  function DefaultReporterConfig(cwd: string, now: DateUtils.Date): (c: Config)
    requires NormalAbsolute(cwd)
    ensures c.html && !c.json && !c.junit && !c.allure && !c.includeNetworkData
    ensures c.includeScreenshots && c.includeVideos && c.includeTestSteps && c.includeConsoleLogs
    ensures StartsWith(c.reportName, "Test Report - ")
    ensures NormalAbsolute(c.outputDir) && Segments(c.outputDir) == Segments(cwd) + [ReportDirName]
  {
    var name := "Test Report - " + DateUtils.FormatDate(Some(now), "YYYY-MM-DD HH:mm");
    assert name[..14] == "Test Report - ";
    ReportDirNameNormal();
    Config(JoinPath(cwd, ReportDirName), true, true, true, true, false, true, false, false, false, name)
  }

  /** A complete configuration seen as a partial one that sets every field. */
  function Full(c: Config): (p: Partial)
  {
    Partial(Some(c.outputDir), Some(c.includeScreenshots), Some(c.includeVideos),
            Some(c.includeTestSteps), Some(c.includeConsoleLogs), Some(c.includeNetworkData),
            Some(c.html), Some(c.json), Some(c.junit), Some(c.allure), Some(c.reportName))
  }

  /**
   * `getReporterConfig(config)`: `{...defaults, ...config}`. Every field the partial
   * configuration gives wins; every other field keeps its default.
   */
  function GetReporterConfig(config: Option<Partial>, defaults: Config): (r: Config)
    ensures config.None? ==> r == defaults
    ensures config.Some? ==>
      && r.outputDir == config.value.outputDir.GetOr(defaults.outputDir)
      && r.includeScreenshots == config.value.includeScreenshots.GetOr(defaults.includeScreenshots)
      && r.includeVideos == config.value.includeVideos.GetOr(defaults.includeVideos)
      && r.includeTestSteps == config.value.includeTestSteps.GetOr(defaults.includeTestSteps)
      && r.includeConsoleLogs == config.value.includeConsoleLogs.GetOr(defaults.includeConsoleLogs)
      && r.includeNetworkData == config.value.includeNetworkData.GetOr(defaults.includeNetworkData)
      && r.html == config.value.html.GetOr(defaults.html)
      && r.json == config.value.json.GetOr(defaults.json)
      && r.junit == config.value.junit.GetOr(defaults.junit)
      && r.allure == config.value.allure.GetOr(defaults.allure)
      && r.reportName == config.value.reportName.GetOr(defaults.reportName)
  {
    match config
    case None => defaults
    case Some(p) =>
      Config(
        p.outputDir.GetOr(defaults.outputDir),
        p.includeScreenshots.GetOr(defaults.includeScreenshots),
        p.includeVideos.GetOr(defaults.includeVideos),
        p.includeTestSteps.GetOr(defaults.includeTestSteps),
        p.includeConsoleLogs.GetOr(defaults.includeConsoleLogs),
        p.includeNetworkData.GetOr(defaults.includeNetworkData),
        p.html.GetOr(defaults.html),
        p.json.GetOr(defaults.json),
        p.junit.GetOr(defaults.junit),
        p.allure.GetOr(defaults.allure),
        p.reportName.GetOr(defaults.reportName))
  }

  /** Merging `{}` gives the defaults, as no argument does. */
  lemma EmptyOverridesDefaults(defaults: Config)
    ensures GetReporterConfig(Some(NoOverrides), defaults) == defaults
  {
  }

  /** A complete configuration passed back in is returned as it is: the merge is idempotent. */
  lemma GetReporterConfigIdempotent(config: Option<Partial>, defaults: Config)
    ensures var c := GetReporterConfig(config, defaults);
            GetReporterConfig(Some(Full(c)), defaults) == c
  {
  }
}
