/**
 * `getAllReporters` (Meowwright/utils/reporting/index.ts): the reporter list built from
 * the merged configuration.
 */
module Reporters {
  import opened Wrappers
  import opened ReporterConfig
  import DateUtils

  /** The entries the list may hold. */
  datatype Reporter =
    | BuiltinHtml(outputFolder: string)
    | Custom(config: Config)
    | EnhancedHtml(config: Config)
    | JUnit(outputFile: string)
    | Allure

  function Count(b: bool): nat { if b then 1 else 0 }

  /** `getAllReporters(options)`. */
  function GetAllReporters(options: Option<Partial>, defaults: Config): (r: seq<Reporter>)
    ensures var c := GetReporterConfig(options, defaults);
      && |r| == 2 + Count(c.html) + Count(c.junit) + Count(c.allure)
      && (r[0].BuiltinHtml? <==> c.html)
      && (c.html ==> r[0] == BuiltinHtml(c.outputDir))
      && r[Count(c.html)] == Custom(c) && r[Count(c.html) + 1] == EnhancedHtml(c)
      && (JUnit(c.outputDir + "/junit-results.xml") in r <==> c.junit)
      && (r[|r| - 1] == Allure <==> c.allure)
  {
    var c := GetReporterConfig(options, defaults);
    var html := if c.html then [BuiltinHtml(c.outputDir)] else [];
    var junit := if c.junit then [JUnit(c.outputDir + "/junit-results.xml")] else [];
    var allure := if c.allure then [Allure] else [];
    html + [Custom(c), EnhancedHtml(c)] + junit + allure
  }

  /** With no options the list is the built-in HTML reporter, then the two custom ones. */
  lemma DefaultReporters(cwd: string, now: DateUtils.Date)
    requires NormalAbsolute(cwd)
    ensures var d := DefaultReporterConfig(cwd, now);
      GetAllReporters(None, d) == [BuiltinHtml(d.outputDir), Custom(d), EnhancedHtml(d)]
  {
    HtmlOnlyReporters(DefaultReporterConfig(cwd, now));
  }

  /** A configuration that enables only the HTML reporter yields the three-entry list. */
  lemma HtmlOnlyReporters(d: Config)
    requires d.html && !d.junit && !d.allure
    ensures GetAllReporters(None, d) == [BuiltinHtml(d.outputDir), Custom(d), EnhancedHtml(d)]
  {
    assert GetReporterConfig(None, d) == d;
  }
}
