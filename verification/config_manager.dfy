/**
 * `ConfigManager` (config/config-manager.ts): a singleton that loads environment and
 * browser configuration once, memoises test-data files, and answers getters with defaults.
 * The file system is a map from relative path to the parsed JSON value (a path that is
 * missing, unreadable or not JSON is absent), and `process.env` is a map of variables.
 */
module ConfigManager {
  import opened Wrappers
  import opened Json

  type Files = map<string, Value>

  datatype Manager = Manager(
    environment: string,
    browser: string,
    environmentConfig: Value,
    browserConfig: Value,
    testData: map<string, Value>)

  function EnvironmentPath(environment: string): string
  {
    "environments/" + environment + "/config.json"
  }

  function BrowserPath(browser: string): string
  {
    "browsers/" + browser + ".json"
  }

  function TestDataPath(dataType: string): string
  {
    "test-data/" + dataType + ".json"
  }

  /** `JSON.parse(fs.readFileSync(path))` inside a try whose catch stores `{}`. */
  function LoadOrEmpty(fs: Files, path: string): (r: Value)
    ensures path in fs ==> r == fs[path]
    ensures path !in fs ==> r == Obj([])
  {
    if path in fs then fs[path] else Obj([])
  }

  /** `a || b` on optional strings, where the empty string is falsy. */
  function OrString(a: Option<string>, b: string): (r: string)
    ensures a.Some? && a.value != "" ==> r == a.value
    ensures (a.None? || a.value == "") ==> r == b
  {
    if a.Some? && a.value != "" then a.value else b
  }

  function EnvVar(vars: map<string, string>, name: string): Option<string>
  {
    if name in vars then Some(vars[name]) else None
  }

  /** The private constructor: both configurations are read once, here. */
  function NewManager(environment: string, browser: string, fs: Files): (m: Manager)
    ensures m.environment == environment && m.browser == browser
    ensures m.environmentConfig == LoadOrEmpty(fs, EnvironmentPath(environment))
    ensures m.browserConfig == LoadOrEmpty(fs, BrowserPath(browser))
    ensures m.testData == map[]
  {
    Manager(environment, browser, LoadOrEmpty(fs, EnvironmentPath(environment)),
            LoadOrEmpty(fs, BrowserPath(browser)), map[])
  }

  /**
   * `getInstance(environment?, browser?)`: the first call creates the instance from the
   * arguments, else `TEST_ENV`/`BROWSER`, else 'dev'/'chromium'; every later call returns
   * that instance and ignores its arguments. `instance` is the static field before the call;
   * the result is its value after.
   */
  function GetInstance(instance: Option<Manager>, environment: Option<string>, browser: Option<string>,
                       vars: map<string, string>, fs: Files): (m: Manager)
    ensures instance.Some? ==> m == instance.value
    ensures instance.None? ==>
      && m.environment == OrString(environment, OrString(EnvVar(vars, "TEST_ENV"), "dev"))
      && m.browser == OrString(browser, OrString(EnvVar(vars, "BROWSER"), "chromium"))
      && m.testData == map[]
  {
    match instance
    case Some(existing) => existing
    case None =>
      NewManager(OrString(environment, OrString(EnvVar(vars, "TEST_ENV"), "dev")),
                 OrString(browser, OrString(EnvVar(vars, "BROWSER"), "chromium")), fs)
  }

  /** The singleton: once created, every later `getInstance` call yields the first instance. */
  lemma SingletonFirstCallWins(e1: Option<string>, b1: Option<string>, vars1: map<string, string>, fs1: Files,
                               e2: Option<string>, b2: Option<string>, vars2: map<string, string>, fs2: Files)
    ensures var first := GetInstance(None, e1, b1, vars1, fs1);
      GetInstance(Some(first), e2, b2, vars2, fs2) == first
  {
  }

  /** Without arguments or variables the instance is for 'dev' on 'chromium'. */
  lemma DefaultInstance(fs: Files)
    ensures var m := GetInstance(None, None, None, map[], fs);
      m.environment == "dev" && m.browser == "chromium"
      && m.environmentConfig == LoadOrEmpty(fs, "environments/dev/config.json")
  {
    assert EnvironmentPath("dev") == "environments/dev/config.json";
  }

  /** What `loadTestData` returns together with the manager's state after it. */
  datatype Loaded = Loaded(manager: Manager, data: Value)

  /**
   * `loadTestData(dataType)`: a cached value is returned without reading; a successful
   * read is cached; a failed one returns `{}` and leaves the cache as it was.
   */
  function LoadTestData(m: Manager, dataType: string, fs: Files): (r: Loaded)
    ensures r.manager.environment == m.environment && r.manager.browser == m.browser
    ensures r.manager.environmentConfig == m.environmentConfig && r.manager.browserConfig == m.browserConfig
    ensures dataType in m.testData ==> r == Loaded(m, m.testData[dataType])
    ensures dataType !in m.testData && TestDataPath(dataType) in fs ==>
      r.data == fs[TestDataPath(dataType)] && r.manager.testData == m.testData[dataType := r.data]
    ensures dataType !in m.testData && TestDataPath(dataType) !in fs ==> r == Loaded(m, Obj([]))
    ensures dataType in r.manager.testData ==> r.manager.testData[dataType] == r.data
  {
    if dataType in m.testData then Loaded(m, m.testData[dataType])
    else if TestDataPath(dataType) in fs then
      var data := fs[TestDataPath(dataType)];
      Loaded(m.(testData := m.testData[dataType := data]), data)
    else Loaded(m, Obj([]))
  }

  /** After a successful load, later loads return the same data whatever the files now hold. */
  lemma LoadTestDataCached(m: Manager, dataType: string, fs: Files, later: Files)
    requires TestDataPath(dataType) in fs || dataType in m.testData
    ensures var first := LoadTestData(m, dataType, fs);
      LoadTestData(first.manager, dataType, later) == first
  {
  }

  /** A failed load is not remembered: once the file appears, the next load reads it. */
  lemma LoadTestDataRetriesFailure(m: Manager, dataType: string, fs: Files, later: Files)
    requires dataType !in m.testData && TestDataPath(dataType) !in fs && TestDataPath(dataType) in later
    ensures var first := LoadTestData(m, dataType, fs);
      first.data == Obj([]) && LoadTestData(first.manager, dataType, later).data == later[TestDataPath(dataType)]
  {
  }

  /**
   * `getTestData(dataType, key?)`: `data[key]` when `key` is a non-empty string and that
   * property is truthy, else the whole data. Reading a key of a `null` document throws.
   */
  function GetTestData(m: Manager, dataType: string, key: Option<string>, fs: Files): (r: (Manager, Outcome<Value>))
    ensures r.0 == LoadTestData(m, dataType, fs).manager
    ensures var data := LoadTestData(m, dataType, fs).data;
      && (r.1.Throws? <==> key.Some? && key.value != "" && data.Null?)
      && ((r.1.Ok? && key.Some? && key.value != "" && Get(data, key.value).Some? && Truthy(Get(data, key.value).value))
          ==> r.1.value == Get(data, key.value).value)
      && (r.1.Ok? && r.1.value != data ==> key.Some? && Get(data, key.value) == Some(r.1.value) && Truthy(r.1.value))
  {
    var loaded := LoadTestData(m, dataType, fs);
    var data := loaded.data;
    if key.Some? && key.value != "" then
      if data.Null? then (loaded.manager, Throws)
      else
        match Get(data, key.value)
        case Some(v) => if Truthy(v) then (loaded.manager, Ok(v)) else (loaded.manager, Ok(data))
        case None => (loaded.manager, Ok(data))
    else (loaded.manager, Ok(data))
  }

  /** `x || fallback` on an optional property read. */
  function OrValue(x: Option<Value>, fallback: Value): (r: Value)
    ensures x.Some? && Truthy(x.value) ==> r == x.value
    ensures !(x.Some? && Truthy(x.value)) ==> r == fallback
  {
    if x.Some? && Truthy(x.value) then x.value else fallback
  }

  const DefaultTimeouts: Value :=
    Obj([Prop("default", Int(30000)), Prop("navigation", Int(60000)), Prop("element", Int(10000))])

  /** `environmentConfig?.baseUrl || ''`. */
  function BaseUrl(m: Manager): (r: Value)
    ensures Truthy(r) || r == Str("")
  {
    OrValue(Get(m.environmentConfig, "baseUrl"), Str(""))
  }

  /** `environmentConfig?.apiUrl || ''`. */
  function ApiUrl(m: Manager): (r: Value)
    ensures Truthy(r) || r == Str("")
  {
    OrValue(Get(m.environmentConfig, "apiUrl"), Str(""))
  }

  /** `environmentConfig?.credentials || {}`. */
  function Credentials(m: Manager): (r: Value)
    ensures Truthy(r)
  {
    OrValue(Get(m.environmentConfig, "credentials"), Obj([]))
  }

  /** `environmentConfig?.timeouts || {default: 30000, navigation: 60000, element: 10000}`. */
  function Timeouts(m: Manager): (r: Value)
    ensures Truthy(r)
  {
    OrValue(Get(m.environmentConfig, "timeouts"), DefaultTimeouts)
  }

  /** `environmentConfig?.retries || 0`. */
  function Retries(m: Manager): (r: Value)
    ensures Truthy(r) || r == Int(0)
  {
    OrValue(Get(m.environmentConfig, "retries"), Int(0))
  }

  /** `browserConfig || {}`. */
  function BrowserConfig(m: Manager): (r: Value)
    ensures Truthy(r)
  {
    OrValue(Some(m.browserConfig), Obj([]))
  }

  /** The environment configuration holds a truthy value under `key`. */
  predicate Configured(config: Value, key: string)
  {
    Get(config, key).Some? && Truthy(Get(config, key).value)
  }

  /**
   * For every configuration: a configured, truthy value is returned as it is, and a missing
   * or falsy one gives the getter's default.
   */
  lemma ConfiguredValuesWin(m: Manager)
    ensures var c := m.environmentConfig;
      && (Configured(c, "baseUrl") ==> BaseUrl(m) == Get(c, "baseUrl").value)
      && (!Configured(c, "baseUrl") ==> BaseUrl(m) == Str(""))
      && (Configured(c, "apiUrl") ==> ApiUrl(m) == Get(c, "apiUrl").value)
      && (!Configured(c, "apiUrl") ==> ApiUrl(m) == Str(""))
      && (Configured(c, "credentials") ==> Credentials(m) == Get(c, "credentials").value)
      && (!Configured(c, "credentials") ==> Credentials(m) == Obj([]))
      && (Configured(c, "timeouts") ==> Timeouts(m) == Get(c, "timeouts").value)
      && (!Configured(c, "timeouts") ==> Timeouts(m) == DefaultTimeouts)
      && (Configured(c, "retries") ==> Retries(m) == Get(c, "retries").value)
      && (!Configured(c, "retries") ==> Retries(m) == Int(0))
    ensures Truthy(m.browserConfig) ==> BrowserConfig(m) == m.browserConfig
    ensures !Truthy(m.browserConfig) ==> BrowserConfig(m) == Obj([])
  {
  }

  /** When the configuration files are missing every getter falls back to its default. */
  lemma FailedLoadDefaults(environment: string, browser: string, fs: Files)
    requires EnvironmentPath(environment) !in fs && BrowserPath(browser) !in fs
    ensures var m := NewManager(environment, browser, fs);
      && BaseUrl(m) == Str("") && ApiUrl(m) == Str("") && Retries(m) == Int(0)
      && Credentials(m) == Obj([]) && Timeouts(m) == DefaultTimeouts && BrowserConfig(m) == Obj([])
  {
  }

  /** `getFullConfig()`: environment and browser names with both loaded configurations. */
  function FullConfig(m: Manager): (r: Value)
    ensures r.Obj? && Keys(r.props) == ["environment", "browser", "environmentConfig", "browserConfig"]
  {
    Obj([Prop("environment", Str(m.environment)), Prop("browser", Str(m.browser)),
         Prop("environmentConfig", m.environmentConfig), Prop("browserConfig", m.browserConfig)])
  }

  /** `getFullConfig()` echoes `getEnvironment()` and `getBrowser()` and the loaded configurations. */
  lemma FullConfigEchoes(m: Manager)
    ensures Get(FullConfig(m), "environment") == Some(Str(m.environment))
    ensures Get(FullConfig(m), "browser") == Some(Str(m.browser))
    ensures Get(FullConfig(m), "environmentConfig") == Some(m.environmentConfig)
    ensures Get(FullConfig(m), "browserConfig") == Some(m.browserConfig)
  {
    var props := FullConfig(m).props;
    assert DistinctKeys(props);
    LookupAt(props, 0);
    LookupAt(props, 1);
    LookupAt(props, 2);
    LookupAt(props, 3);
  }
}
