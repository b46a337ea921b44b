/**
 * The "change location to UK" routine of the Volvo Penta shop page object
 * (pages/volvopenta/shop.page.ts). The browser is an oracle: a `Snapshot` is what the page
 * answers when the location checks read it, and every read that can throw is an `Outcome`.
 */
module ShopPage {
  import opened Wrappers
  import opened Text

  const BaseUrl := "https://qa.ecom.volvopenta.com"
  const ShopPath := "/shop/523388"

  datatype Cookie = Cookie(name: string, value: string)

  /** What the page shows when a location check reads it. */
  datatype Snapshot = Snapshot(
    buttonText: Outcome<Option<string>>,       // textContent() of the location selector
    url: string,                               // page.url() cannot throw
    cookies: Outcome<seq<Cookie>>,             // context().cookies()
    storage: Outcome<map<string, string>>,     // localStorage items, read in page.evaluate
    visible: map<string, Outcome<bool>>,       // isVisible(selector); a missing selector is not visible
    title: Outcome<string>)                    // page.title()

  // ---------------------------------------------------------------------------------------
  // Case-insensitive matching, as the `i` flag does it for ASCII patterns
  // ---------------------------------------------------------------------------------------

  /** The lower-case ASCII pattern `p` occurs at `i` in `s`, ignoring case. */
  predicate IMatchAt(s: string, i: nat, p: string)
  {
    i + |p| <= |s| && Lower(s[i..i + |p|]) == p
  }

  predicate WordPairAt(s: string, k: nat)
  {
    k + 2 <= |s| && IsWordChar(s[k]) && IsWordChar(s[k + 1])
  }

  /** `/[?&](country|countryCode)=([\w]{2})/i` matched at position `i`: the two captured characters. */
  function UrlParamAt(url: string, i: nat): (r: Option<string>)
    ensures r.Some? ==> i < |url| && (url[i] == '?' || url[i] == '&')
    ensures r.Some? ==> |r.value| == 2 && IsWordChar(r.value[0]) && IsWordChar(r.value[1])
  {
    if i < |url| && (url[i] == '?' || url[i] == '&') then
      if IMatchAt(url, i + 1, "country=") && WordPairAt(url, i + 9) then Some(url[i + 9..i + 11])
      else if IMatchAt(url, i + 1, "countrycode=") && WordPairAt(url, i + 13) then Some(url[i + 13..i + 15])
      else None
    else None
  }

  /** No match starts in `[lo, hi)`. */
  predicate NoUrlParamIn(url: string, lo: nat, hi: nat)
  {
    forall j :: lo <= j < hi ==> UrlParamAt(url, j).None?
  }

  /** The leftmost match at or after `from`. */
  function UrlCountryFrom(url: string, from: nat): (r: Option<string>)
    ensures r.Some? ==> exists i :: from <= i < |url| && UrlParamAt(url, i) == r && NoUrlParamIn(url, from, i)
    ensures r.None? ==> NoUrlParamIn(url, from, |url|)
    decreases |url| - from
  {
    if from >= |url| then None
    else if UrlParamAt(url, from).Some? then
      assert NoUrlParamIn(url, from, from);
      UrlParamAt(url, from)
    else
      var r := UrlCountryFrom(url, from + 1);
      LeftmostExtend(url, from, r);
      r
  }

  /** A position without a match extends the leftmost-match facts one step to the left. */
  lemma LeftmostExtend(url: string, from: nat, r: Option<string>)
    requires from < |url| && UrlParamAt(url, from).None?
    requires r.Some? ==> exists i :: from + 1 <= i < |url| && UrlParamAt(url, i) == r && NoUrlParamIn(url, from + 1, i)
    requires r.None? ==> NoUrlParamIn(url, from + 1, |url|)
    ensures r.Some? ==> exists i :: from <= i < |url| && UrlParamAt(url, i) == r && NoUrlParamIn(url, from, i)
    ensures r.None? ==> NoUrlParamIn(url, from, |url|)
  {
    if r.Some? {
      var i :| from + 1 <= i < |url| && UrlParamAt(url, i) == r && NoUrlParamIn(url, from + 1, i);
      assert NoUrlParamIn(url, from, i);
    }
  }

  /** Positions holding neither `?` nor `&` cannot start a match, so the search passes them by. */
  lemma {:induction false} UrlCountrySkip(url: string, from: nat, to: nat)
    requires from <= to <= |url|
    requires forall p :: from <= p < to ==> url[p] != '?' && url[p] != '&'
    ensures UrlCountryFrom(url, from) == UrlCountryFrom(url, to)
    decreases |url| - from
  {
    if from < to {
      UrlCountryStep(url, from);
      UrlCountrySkip(url, from + 1, to);
    }
  }

  lemma UrlCountryStep(url: string, from: nat)
    requires from < |url| && url[from] != '?' && url[from] != '&'
    ensures UrlCountryFrom(url, from) == UrlCountryFrom(url, from + 1)
  {
    assert UrlParamAt(url, from).None?;
  }

  // ---------------------------------------------------------------------------------------
  // getCurrentLocation
  // ---------------------------------------------------------------------------------------

  /** The names the cookie and localStorage steps look for. */
  const LocationKeys: seq<string> := ["country", "countryCode", "locale", "location", "region"]

  /**
   * The cookies the cookie step considers: those whose lower-cased name is in the list.
   * 'countryCode' has an upper-case letter, so a cookie of that name never qualifies.
   */
  function LocationCookieValues(cs: seq<Cookie>): (r: seq<string>)
    ensures |r| <= |cs|
    decreases |cs|
  {
    if |cs| == 0 then []
    else (if Lower(cs[0].name) in LocationKeys then [cs[0].value] else []) + LocationCookieValues(cs[1..])
  }

  /** The localStorage entries the page script collects: listed keys with a non-empty item, in list order. */
  function StorageValues(storage: map<string, string>, keys: seq<string>): (r: seq<string>)
    ensures forall i :: 0 <= i < |r| ==> r[i] != ""
    ensures |r| <= |keys|
  {
    if |keys| == 0 then []
    else (if keys[0] in storage && storage[keys[0]] != "" then [storage[keys[0]]] else [])
         + StorageValues(storage, keys[1..])
  }

  /** One cookie or storage value: two characters are taken as a code, else 'GB'/'UK' inside means GB. */
  function ValueVerdict(v: string): (r: Option<string>)
    ensures r.Some? ==> |r.value| == 2
    ensures |v| == 2 ==> r == Some(Upper(v))
    ensures |v| != 2 ==> (r.Some? <==> Contains(v, "GB") || Contains(v, "UK"))
    ensures |v| != 2 && (Contains(v, "GB") || Contains(v, "UK")) ==> r == Some("GB")
  {
    if |v| == 2 then Some(Upper(v))
    else if Contains(v, "GB") || Contains(v, "UK") then Some("GB")
    else None
  }

  /** The verdict of the first value that has one. */
  function FirstVerdict(vs: seq<string>): (r: Option<string>)
    ensures r.Some? ==> exists i :: 0 <= i < |vs| && ValueVerdict(vs[i]) == r
                                   && forall j :: 0 <= j < i ==> ValueVerdict(vs[j]).None?
    ensures r.None? ==> forall i :: 0 <= i < |vs| ==> ValueVerdict(vs[i]).None?
  {
    if |vs| == 0 then None
    else if ValueVerdict(vs[0]).Some? then ValueVerdict(vs[0])
    else FirstVerdict(vs[1..])
  }

  /** The button shows no text and the URL has no country parameter: the cookie step is reached. */
  predicate NoButtonNoParam(s: Snapshot)
  {
    s.buttonText.Ok? && (s.buttonText.value.None? || s.buttonText.value.value == "")
    && UrlCountryFrom(s.url, 0).None?
  }

  /**
   * `getCurrentLocation()`: the trimmed button text when there is any; else the country
   * parameter of the URL, upper-cased; else the first cookie, then localStorage, verdict;
   * else null. A throwing read yields null as well.
   */
  function CurrentLocation(s: Snapshot): (r: Option<string>)
    ensures s.buttonText.Ok? && s.buttonText.value.Some? && s.buttonText.value.value != "" ==>
      r == Some(Trim(s.buttonText.value.value))
    ensures s.buttonText.Throws? ==> r.None?
    ensures (s.buttonText.Ok? && (s.buttonText.value.None? || s.buttonText.value.value == "")
             && UrlCountryFrom(s.url, 0).Some?) ==> r == Some(Upper(UrlCountryFrom(s.url, 0).value))
    ensures NoButtonNoParam(s) && s.cookies.Throws? ==> r.None?
    ensures NoButtonNoParam(s) && s.cookies.Ok? && FirstVerdict(LocationCookieValues(s.cookies.value)).Some? ==>
      r == FirstVerdict(LocationCookieValues(s.cookies.value))
    ensures NoButtonNoParam(s) && s.cookies.Ok? && FirstVerdict(LocationCookieValues(s.cookies.value)).None? ==>
      r == (match s.storage case Throws => None case Ok(st) => FirstVerdict(StorageValues(st, LocationKeys)))
  {
    match s.buttonText
    case Throws => None
    case Ok(text) =>
      if text.Some? && text.value != "" then Some(Trim(text.value))
      else if UrlCountryFrom(s.url, 0).Some? then Some(Upper(UrlCountryFrom(s.url, 0).value))
      else
        match s.cookies
        case Throws => None
        case Ok(cs) =>
          if FirstVerdict(LocationCookieValues(cs)).Some? then FirstVerdict(LocationCookieValues(cs))
          else
            match s.storage
            case Throws => None
            case Ok(st) => FirstVerdict(StorageValues(st, LocationKeys))
  }

  /** Apart from the button text, every location found is a two-character code. */
  lemma LocationIsCode(s: Snapshot)
    requires s.buttonText.Ok? && (s.buttonText.value.None? || s.buttonText.value.value == "")
    ensures CurrentLocation(s).Some? ==> |CurrentLocation(s).value| == 2
  {
  }

  /** A cookie named 'countryCode' is never consulted, whatever its value. */
  lemma CountryCodeCookieIgnored(s: Snapshot, value: string, cs: seq<Cookie>)
    ensures CurrentLocation(s.(cookies := Ok([Cookie("countryCode", value)] + cs)))
         == CurrentLocation(s.(cookies := Ok(cs)))
  {
    var with := [Cookie("countryCode", value)] + cs;
    assert Lower("countryCode") == "countrycode";
    assert with[1..] == cs;
    assert LocationCookieValues(with) == LocationCookieValues(cs);
  }

  /** A lower-case 'country' cookie is consulted: 'gb' there makes the location 'GB'. */
  lemma CountryCookieRead(s: Snapshot)
    requires s.buttonText == Ok(None) && UrlCountryFrom(s.url, 0).None?
    ensures CurrentLocation(s.(cookies := Ok([Cookie("country", "gb")]))) == Some("GB")
  {
    assert Lower("country") == "country";
    assert LocationCookieValues([Cookie("country", "gb")]) == ["gb"];
    assert Upper("gb") == "GB";
    assert FirstVerdict(["gb"]) == Some("GB");
  }

  // ---------------------------------------------------------------------------------------
  // isLocationUK
  // ---------------------------------------------------------------------------------------

  /** `united\s*kingdom` from `j`, just after "united". */
  predicate KingdomFrom(s: string, j: nat)
    decreases |s| - j
  {
    IMatchAt(s, j, "kingdom") || (j < |s| && IsWhitespace(s[j]) && KingdomFrom(s, j + 1))
  }

  predicate UkAt(s: string, i: nat)
  {
    IMatchAt(s, i, "uk") || IMatchAt(s, i, "gb") || (IMatchAt(s, i, "united") && KingdomFrom(s, i + 6))
  }

  /** `/uk|gb|united\s*kingdom/i.test(s)` from position `i` on. */
  predicate UkFrom(s: string, i: nat)
    decreases |s| - i
  {
    i < |s| && (UkAt(s, i) || UkFrom(s, i + 1))
  }

  lemma {:induction false} UkFromWitness(s: string, i: nat, k: nat)
    requires i <= k < |s| && UkAt(s, k)
    ensures UkFrom(s, i)
    decreases k - i
  {
    if i < k {
      UkFromWitness(s, i + 1, k);
    }
  }

  /** The selectors whose visibility proves a UK page, in the order they are tried. */
  const Indicators: seq<string> := [
    "p:has-text(\"United Kingdom\")", "p:has-text(\"UK\")",
    "span:has-text(\"United Kingdom\")", "span:has-text(\"UK\")",
    "span:has-text(\"\U{00C2}\U{00A3}\")", "span:has-text(\"GBP\")",
    "a[href^=\"tel:+44\"]", "p:has-text(\"Post Code\")"]

  function VisibilityOf(visible: map<string, Outcome<bool>>, sel: string): Outcome<bool>
  {
    if sel in visible then visible[sel] else Ok(false)
  }

  /** The indicator loop: the first throwing or visible selector decides. */
  function IndicatorScan(visible: map<string, Outcome<bool>>, sels: seq<string>): (r: Outcome<bool>)
    ensures r == Ok(true) ==> exists i :: 0 <= i < |sels| && VisibilityOf(visible, sels[i]) == Ok(true)
    ensures (forall i :: 0 <= i < |sels| ==> VisibilityOf(visible, sels[i]).Ok?) ==>
      (r == Ok(true) <==> exists i :: 0 <= i < |sels| && VisibilityOf(visible, sels[i]) == Ok(true))
    ensures (forall i :: 0 <= i < |sels| ==> VisibilityOf(visible, sels[i]).Ok?) ==> r.Ok?
  {
    if |sels| == 0 then Ok(false)
    else
      match VisibilityOf(visible, sels[0])
      case Throws => Throws
      case Ok(true) => Ok(true)
      case Ok(false) =>
        var rest := IndicatorScan(visible, sels[1..]);
        assert forall i :: 0 <= i < |sels| - 1 ==> sels[1..][i] == sels[i + 1];
        rest
  }

  predicate UrlSaysUk(url: string)
  {
    Contains(url, "/uk/") || Contains(url, "/gb/") || Contains(url, "country=GB") || Contains(url, "country=UK")
  }

  predicate TitleSaysUk(title: string)
  {
    Contains(title, "UK") || Contains(title, "United Kingdom")
  }

  predicate LocationSaysUk(s: Snapshot)
  {
    CurrentLocation(s).Some? && UkFrom(CurrentLocation(s).value, 0)
  }

  /** No read that `isLocationUK` makes throws. */
  predicate ReadsSucceed(s: Snapshot)
  {
    s.title.Ok? && forall i :: 0 <= i < |Indicators| ==> VisibilityOf(s.visible, Indicators[i]).Ok?
  }

  /**
   * `isLocationUK()`: the location text, then the indicators, then the URL, then the title.
   * A throwing read ends the check with false.
   */
  function IsLocationUK(s: Snapshot): (r: bool)
    ensures r ==> LocationSaysUk(s)
                  || (exists i :: 0 <= i < |Indicators| && VisibilityOf(s.visible, Indicators[i]) == Ok(true))
                  || UrlSaysUk(s.url) || (s.title.Ok? && TitleSaysUk(s.title.value))
    ensures ReadsSucceed(s) ==>
      (r <==> LocationSaysUk(s)
              || (exists i :: 0 <= i < |Indicators| && VisibilityOf(s.visible, Indicators[i]) == Ok(true))
              || UrlSaysUk(s.url) || TitleSaysUk(s.title.value))
    ensures !LocationSaysUk(s) && IndicatorScan(s.visible, Indicators).Throws? ==> !r
  {
    if LocationSaysUk(s) then true
    else
      match IndicatorScan(s.visible, Indicators)
      case Throws => false
      case Ok(found) =>
        if found then true
        else if UrlSaysUk(s.url) then true
        else
          match s.title
          case Throws => false
          case Ok(t) => TitleSaysUk(t)
  }

  /** A throwing title read makes the check false when nothing before it said UK. */
  lemma TitleErrorMeansNotUk(s: Snapshot)
    requires !LocationSaysUk(s) && !UrlSaysUk(s.url) && s.title.Throws?
    requires forall i :: 0 <= i < |Indicators| ==> VisibilityOf(s.visible, Indicators[i]) == Ok(false)
    ensures !IsLocationUK(s)
  {
  }

  // ---------------------------------------------------------------------------------------
  // setUKCookies and navigateWithUKParam
  // ---------------------------------------------------------------------------------------

  /** The cookies `setUKCookies` adds, in order, each on '.volvopenta.com' with path '/'. */
  const UkCookies: seq<Cookie> := [
    Cookie("country", "GB"), Cookie("countryCode", "GB"), Cookie("locale", "en_GB"),
    Cookie("location", "GB"), Cookie("region", "GB")]

  const CookieDomain := ".volvopenta.com"

  /** Five `addCookies` calls, a reload and a wait for network idle. */
  const CookieSteps := 7

  datatype StrategyResult = StrategyResult(ok: bool, cookies: seq<Cookie>, visited: Option<string>)

  /**
   * `setUKCookies()`, where `failAt` is the index of the first browser call that throws:
   * true iff none of its seven calls throws; the cookies added are those before the failure.
   */
  function SetUKCookies(failAt: Option<nat>): (r: StrategyResult)
    ensures r.ok <==> failAt.None? || failAt.value >= CookieSteps
    ensures r.ok ==> r.cookies == UkCookies
    ensures failAt.Some? && failAt.value < |UkCookies| ==> r.cookies == UkCookies[..failAt.value]
    ensures r.visited.None?
  {
    var added := if failAt.Some? && failAt.value < |UkCookies| then UkCookies[..failAt.value] else UkCookies;
    StrategyResult(failAt.None? || failAt.value >= CookieSteps, added, None)
  }

  const UkParams: seq<string> := ["country=GB", "countryCode=GB", "locale=en_GB", "region=GB"]

  lemma JoinCons(a: string, rest: seq<string>, sep: string)
    requires |rest| > 0
    ensures Join([a] + rest, sep) == a + sep + Join(rest, sep)
  {
    assert ([a] + rest)[1..] == rest;
  }

  /** The URL `navigateWithUKParam` opens. */
  function NavigationUrl(): (u: string)
    ensures u == BaseUrl + ShopPath + "?" + "country=GB" + "&" + "countryCode=GB" + "&" + "locale=en_GB" + "&" + "region=GB"
  {
    assert Join(["region=GB"], "&") == "region=GB";
    assert UkParams == ["country=GB"] + ["countryCode=GB", "locale=en_GB", "region=GB"];
    assert ["countryCode=GB", "locale=en_GB", "region=GB"] == ["countryCode=GB"] + ["locale=en_GB", "region=GB"];
    assert ["locale=en_GB", "region=GB"] == ["locale=en_GB"] + ["region=GB"];
    JoinCons("locale=en_GB", ["region=GB"], "&");
    JoinCons("countryCode=GB", ["locale=en_GB", "region=GB"], "&");
    JoinCons("country=GB", ["countryCode=GB", "locale=en_GB", "region=GB"], "&");
    BaseUrl + ShopPath + "?" + Join(UkParams, "&")
  }

  /**
   * `navigateWithUKParam()`, where `failAt` is the index of the first browser call that
   * throws: `goto(url)` then a wait; true iff neither throws.
   */
  function NavigateWithUKParam(failAt: Option<nat>): (r: StrategyResult)
    ensures r.ok <==> failAt.None? || failAt.value >= 2
    ensures r.visited.Some? <==> failAt != Some(0)
    ensures r.visited.Some? ==> r.visited.value == NavigationUrl()
    ensures r.cookies == []
  {
    StrategyResult(failAt.None? || failAt.value >= 2, [], if failAt == Some(0) then None else Some(NavigationUrl()))
  }

  predicate NoQueryChars(p: string)
  {
    forall i :: 0 <= i < |p| ==> p[i] != '?' && p[i] != '&'
  }

  /** The match test at a position looks only at the text from there on. */
  lemma UrlParamShift(p: string, t: string, i: nat)
    ensures UrlParamAt(p + t, |p| + i) == UrlParamAt(t, i)
  {
    var u := p + t;
    assert forall a, b :: i <= a <= b <= |t| ==> u[|p| + a..|p| + b] == t[a..b];
  }

  lemma CountryParamFirst(rest: string)
    ensures UrlParamAt("?" + "country=GB" + rest, 0) == Some("GB")
  {
    var t := "?" + "country=GB" + rest;
    assert t[1..9] == "country=";
    assert t[9..11] == "GB";
  }

  /** A `?country=GB` parameter after a prefix free of `?` and `&` is the first match. */
  lemma UrlCountryAfter(p: string, rest: string)
    requires NoQueryChars(p)
    ensures UrlCountryFrom(p + ("?" + "country=GB" + rest), 0) == Some("GB")
  {
    var t := "?" + "country=GB" + rest;
    var u := p + t;
    assert forall i :: 0 <= i < |p| ==> u[i] == p[i];
    UrlCountrySkip(u, 0, |p|);
    CountryParamFirst(rest);
    UrlParamShift(p, t, 0);
  }

  lemma ShopUrlNoQuery()
    ensures NoQueryChars(BaseUrl + ShopPath)
  {
    assert NoQueryChars(BaseUrl);
    assert NoQueryChars(ShopPath);
  }

  /** The navigation URL, cut where its first parameter starts. */
  lemma NavigationUrlParts() returns (p: string, rest: string)
    ensures NoQueryChars(p)
    ensures NavigationUrl() == p + ("?" + "country=GB" + rest)
  {
    p := BaseUrl + ShopPath;
    rest := "&" + "countryCode=GB" + "&" + "locale=en_GB" + "&" + "region=GB";
    ShopUrlNoQuery();
    var q := "?" + "country=GB";
    var a := p + q;
    Assoc(p, "?", "country=GB");
    Assoc(a, "&", "countryCode=GB");
    Assoc(a, "&" + "countryCode=GB", "&");
    Assoc(a, "&" + "countryCode=GB" + "&", "locale=en_GB");
    Assoc(a, "&" + "countryCode=GB" + "&" + "locale=en_GB", "&");
    Assoc(a, "&" + "countryCode=GB" + "&" + "locale=en_GB" + "&", "region=GB");
    Assoc(p, q, rest);
  }

  lemma Assoc(a: string, b: string, c: string)
    ensures a + b + c == a + (b + c)
  {
  }

  /** The URL the navigation strategy opens names GB twice over: as a parameter, and as `country=GB`. */
  lemma NavigationUrlSaysGB()
    ensures UrlCountryFrom(NavigationUrl(), 0) == Some("GB")
    ensures UrlSaysUk(NavigationUrl())
  {
    var p, rest := NavigationUrlParts();
    UrlCountryAfter(p, rest);
    CountryParamContained(p, rest);
  }

  lemma CountryParamContained(p: string, rest: string)
    ensures Contains(p + ("?" + "country=GB" + rest), "country=GB")
  {
    var u := p + ("?" + "country=GB" + rest);
    assert u[|p| + 1..|p| + 11] == "country=GB";
    ContainsAt(u, "country=GB", |p| + 1);
  }

  lemma UpperGB()
    ensures Upper("GB") == "GB" && UkFrom("GB", 0)
  {
    assert Lower("GB") == "gb";
    assert UkAt("GB", 0);
  }

  /** After the strategies land on the parameterised URL, with no button text, the page reads as UK. */
  lemma NavigationMakesUk(s: Snapshot)
    requires s.buttonText == Ok(None) && s.url == NavigationUrl()
    ensures CurrentLocation(s) == Some("GB")
    ensures IsLocationUK(s)
  {
    NavigationUrlSaysGB();
    UpperGB();
    assert LocationSaysUk(s);
  }

  // ---------------------------------------------------------------------------------------
  // changeLocationToUK
  // ---------------------------------------------------------------------------------------

  /** The steps a run takes, in order. `Attempt(i, checked)`: the i-th UI attempt, and whether it reached its check. */
  datatype Step = SetCookies | NavigateWithParam | InitialCheck | Attempt(index: nat, checked: bool) | FinalCheck

  datatype Run = Run(uk: bool, trace: seq<Step>)

  const StrategyPrefix: seq<Step> := [SetCookies, NavigateWithParam, InitialCheck]

  /**
   * The i-th UI attempt as the browser plays it: the clicks and waits throw (`Throws`), or
   * they pass and the page is then in the given state.
   */
  predicate Succeeds(attempt: nat -> Outcome<Snapshot>, i: nat)
  {
    attempt(i).Ok? && IsLocationUK(attempt(i).value)
  }

  function AttemptSteps(attempt: nat -> Outcome<Snapshot>, k: nat): (r: seq<Step>)
    ensures |r| == k
    ensures forall i :: 0 <= i < k ==> r[i] == Attempt(i, attempt(i).Ok?)
  {
    seq(k, i requires 0 <= i < k => Attempt(i, attempt(i).Ok?))
  }

  lemma AttemptStepsSnoc(attempt: nat -> Outcome<Snapshot>, k: nat)
    ensures AttemptSteps(attempt, k + 1) == AttemptSteps(attempt, k) + [Attempt(k, attempt(k).Ok?)]
  {
    var a, b := AttemptSteps(attempt, k + 1), AttemptSteps(attempt, k) + [Attempt(k, attempt(k).Ok?)];
    assert forall i :: 0 <= i < k + 1 ==> a[i] == b[i];
  }

  /** No attempt in `[lo, hi)` succeeds. */
  predicate NoSuccessIn(attempt: nat -> Outcome<Snapshot>, lo: nat, hi: int)
  {
    forall j :: lo <= j < hi ==> !Succeeds(attempt, j)
  }

  /** The first succeeding attempt in `[lo, hi)`. */
  function FirstSuccess(attempt: nat -> Outcome<Snapshot>, lo: nat, hi: int): (r: Option<nat>)
    ensures r.Some? ==> lo <= r.value < hi && Succeeds(attempt, r.value) && NoSuccessIn(attempt, lo, r.value)
    ensures r.None? ==> NoSuccessIn(attempt, lo, hi)
    decreases hi - lo
  {
    if hi <= lo then None
    else if Succeeds(attempt, lo) then Some(lo)
    else
      var r := FirstSuccess(attempt, lo + 1, hi);
      FirstSuccessExtend(attempt, lo, hi, r);
      r
  }

  /** A failing attempt at `lo` extends the first-success facts one step to the left. */
  lemma FirstSuccessExtend(attempt: nat -> Outcome<Snapshot>, lo: nat, hi: int, r: Option<nat>)
    requires lo < hi && !Succeeds(attempt, lo)
    requires r.Some? ==> lo + 1 <= r.value < hi && Succeeds(attempt, r.value) && NoSuccessIn(attempt, lo + 1, r.value)
    requires r.None? ==> NoSuccessIn(attempt, lo + 1, hi)
    ensures r.Some? ==> lo <= r.value < hi && Succeeds(attempt, r.value) && NoSuccessIn(attempt, lo, r.value)
    ensures r.None? ==> NoSuccessIn(attempt, lo, hi)
  {
  }

  /**
   * `changeLocationToUK(retryCount)`. The cookie and URL strategies always run first and
   * their results are ignored. If the page then reads as UK the run ends at once. Otherwise
   * there are up to `retryCount + 1` UI attempts: a throwing one is logged and the next one
   * follows, and the first whose check says UK ends the run with true. If none does, one
   * final check decides. `afterStrategies` is the page after the two strategies, `attempt(i)`
   * the outcome of the i-th UI attempt, and `final` the page at the final check.
   */
  method ChangeLocationToUK(retryCount: int, afterStrategies: Snapshot,
                            attempt: nat -> Outcome<Snapshot>, final: Snapshot) returns (r: Run)
    ensures |r.trace| >= 3 && r.trace[..3] == StrategyPrefix
    ensures IsLocationUK(afterStrategies) ==> r == Run(true, StrategyPrefix)
    ensures !IsLocationUK(afterStrategies) ==>
      match FirstSuccess(attempt, 0, retryCount + 1)
      case Some(k) => r == Run(true, StrategyPrefix + AttemptSteps(attempt, k) + [Attempt(k, true)])
      case None => r == Run(IsLocationUK(final),
                            StrategyPrefix + AttemptSteps(attempt, if retryCount < 0 then 0 else retryCount + 1)
                            + [FinalCheck])
  {
    if IsLocationUK(afterStrategies) {
      return Run(true, StrategyPrefix);
    }
    var trace := StrategyPrefix;
    var i := 0;
    while i <= retryCount
      invariant 0 <= i && (i == 0 || i <= retryCount + 1)
      invariant trace == StrategyPrefix + AttemptSteps(attempt, i)
      invariant FirstSuccess(attempt, 0, retryCount + 1) == FirstSuccess(attempt, i, retryCount + 1)
    {
      var outcome := attempt(i);
      if outcome.Ok? && IsLocationUK(outcome.value) {
        assert FirstSuccess(attempt, i, retryCount + 1) == Some(i);
        return Run(true, trace + [Attempt(i, true)]);
      }
      AttemptStepsSnoc(attempt, i);
      trace := trace + [Attempt(i, outcome.Ok?)];
      i := i + 1;
    }
    r := Run(IsLocationUK(final), trace + [FinalCheck]);
  }

  /** The UI phase never makes more than `retryCount + 1` attempts, and stops at the first success. */
  lemma AttemptsBounded(retryCount: int, attempt: nat -> Outcome<Snapshot>, k: nat)
    requires FirstSuccess(attempt, 0, retryCount + 1) == Some(k)
    ensures k + 1 <= retryCount + 1
    ensures forall j :: 0 <= j < k ==> !Succeeds(attempt, j)
  {
  }
}
