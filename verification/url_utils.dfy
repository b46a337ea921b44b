/**
 * The string logic of `UrlUtils`: segment joining, the relative-path fallback of
 * `normalize`, the absolute-URL test, and the path-segment split. The WHATWG URL parser
 * itself is an oracle: its answers are parameters.
 */
module UrlUtils {
  import opened Wrappers
  import opened Text

  // ---------------------------------------------------------------------------------------
  // join
  // ---------------------------------------------------------------------------------------

  /** Neither the first nor the last character is a slash. */
  predicate NoEdgeSlash(s: string)
  {
    s == "" || (s[0] != '/' && s[|s| - 1] != '/')
  }

  /** `s.replace(/^\/+/, '')`: the leading run of slashes removed, and nothing else. */
  function TrimSlashStart(s: string): (r: string)
    ensures r == "" || r[0] != '/'
    ensures |r| <= |s| && r == s[|s| - |r|..]
    ensures forall k :: 0 <= k < |s| - |r| ==> s[k] == '/'
  {
    if |s| > 0 && s[0] == '/' then TrimSlashStart(s[1..]) else s
  }

  /** `s.replace(/\/+$/, '')`: the trailing run of slashes removed, and nothing else. */
  function TrimSlashEnd(s: string): (r: string)
    ensures r == "" || r[|r| - 1] != '/'
    ensures |r| <= |s| && r == s[..|r|]
    ensures forall k :: |r| <= k < |s| ==> s[k] == '/'
  {
    if |s| > 0 && s[|s| - 1] == '/' then TrimSlashEnd(s[..|s| - 1]) else s
  }

  /** `segment.replace(/^\/+|\/+$/g, '')`. */
  function StripSlashes(seg: string): (r: string)
    ensures NoEdgeSlash(r)
    ensures NoEdgeSlash(seg) ==> r == seg
  {
    var t := TrimSlashStart(seg);
    var r := TrimSlashEnd(t);
    assert r != "" ==> r[0] == t[0];
    r
  }

  lemma {:induction false} StripAllSlashes(seg: string)
    requires forall k :: 0 <= k < |seg| ==> seg[k] == '/'
    ensures StripSlashes(seg) == ""
  {
    AllSlashesTrim(seg);
  }

  lemma {:induction false} AllSlashesTrim(seg: string)
    requires forall k :: 0 <= k < |seg| ==> seg[k] == '/'
    ensures TrimSlashStart(seg) == ""
  {
    if |seg| > 0 { AllSlashesTrim(seg[1..]); }
  }

  predicate NonEmpty(s: string) { s != "" }

  /** The stripped, non-empty segments that `join` glues together. */
  function JoinParts(segments: seq<string>): (parts: seq<string>)
    ensures forall i :: 0 <= i < |parts| ==> parts[i] != "" && NoEdgeSlash(parts[i])
  {
    Filter(seq(|segments|, i requires 0 <= i < |segments| => StripSlashes(segments[i])), NonEmpty)
  }

  /** `UrlUtils.join(...segments)`. */
  function UrlJoin(segments: seq<string>): (r: string)
    ensures NoEdgeSlash(r)
    ensures segments == [] ==> r == ""
  {
    var parts := JoinParts(segments);
    JoinEdges(parts);
    Join(parts, "/")
  }

  lemma {:induction false} JoinEdges(parts: seq<string>)
    requires forall i :: 0 <= i < |parts| ==> parts[i] != "" && NoEdgeSlash(parts[i])
    ensures NoEdgeSlash(Join(parts, "/"))
    ensures |parts| > 0 ==> Join(parts, "/") != ""
  {
    if |parts| > 1 {
      JoinEdges(parts[1..]);
      var rest := Join(parts[1..], "/");
      assert (parts[0] + "/" + rest)[0] == parts[0][0];
    }
  }

  /**
   * Each segment is stripped of its edge slashes and, unless that leaves it empty, glued to
   * what came before with one '/'.
   */
  lemma UrlJoinSnoc(segments: seq<string>, seg: string)
    ensures UrlJoin(segments + [seg]) ==
      if StripSlashes(seg) == "" then UrlJoin(segments)
      else if UrlJoin(segments) == "" then StripSlashes(seg)
      else UrlJoin(segments) + "/" + StripSlashes(seg)
  {
    var all := segments + [seg];
    var stripped := seq(|all|, i requires 0 <= i < |all| => StripSlashes(all[i]));
    var front := seq(|segments|, i requires 0 <= i < |segments| => StripSlashes(segments[i]));
    assert stripped[..|stripped| - 1] == front;
    assert stripped[|stripped| - 1] == StripSlashes(seg);
    var parts := JoinParts(segments);
    assert JoinParts(all) == parts + (if StripSlashes(seg) != "" then [StripSlashes(seg)] else []);
    if StripSlashes(seg) != "" {
      JoinSnoc(parts, StripSlashes(seg), "/");
      JoinEdges(parts);
      if |parts| == 0 {
        assert UrlJoin(segments) == "";
      }
    } else {
      assert parts + [] == parts;
    }
  }

  /** Segments that are all empty or all slashes join to the empty string. */
  lemma UrlJoinSlashesOnly(segments: seq<string>)
    requires forall i, k :: 0 <= i < |segments| && 0 <= k < |segments[i]| ==> segments[i][k] == '/'
    ensures UrlJoin(segments) == ""
  {
    var stripped := seq(|segments|, i requires 0 <= i < |segments| => StripSlashes(segments[i]));
    forall i | 0 <= i < |segments| ensures stripped[i] == "" {
      StripAllSlashes(segments[i]);
    }
    FilterNone(stripped);
  }

  lemma {:induction false} FilterNone(ss: seq<string>)
    requires forall i :: 0 <= i < |ss| ==> ss[i] == ""
    ensures Filter(ss, NonEmpty) == []
  {
    if |ss| > 0 { FilterNone(ss[..|ss| - 1]); }
  }

  /** Joining the result of `join` again changes nothing. */
  lemma UrlJoinIdempotent(segments: seq<string>)
    ensures UrlJoin([UrlJoin(segments)]) == UrlJoin(segments)
  {
    var r := UrlJoin(segments);
    JoinPartsSingle(r);
  }

  /** A segment with no edge slashes is its own only part, unless it is empty. */
  lemma JoinPartsSingle(seg: string)
    requires NoEdgeSlash(seg)
    ensures JoinParts([seg]) == if seg == "" then [] else [seg]
  {
    var stripped := seq(1, i requires 0 <= i < 1 => StripSlashes([seg][i]));
    assert stripped == [seg];
    assert stripped[..0] == [];
  }

  // ---------------------------------------------------------------------------------------
  // normalize
  // ---------------------------------------------------------------------------------------

  /** A segment the fallback keeps as it is. */
  predicate Plain(seg: string) { seg != "" && seg != "." && seg != ".." }

  /**
   * The loop of the fallback: "" and "." are skipped, ".." pops the last kept segment
   * (nothing when none is left), any other segment is pushed.
   */
  function Resolve(segs: seq<string>): (kept: seq<string>)
    ensures |kept| <= |segs|
    ensures forall i :: 0 <= i < |kept| ==> Plain(kept[i]) && kept[i] in segs
  {
    if |segs| == 0 then []
    else
      var k := Resolve(segs[..|segs| - 1]);
      var s := segs[|segs| - 1];
      if s == "." || s == "" then k
      else if s == ".." then (if |k| > 0 then k[..|k| - 1] else k)
      else k + [s]
  }

  /** The `catch` branch of `normalize`, taken when `new URL(url)` throws. */
  function NormalizeRelative(url: string): (r: string)
    ensures NoEdgeSlash(r)
  {
    var kept := Resolve(Split(url, '/'));
    JoinEdges(kept);
    Join(kept, "/")
  }

  /**
   * `UrlUtils.normalize(url)`; `parsed` is what the URL parser serialises `url` to, or
   * `None` when it throws.
   */
  function Normalize(url: string, parsed: Option<string>): (r: string)
    ensures parsed.None? ==> NoEdgeSlash(r)
    ensures parsed.Some? ==> r == parsed.value
  {
    match parsed
    case Some(u) => u
    case None => NormalizeRelative(url)
  }

  /**
   * The fallback's result splits back into exactly the kept segments, none of which is
   * "", "." or "..".
   */
  lemma NormalizeRelativeSegments(url: string)
    ensures var kept := Resolve(Split(url, '/'));
      var r := NormalizeRelative(url);
      (kept == [] && r == "") || (kept != [] && Split(r, '/') == kept)
  {
    var kept := Resolve(Split(url, '/'));
    if kept != [] {
      forall i | 0 <= i < |kept| ensures '/' !in kept[i] {
        var j :| 0 <= j < |Split(url, '/')| && Split(url, '/')[j] == kept[i];
      }
      SplitJoin(kept, '/');
    }
  }

  lemma {:induction false} ResolvePlain(segs: seq<string>)
    requires forall i :: 0 <= i < |segs| ==> Plain(segs[i])
    ensures Resolve(segs) == segs
  {
    if |segs| > 0 {
      ResolvePlain(segs[..|segs| - 1]);
      assert segs[..|segs| - 1] + [segs[|segs| - 1]] == segs;
    }
  }

  /** The fallback applied to its own output changes nothing. */
  lemma NormalizeRelativeIdempotent(url: string)
    ensures NormalizeRelative(NormalizeRelative(url)) == NormalizeRelative(url)
  {
    NormalizeRelativeSegments(url);
    var kept := Resolve(Split(url, '/'));
    var r := NormalizeRelative(url);
    if kept != [] {
      ResolvePlain(kept);
    } else {
      assert Split(r, '/') == [""];
      assert Resolve([""]) == [];
    }
  }

  // ---------------------------------------------------------------------------------------
  // isAbsolute, isRelative, toAbsolute
  // ---------------------------------------------------------------------------------------

  /** The number of leading ASCII letters. */
  function LetterRun(s: string): (n: nat)
    ensures n <= |s| && forall i :: 0 <= i < n ==> IsLetter(s[i])
    ensures n < |s| ==> !IsLetter(s[n])
  {
    if |s| > 0 && IsLetter(s[0]) then 1 + LetterRun(s[1..]) else 0
  }

  lemma {:induction false} LetterRunAtLeast(s: string, k: nat)
    requires k <= |s| && forall i :: 0 <= i < k ==> IsLetter(s[i])
    ensures LetterRun(s) >= k
  {
    if k > 0 {
      LetterRunAtLeast(s[1..], k - 1);
    }
  }

  /** `UrlUtils.isAbsolute`: `/^(?:[a-z]+:)?\/\//i`. */
  function IsAbsolute(url: string): (r: bool)
    ensures StartsWith(url, "//") ==> r
  {
    var n := LetterRun(url);
    StartsWith(url, "//") || (n > 0 && StartsWith(url[n..], "://"))
  }

  /** A scheme of one or more ASCII letters, then "://". */
  predicate SchemeAt(url: string, k: int)
  {
    0 < k <= |url| && (forall i :: 0 <= i < k ==> IsLetter(url[i])) && StartsWith(url[k..], "://")
  }

  /** `isAbsolute` holds exactly for "//..." and for letters-only schemes followed by "://". */
  lemma IsAbsoluteIff(url: string)
    ensures IsAbsolute(url) <==> StartsWith(url, "//") || exists k :: SchemeAt(url, k)
  {
    var n := LetterRun(url);
    if n > 0 && StartsWith(url[n..], "://") {
      assert SchemeAt(url, n);
    }
    if exists k :: SchemeAt(url, k) {
      var k :| SchemeAt(url, k);
      SchemeAtRun(url, k);
    }
  }

  /** A scheme is exactly the leading run of letters. */
  lemma SchemeAtRun(url: string, k: int)
    requires SchemeAt(url, k)
    ensures LetterRun(url) == k
  {
    assert url[k..][0] == ':';
    assert !IsLetter(url[k]);
    LetterRunAtLeast(url, k);
  }

  /** A scheme with a character other than a letter, as RFC 3986 section 3.1 allows, is not recognised. */
  lemma IsAbsoluteLettersOnly()
    ensures !IsAbsolute("git+ssh://host")
  {
    BrokenSchemeNotAbsolute("git", '+', "ssh://host");
    assert "git" + ['+'] + "ssh://host" == "git+ssh://host";
  }

  /** Scheme letters may be upper case. */
  lemma IsAbsoluteUpperScheme()
    ensures IsAbsolute("HTTPS://host")
  {
    SchemeIsAbsolute("HTTPS", "host");
    assert "HTTPS" + "://" + "host" == "HTTPS://host";
  }

  /** Letters, then "://", make an absolute URL. */
  lemma SchemeIsAbsolute(scheme: string, rest: string)
    requires |scheme| > 0 && forall i :: 0 <= i < |scheme| ==> IsLetter(scheme[i])
    ensures IsAbsolute(scheme + "://" + rest)
  {
    var u := scheme + "://" + rest;
    LetterRunOf(scheme, "://" + rest);
    assert u == scheme + ("://" + rest);
    assert u[|scheme|..] == "://" + rest;
    assert ("://" + rest)[..3] == "://";
  }

  /** Letters broken by a character other than a letter or ':' do not start an absolute URL. */
  lemma BrokenSchemeNotAbsolute(scheme: string, c: char, rest: string)
    requires |scheme| > 0 && forall i :: 0 <= i < |scheme| ==> IsLetter(scheme[i])
    requires !IsLetter(c) && c != ':'
    ensures !IsAbsolute(scheme + [c] + rest)
  {
    var u := scheme + [c] + rest;
    LetterRunOf(scheme, [c] + rest);
    assert u == scheme + ([c] + rest);
    assert u[|scheme|..][0] == c;
    assert u[0] == scheme[0];
  }

  lemma {:induction false} LetterRunOf(a: string, b: string)
    requires forall i :: 0 <= i < |a| ==> IsLetter(a[i])
    requires b == "" || !IsLetter(b[0])
    ensures LetterRun(a + b) == |a|
  {
    if |a| > 0 {
      assert (a + b)[1..] == a[1..] + b;
      LetterRunOf(a[1..], b);
    } else {
      assert a + b == b;
    }
  }

  /** `UrlUtils.isRelative`. */
  function IsRelative(url: string): (r: bool)
    ensures r <==> !StartsWith(url, "//") && forall k :: !SchemeAt(url, k)
  {
    IsAbsoluteIff(url);
    !IsAbsolute(url)
  }

  /**
   * `UrlUtils.toAbsolute(relativeUrl, baseUrl)`; `resolved` is the parser's
   * `new URL(relativeUrl, baseUrl)`, which may throw.
   */
  function ToAbsolute(relativeUrl: string, resolved: Outcome<string>): (r: Outcome<string>)
    ensures IsAbsolute(relativeUrl) ==> r == Ok(relativeUrl)
    ensures IsRelative(relativeUrl) ==> r == resolved
  {
    if IsAbsolute(relativeUrl) then Ok(relativeUrl) else resolved
  }

  // ---------------------------------------------------------------------------------------
  // getPathSegments
  // ---------------------------------------------------------------------------------------

  /**
   * `UrlUtils.getPathSegments(url)`; `pathname` is the parsed URL's `pathname`, or
   * `Throws` when the parser rejects the URL.
   */
  function GetPathSegments(pathname: Outcome<string>): (r: Outcome<seq<string>>)
    ensures r.Throws? <==> pathname.Throws?
    ensures r.Ok? ==> forall i :: 0 <= i < |r.value| ==> r.value[i] != "" && '/' !in r.value[i]
  {
    match pathname
    case Throws => Throws
    case Ok(p) =>
      var parts := Filter(Split(p, '/'), NonEmpty);
      assert forall i :: 0 <= i < |parts| ==> parts[i] in Split(p, '/');
      Ok(parts)
  }

  /** The segments of the path "/a/b/c" are recovered exactly. */
  lemma PathSegmentsJoin(segs: seq<string>)
    requires forall i :: 0 <= i < |segs| ==> segs[i] != "" && '/' !in segs[i]
    ensures GetPathSegments(Ok("/" + Join(segs, "/"))) == Ok(segs)
  {
    if |segs| == 0 {
      assert "/" + Join(segs, "/") == "/";
      PathSegmentsRoot();
    } else {
      PathSegmentsRooted(segs);
    }
  }

  lemma PathSegmentsRooted(segs: seq<string>)
    requires |segs| > 0 && forall i :: 0 <= i < |segs| ==> segs[i] != "" && '/' !in segs[i]
    ensures GetPathSegments(Ok("/" + Join(segs, "/"))) == Ok(segs)
  {
    var p := "/" + Join(segs, "/");
    SplitRooted(segs);
    DropEmpties([""], segs);
    assert GetPathSegments(Ok(p)) == Ok(Filter(Split(p, '/'), NonEmpty));
  }

  /** Splitting "/a/b/c" at slashes gives an empty piece, then the segments. */
  lemma SplitRooted(segs: seq<string>)
    requires |segs| > 0 && forall i :: 0 <= i < |segs| ==> '/' !in segs[i]
    ensures Split("/" + Join(segs, "/"), '/') == [""] + segs
  {
    var j := Join(segs, "/");
    SplitCons("", '/', j);
    assert "" + ['/'] + j == "/" + j;
    SplitJoin(segs, '/');
  }

  /** The root path "/" has no segments. */
  lemma PathSegmentsRoot()
    ensures GetPathSegments(Ok("/")) == Ok([])
  {
    SplitCons("", '/', "");
    assert "" + ['/'] + "" == "/";
    assert Split("", '/') == [""];
    assert Split("/", '/') == ["", ""];
    DropEmpties(["", ""], []);
    assert ["", ""] + [] == ["", ""];
  }

  lemma DropEmpties(empties: seq<string>, segs: seq<string>)
    requires forall i :: 0 <= i < |empties| ==> empties[i] == ""
    requires forall i :: 0 <= i < |segs| ==> segs[i] != ""
    ensures Filter(empties + segs, NonEmpty) == segs
  {
    FilterConcat(empties, segs, NonEmpty);
    FilterNone(empties);
    FilterKeeps(segs, NonEmpty);
  }
}
