/**
 * The parts of `EnhancedHtmlReporter` (Meowwright/utils/reporting/enhanced-html-reporter.ts)
 * that are not layout: `escapeHtml`, and the status and retry count shown for a test.
 */
module HtmlReport {
  import opened Wrappers
  import opened Text
  import TestRun

  /** `escapeHtml(unsafe)`: five global replacements, '&' first. */
  function EscapeHtml(unsafe: string): string
  {
    var s1 := ReplaceAll(unsafe, "&", "&amp;");
    var s2 := ReplaceAll(s1, "<", "&lt;");
    var s3 := ReplaceAll(s2, ">", "&gt;");
    var s4 := ReplaceAll(s3, "\"", "&quot;");
    ReplaceAll(s4, "'", "&#039;")
  }

  predicate Special(c: char)
  {
    c == '&' || c == '<' || c == '>' || c == '"' || c == '\''
  }

  /** The entity a character stands as in the output. */
  function EntityOf(c: char): (r: string)
    ensures |r| > 0
    ensures !Special(c) ==> r == [c]
    ensures Special(c) ==> r[0] == '&' && '&' !in r[1..]
    ensures '<' !in r && '>' !in r && '"' !in r && '\'' !in r
  {
    match c
    case '&' => "&amp;"
    case '<' => "&lt;"
    case '>' => "&gt;"
    case '"' => "&quot;"
    case '\'' => "&#039;"
    case _ => [c]
  }

  /** The character-wise encoder: every character replaced by its entity. */
  function Encode(s: string): (r: string)
    ensures '<' !in r && '>' !in r && '"' !in r && '\'' !in r
    decreases |s|
  {
    if |s| == 0 then "" else EntityOf(s[0]) + Encode(s[1..])
  }

  /** The five replacements distribute over a concatenation. */
  lemma EscapeHtmlConcat(a: string, b: string)
    ensures EscapeHtml(a + b) == EscapeHtml(a) + EscapeHtml(b)
  {
    var a1 := ReplaceAll(a, "&", "&amp;");
    var b1 := ReplaceAll(b, "&", "&amp;");
    ReplaceAllConcat(a, b, '&', "&amp;");
    var a2 := ReplaceAll(a1, "<", "&lt;");
    var b2 := ReplaceAll(b1, "<", "&lt;");
    ReplaceAllConcat(a1, b1, '<', "&lt;");
    var a3 := ReplaceAll(a2, ">", "&gt;");
    var b3 := ReplaceAll(b2, ">", "&gt;");
    ReplaceAllConcat(a2, b2, '>', "&gt;");
    var a4 := ReplaceAll(a3, "\"", "&quot;");
    var b4 := ReplaceAll(b3, "\"", "&quot;");
    ReplaceAllConcat(a3, b3, '"', "&quot;");
    ReplaceAllConcat(a4, b4, '\'', "&#039;");
  }

  /** The replacements after the one for `c` leave an entity alone. */
  lemma EscapeHtmlChar(c: char)
    ensures EscapeHtml([c]) == EntityOf(c)
  {
    var e := EntityOf(c);
    if c == '&' {
      ReplaceAllHead("", "&", "&amp;");
      assert "&" + "" == "&" && "&amp;" + "" == "&amp;";
      ReplaceAllNoHead(e, "<", "&lt;");
      ReplaceAllNoHead(e, ">", "&gt;");
      ReplaceAllNoHead(e, "\"", "&quot;");
      ReplaceAllNoHead(e, "'", "&#039;");
    } else if c == '<' {
      ReplaceAllNoHead([c], "&", "&amp;");
      ReplaceAllHead("", "<", "&lt;");
      assert "<" + "" == "<" && "&lt;" + "" == "&lt;";
      ReplaceAllNoHead(e, ">", "&gt;");
      ReplaceAllNoHead(e, "\"", "&quot;");
      ReplaceAllNoHead(e, "'", "&#039;");
    } else if c == '>' {
      ReplaceAllNoHead([c], "&", "&amp;");
      ReplaceAllNoHead([c], "<", "&lt;");
      ReplaceAllHead("", ">", "&gt;");
      assert ">" + "" == ">" && "&gt;" + "" == "&gt;";
      ReplaceAllNoHead(e, "\"", "&quot;");
      ReplaceAllNoHead(e, "'", "&#039;");
    } else if c == '"' {
      ReplaceAllNoHead([c], "&", "&amp;");
      ReplaceAllNoHead([c], "<", "&lt;");
      ReplaceAllNoHead([c], ">", "&gt;");
      ReplaceAllHead("", "\"", "&quot;");
      assert "\"" + "" == "\"" && "&quot;" + "" == "&quot;";
      ReplaceAllNoHead(e, "'", "&#039;");
    } else if c == '\'' {
      ReplaceAllNoHead([c], "&", "&amp;");
      ReplaceAllNoHead([c], "<", "&lt;");
      ReplaceAllNoHead([c], ">", "&gt;");
      ReplaceAllNoHead([c], "\"", "&quot;");
      ReplaceAllHead("", "'", "&#039;");
      assert "'" + "" == "'" && "&#039;" + "" == "&#039;";
    } else {
      ReplaceAllNoHead([c], "&", "&amp;");
      ReplaceAllNoHead([c], "<", "&lt;");
      ReplaceAllNoHead([c], ">", "&gt;");
      ReplaceAllNoHead([c], "\"", "&quot;");
      ReplaceAllNoHead([c], "'", "&#039;");
    }
  }

  /** Replacing '&' first makes the chain of replacements the character-wise encoder. */
  lemma {:induction false} EscapeHtmlEncodes(s: string)
    ensures EscapeHtml(s) == Encode(s)
    decreases |s|
  {
    if |s| == 0 {
      assert ReplaceAll("", "&", "&amp;") == "";
    } else {
      assert s == [s[0]] + s[1..];
      EscapeHtmlConcat([s[0]], s[1..]);
      EscapeHtmlChar(s[0]);
      EscapeHtmlEncodes(s[1..]);
    }
  }

  /** The decoder for the five entities; anything else is copied. */
  function Unescape(s: string): string
    decreases |s|
  {
    if |s| == 0 then ""
    else if StartsWith(s, "&amp;") then "&" + Unescape(s[5..])
    else if StartsWith(s, "&lt;") then "<" + Unescape(s[4..])
    else if StartsWith(s, "&gt;") then ">" + Unescape(s[4..])
    else if StartsWith(s, "&quot;") then "\"" + Unescape(s[6..])
    else if StartsWith(s, "&#039;") then "'" + Unescape(s[6..])
    else [s[0]] + Unescape(s[1..])
  }

  /** A prefix test fails as soon as one character differs. */
  lemma NotStartsAt(s: string, p: string, i: nat)
    requires i < |p| && i < |s| && s[i] != p[i]
    ensures !StartsWith(s, p)
  {
    if |p| <= |s| {
      assert s[..|p|][i] == s[i];
    }
  }

  /** An entity followed by more text starts with exactly that entity. */
  lemma EntityPrefix(e: string, rest: string)
    ensures StartsWith(e + rest, e) && (e + rest)[|e|..] == rest
  {
    assert (e + rest)[..|e|] == e;
  }

  lemma UnescapeEntity(c: char, rest: string)
    ensures Unescape(EntityOf(c) + rest) == [c] + Unescape(rest)
  {
    var e := EntityOf(c);
    var s := e + rest;
    EntityPrefix(e, rest);
    if c == '&' {
    } else if c == '<' {
      NotStartsAt(s, "&amp;", 1);
    } else if c == '>' {
      NotStartsAt(s, "&amp;", 1);
      NotStartsAt(s, "&lt;", 1);
    } else if c == '"' {
      NotStartsAt(s, "&amp;", 1);
      NotStartsAt(s, "&lt;", 1);
      NotStartsAt(s, "&gt;", 1);
    } else if c == '\'' {
      NotStartsAt(s, "&amp;", 1);
      NotStartsAt(s, "&lt;", 1);
      NotStartsAt(s, "&gt;", 1);
      NotStartsAt(s, "&quot;", 1);
    } else {
      NotStartsAt(s, "&amp;", 0);
      NotStartsAt(s, "&lt;", 0);
      NotStartsAt(s, "&gt;", 0);
      NotStartsAt(s, "&quot;", 0);
      NotStartsAt(s, "&#039;", 0);
    }
  }

  /** Decoding the encoder's output gives the input back. */
  lemma {:induction false} UnescapeEncode(s: string)
    ensures Unescape(Encode(s)) == s
    decreases |s|
  {
    if |s| > 0 {
      UnescapeEntity(s[0], Encode(s[1..]));
      UnescapeEncode(s[1..]);
    }
  }

  /** `escapeHtml` is undone by the decoder, because '&' is escaped before anything else. */
  lemma EscapeHtmlRoundTrip(s: string)
    ensures Unescape(EscapeHtml(s)) == s
    ensures '<' !in EscapeHtml(s) && '>' !in EscapeHtml(s) && '"' !in EscapeHtml(s) && '\'' !in EscapeHtml(s)
  {
    EscapeHtmlEncodes(s);
    UnescapeEncode(s);
  }

  /** A string with none of the five characters is not changed. */
  lemma {:induction false} EscapeHtmlPlain(s: string)
    requires forall i :: 0 <= i < |s| ==> !Special(s[i])
    ensures EscapeHtml(s) == s
    decreases |s|
  {
    EscapeHtmlEncodes(s);
    EncodePlain(s);
  }

  lemma {:induction false} EncodePlain(s: string)
    requires forall i :: 0 <= i < |s| ==> !Special(s[i])
    ensures Encode(s) == s
    decreases |s|
  {
    if |s| > 0 {
      EncodePlain(s[1..]);
      assert s == [s[0]] + s[1..];
    }
  }

  /** One of the five entities begins at position `i`. */
  predicate EntityAt(r: string, i: nat)
    requires i < |r|
  {
    StartsWith(r[i..], "&amp;") || StartsWith(r[i..], "&lt;") || StartsWith(r[i..], "&gt;")
    || StartsWith(r[i..], "&quot;") || StartsWith(r[i..], "&#039;")
  }

  /** Every '&' in the output begins an entity. */
  lemma {:induction false} EncodeAmpersands(s: string)
    ensures forall i :: 0 <= i < |Encode(s)| && Encode(s)[i] == '&' ==> EntityAt(Encode(s), i)
    decreases |s|
  {
    if |s| > 0 {
      var e := EntityOf(s[0]);
      var rest := Encode(s[1..]);
      var r := e + rest;
      EncodeAmpersands(s[1..]);
      forall i | 0 <= i < |r| && r[i] == '&'
        ensures EntityAt(r, i)
      {
        if i < |e| {
          EntityAmpersand(s[0], rest, i);
        } else {
          assert r[i..] == rest[i - |e|..];
          assert rest[i - |e|] == '&';
          assert EntityAt(rest, i - |e|);
        }
      }
    }
  }

  lemma EntityAmpersand(c: char, rest: string, i: nat)
    requires i < |EntityOf(c)| && EntityOf(c)[i] == '&'
    ensures EntityAt(EntityOf(c) + rest, i)
  {
    var e := EntityOf(c);
    assert i == 0;
    var r := e + rest;
    assert r[0..][..|e|] == e;
  }

  /** The status a test card shows: `result?.status || 'unknown'`. */
  function CardStatus(info: TestRun.TestInfo): (r: string)
    ensures info.result.None? ==> r == "unknown"
    ensures info.result.Some? ==> r == TestRun.StatusName(info.result.value.status) && r != "unknown"
  {
    match info.result
    case None => "unknown"
    case Some(res) => TestRun.StatusName(res.status)
  }

  /** The retry count a test card shows: `result?.retry || 0`. */
  function CardRetries(info: TestRun.TestInfo): (r: nat)
    ensures info.result.None? ==> r == 0
    ensures info.result.Some? ==> r == info.result.value.retry
  {
    match info.result
    case None => 0
    case Some(res) => res.retry
  }
}
