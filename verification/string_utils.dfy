/**
 * `StringUtils`: emptiness, truncation, capitalisation, snake and kebab case, tag
 * stripping, regular-expression escaping and `{n}` placeholder formatting.
 */
module StringUtils {
  import opened Wrappers
  import opened Json
  import opened Text

  /** `StringUtils.isEmpty`: null or undefined (`None`), or only whitespace. */
  function IsEmpty(str: Option<string>): (r: bool)
    ensures r <==> str.None? || AllWhitespace(str.value)
  {
    match str
    case None => true
    case Some(s) => TrimEmptyIff(s); Trim(s) == ""
  }

  /** `StringUtils.isNotEmpty`. */
  function IsNotEmpty(str: Option<string>): (r: bool)
    ensures r <==> str.Some? && exists i :: 0 <= i < |str.value| && !IsWhitespace(str.value[i])
  {
    !IsEmpty(str)
  }

  /** `str.substring(0, n)`: `n` is clamped into `[0, |str|]`. */
  function Substring(str: string, n: int): (r: string)
    ensures |r| == if n < 0 then 0 else if n > |str| then |str| else n
    ensures r == str[..|r|]
  {
    if n < 0 then "" else if n > |str| then str else str[..n]
  }

  /** `StringUtils.truncate(str, maxLength, ellipsis)`. */
  function Truncate(str: string, maxLength: int, ellipsis: string): (r: string)
    ensures str == "" ==> r == ""
    ensures |str| <= maxLength ==> r == str
    ensures str != "" && |str| > maxLength && maxLength >= |ellipsis| ==>
      |r| == maxLength && r[maxLength - |ellipsis|..] == ellipsis &&
      r[..maxLength - |ellipsis|] == str[..maxLength - |ellipsis|]
    ensures str != "" && |str| > maxLength && maxLength < |ellipsis| ==> r == ellipsis
  {
    if str == "" then ""
    else if |str| <= maxLength then str
    else Substring(str, maxLength - |ellipsis|) + ellipsis
  }

  /** Truncating again to the same length changes nothing. */
  lemma TruncateIdempotent(str: string, maxLength: int, ellipsis: string)
    ensures Truncate(Truncate(str, maxLength, ellipsis), maxLength, ellipsis) == Truncate(str, maxLength, ellipsis)
  {
  }

  /** `StringUtils.capitalize`: the first character upper-cased, the rest kept. */
  function Capitalize(str: string): (r: string)
    ensures |r| == |str|
    ensures str != "" ==> r[1..] == str[1..] && !IsLower(r[0])
    ensures str != "" ==> r[0] == UpperChar(str[0])
  {
    if str == "" then "" else [UpperChar(str[0])] + str[1..]
  }

  lemma CapitalizeIdempotent(str: string)
    ensures Capitalize(Capitalize(str)) == Capitalize(str)
  {
  }

  /** `s.replace(/\s+/g, [sep])`: every maximal run of whitespace becomes one `sep`. */
  function CollapseWhitespace(s: string, sep: char): (r: string)
    requires !IsWhitespace(sep)
    ensures NoWhitespace(r)
    ensures NoWhitespace(s) ==> r == s
    ensures forall i :: 0 <= i < |r| ==> r[i] == sep || r[i] in s
    decreases |s|
  {
    if |s| == 0 then ""
    else if IsWhitespace(s[0]) then
      TrimStartSuffix(s[1..]);
      var rest := TrimStart(s[1..]);
      assert forall i :: 0 <= i < |rest| ==> rest[i] in s by {
        forall i | 0 <= i < |rest| ensures rest[i] in s {
          assert rest[i] == s[1..][|s[1..]| - |rest| + i];
        }
      }
      [sep] + CollapseWhitespace(rest, sep)
    else
      [s[0]] + CollapseWhitespace(s[1..], sep)
  }

  /** `s.replace(/([a-z])([A-Z])/g, '$1' + sep + '$2')`, matching left to right. */
  function SplitCamel(s: string, sep: char): (r: string)
    ensures NoWhitespace(s) && !IsWhitespace(sep) ==> NoWhitespace(r)
    ensures NoUpper(s) ==> r == s
    ensures forall i :: 0 <= i < |r| ==> r[i] == sep || r[i] in s
    decreases |s|
  {
    if |s| < 2 then s
    else if IsLower(s[0]) && IsUpper(s[1]) then [s[0], sep, s[1]] + SplitCamel(s[2..], sep)
    else [s[0]] + SplitCamel(s[1..], sep)
  }

  /** The shared body of `toSnakeCase` and `toKebabCase` with the separator `sep`. */
  function ToDelimited(str: string, sep: char): (r: string)
    requires !IsWhitespace(sep) && !IsUpper(sep)
    ensures NoWhitespace(r) && NoUpper(r)
    ensures str == "" <==> r == ""
    ensures NoWhitespace(str) && NoUpper(str) ==> r == str
  {
    if str == "" then ""
    else
      var a := CollapseWhitespace(str, sep);
      var b := SplitCamel(a, sep);
      assert |a| > 0;
      Lower(b)
  }

  /** `StringUtils.toSnakeCase`. */
  function ToSnakeCase(str: string): (r: string)
    ensures NoWhitespace(r) && NoUpper(r)
    ensures str == "" <==> r == ""
    ensures NoWhitespace(str) && NoUpper(str) ==> r == str
  {
    ToDelimited(str, '_')
  }

  /** `StringUtils.toKebabCase`. */
  function ToKebabCase(str: string): (r: string)
    ensures NoWhitespace(r) && NoUpper(r)
    ensures str == "" <==> r == ""
    ensures NoWhitespace(str) && NoUpper(str) ==> r == str
  {
    ToDelimited(str, '-')
  }

  // The three lemmas below take a non-empty input apart at its first character: a run of
  // whitespace, a lower-case letter followed by an upper-case one, or any other character.
  // Together they determine the conversion of every string.

  /** A run of whitespace after a word becomes one separator. */
  lemma ToDelimitedWhitespace(a: string, w: string, b: string, sep: char)
    requires !IsWhitespace(sep) && !IsUpper(sep) && !IsLower(sep)
    requires NoWhitespace(a) && w != "" && AllWhitespace(w) && (b == "" || !IsWhitespace(b[0]))
    ensures ToDelimited(a + w + b, sep) == ToDelimited(a, sep) + [sep] + ToDelimited(b, sep)
  {
    var cb := CollapseWhitespace(b, sep);
    CollapseAround(a, w, b, sep);
    SplitCamelAt(a, sep, cb, sep);
    LowerAround(SplitCamel(a, sep), sep, SplitCamel(cb, sep));
    ToDelimitedUnfold(a + w + b, sep);
    ToDelimitedUnfold(a, sep);
    ToDelimitedUnfold(b, sep);
  }

  /** A lower-case letter followed by an upper-case one gets the separator in between. */
  lemma ToDelimitedCamel(x: char, y: char, q: string, sep: char)
    requires !IsWhitespace(sep) && !IsUpper(sep)
    requires IsLower(x) && IsUpper(y)
    ensures ToDelimited([x, y] + q, sep) == [x, sep, LowerChar(y)] + ToDelimited(q, sep)
  {
    CollapseKeeps([x, y], q, sep);
    var cq := CollapseWhitespace(q, sep);
    SplitCamelPair(x, y, cq, sep);
    LowerTriple(x, sep, y, SplitCamel(cq, sep));
    ToDelimitedUnfold([x, y] + q, sep);
    ToDelimitedUnfold(q, sep);
  }

  /** Any other non-whitespace character is lower-cased and kept. */
  lemma ToDelimitedPlain(x: char, q: string, sep: char)
    requires !IsWhitespace(sep) && !IsUpper(sep)
    requires !IsWhitespace(x) && !(IsLower(x) && q != "" && IsUpper(q[0]))
    ensures ToDelimited([x] + q, sep) == [LowerChar(x)] + ToDelimited(q, sep)
  {
    CollapseKeeps([x], q, sep);
    var cq := CollapseWhitespace(q, sep);
    if q != "" {
      CollapseHead(q, sep);
    }
    SplitCamelSingle(x, cq, sep);
    LowerConcat([x], SplitCamel(cq, sep));
    ToDelimitedUnfold([x] + q, sep);
    ToDelimitedUnfold(q, sep);
  }

  /** The three passes, with the empty string included. */
  lemma ToDelimitedUnfold(str: string, sep: char)
    requires !IsWhitespace(sep) && !IsUpper(sep)
    ensures ToDelimited(str, sep) == Lower(SplitCamel(CollapseWhitespace(str, sep), sep))
  {
  }

  lemma CollapseAround(a: string, w: string, b: string, sep: char)
    requires !IsWhitespace(sep) && NoWhitespace(a)
    requires w != "" && AllWhitespace(w) && (b == "" || !IsWhitespace(b[0]))
    ensures CollapseWhitespace(a + w + b, sep) == a + [sep] + CollapseWhitespace(b, sep)
  {
    assert a + w + b == a + (w + b);
    CollapseKeeps(a, w + b, sep);
    CollapseRun(w, b, sep);
  }

  lemma LowerAround(x: string, c: char, y: string)
    requires !IsUpper(c)
    ensures Lower(x + [c] + y) == Lower(x) + [c] + Lower(y)
  {
    LowerConcat(x + [c], y);
    LowerConcat(x, [c]);
  }

  lemma SplitCamelPair(x: char, y: char, q: string, sep: char)
    requires IsLower(x) && IsUpper(y)
    ensures SplitCamel([x, y] + q, sep) == [x, sep, y] + SplitCamel(q, sep)
  {
    assert ([x, y] + q)[2..] == q;
  }

  lemma SplitCamelSingle(x: char, q: string, sep: char)
    requires !(IsLower(x) && q != "" && IsUpper(q[0]))
    ensures SplitCamel([x] + q, sep) == [x] + SplitCamel(q, sep)
  {
    if q != "" {
      assert ([x] + q)[1..] == q;
    }
  }

  lemma ToSnakeCaseWhitespace(a: string, w: string, b: string)
    requires NoWhitespace(a) && w != "" && AllWhitespace(w) && (b == "" || !IsWhitespace(b[0]))
    ensures ToSnakeCase(a + w + b) == ToSnakeCase(a) + "_" + ToSnakeCase(b)
  {
    ToDelimitedWhitespace(a, w, b, '_');
  }

  lemma ToSnakeCaseCamel(x: char, y: char, q: string)
    requires IsLower(x) && IsUpper(y)
    ensures ToSnakeCase([x, y] + q) == [x, '_', LowerChar(y)] + ToSnakeCase(q)
  {
    ToDelimitedCamel(x, y, q, '_');
  }

  lemma ToSnakeCasePlain(x: char, q: string)
    requires !IsWhitespace(x) && !(IsLower(x) && q != "" && IsUpper(q[0]))
    ensures ToSnakeCase([x] + q) == [LowerChar(x)] + ToSnakeCase(q)
  {
    ToDelimitedPlain(x, q, '_');
  }

  lemma ToKebabCaseWhitespace(a: string, w: string, b: string)
    requires NoWhitespace(a) && w != "" && AllWhitespace(w) && (b == "" || !IsWhitespace(b[0]))
    ensures ToKebabCase(a + w + b) == ToKebabCase(a) + "-" + ToKebabCase(b)
  {
    ToDelimitedWhitespace(a, w, b, '-');
  }

  lemma ToKebabCaseCamel(x: char, y: char, q: string)
    requires IsLower(x) && IsUpper(y)
    ensures ToKebabCase([x, y] + q) == [x, '-', LowerChar(y)] + ToKebabCase(q)
  {
    ToDelimitedCamel(x, y, q, '-');
  }

  lemma ToKebabCasePlain(x: char, q: string)
    requires !IsWhitespace(x) && !(IsLower(x) && q != "" && IsUpper(q[0]))
    ensures ToKebabCase([x] + q) == [LowerChar(x)] + ToKebabCase(q)
  {
    ToDelimitedPlain(x, q, '-');
  }

  lemma LowerTriple(x: char, sep: char, y: char, rest: string)
    requires IsLower(x) && !IsUpper(sep)
    ensures Lower([x, sep, y] + rest) == [x, sep, LowerChar(y)] + Lower(rest)
  {
    LowerConcat([x, sep, y], rest);
    assert Lower([x, sep, y]) == [x, sep, LowerChar(y)];
  }

  lemma LowerConcat(a: string, b: string)
    ensures Lower(a + b) == Lower(a) + Lower(b)
  {
  }

  /** A word without whitespace passes through the whitespace collapse. */
  lemma {:induction false} CollapseKeeps(a: string, b: string, sep: char)
    requires !IsWhitespace(sep) && NoWhitespace(a)
    ensures CollapseWhitespace(a + b, sep) == a + CollapseWhitespace(b, sep)
    decreases |a|
  {
    if |a| > 0 {
      ConsApart(a, b);
      CollapseCons(a[0], a[1..] + b, sep);
      CollapseKeeps(a[1..], b, sep);
      ConsApart(a, CollapseWhitespace(b, sep));
    } else {
      assert a + b == b;
    }
  }

  /** `a + b` taken apart at the first character of `a`. */
  lemma ConsApart(a: string, b: string)
    requires a != ""
    ensures a + b == [a[0]] + (a[1..] + b)
    ensures a == [a[0]] + a[1..]
  {
  }

  lemma CollapseCons(c: char, rest: string, sep: char)
    requires !IsWhitespace(sep) && !IsWhitespace(c)
    ensures CollapseWhitespace([c] + rest, sep) == [c] + CollapseWhitespace(rest, sep)
  {
    assert ([c] + rest)[1..] == rest;
  }

  lemma CollapseRun(w: string, b: string, sep: char)
    requires !IsWhitespace(sep) && w != "" && AllWhitespace(w) && (b == "" || !IsWhitespace(b[0]))
    ensures CollapseWhitespace(w + b, sep) == [sep] + CollapseWhitespace(b, sep)
  {
    assert (w + b)[0] == w[0];
    assert (w + b)[1..] == w[1..] + b;
    TrimStartRun(w[1..], b);
  }

  lemma {:induction false} TrimStartRun(w: string, b: string)
    requires AllWhitespace(w) && (b == "" || !IsWhitespace(b[0]))
    ensures TrimStart(w + b) == b
    decreases |w|
  {
    if |w| > 0 {
      assert (w + b)[0] == w[0];
      assert (w + b)[1..] == w[1..] + b;
      TrimStartRun(w[1..], b);
    } else {
      assert w + b == b;
    }
  }

  lemma CollapseHead(q: string, sep: char)
    requires !IsWhitespace(sep) && q != ""
    ensures CollapseWhitespace(q, sep) != ""
    ensures CollapseWhitespace(q, sep)[0] == if IsWhitespace(q[0]) then sep else q[0]
  {
  }

  /** A character that is neither lower- nor upper-case never takes part in a camel split. */
  lemma {:induction false} SplitCamelAt(x: string, c: char, y: string, sep: char)
    requires !IsLower(c) && !IsUpper(c)
    ensures SplitCamel(x + [c] + y, sep) == SplitCamel(x, sep) + [c] + SplitCamel(y, sep)
    decreases |x|, 1
  {
    if |x| == 0 {
      SplitCamelSingle(c, y, sep);
      assert x + [c] + y == [c] + y;
    } else if |x| >= 2 && IsLower(x[0]) && IsUpper(x[1]) {
      SplitCamelAtPair(x, c, y, sep);
    } else {
      SplitCamelAtSingle(x, c, y, sep);
    }
  }

  lemma {:induction false} SplitCamelAtPair(x: string, c: char, y: string, sep: char)
    requires !IsLower(c) && !IsUpper(c)
    requires |x| >= 2 && IsLower(x[0]) && IsUpper(x[1])
    ensures SplitCamel(x + [c] + y, sep) == SplitCamel(x, sep) + [c] + SplitCamel(y, sep)
    decreases |x|, 0
  {
    var x2 := x[2..];
    var tail := x2 + [c] + y;
    PairApart(x, [c] + y);
    assert x + [c] + y == [x[0], x[1]] + tail;
    SplitCamelPair(x[0], x[1], tail, sep);
    SplitCamelAt(x2, c, y, sep);
    PairApart(x, "");
    SplitCamelPair(x[0], x[1], x2, sep);
    Regroup3([x[0], sep, x[1]], SplitCamel(x2, sep), [c], SplitCamel(y, sep));
  }

  lemma {:induction false} SplitCamelAtSingle(x: string, c: char, y: string, sep: char)
    requires !IsLower(c) && !IsUpper(c)
    requires |x| >= 1 && !(|x| >= 2 && IsLower(x[0]) && IsUpper(x[1]))
    ensures SplitCamel(x + [c] + y, sep) == SplitCamel(x, sep) + [c] + SplitCamel(y, sep)
    decreases |x|, 0
  {
    var x1 := x[1..];
    var tail := x1 + [c] + y;
    ConsApart(x, [c] + y);
    assert x + [c] + y == [x[0]] + tail;
    assert tail[0] == if |x1| > 0 then x[1] else c;
    SplitCamelSingle(x[0], tail, sep);
    SplitCamelAt(x1, c, y, sep);
    ConsApart(x, "");
    SplitCamelSingle(x[0], x1, sep);
    Regroup3([x[0]], SplitCamel(x1, sep), [c], SplitCamel(y, sep));
  }

  /** `a + b` taken apart at the first two characters of `a`. */
  lemma PairApart(a: string, b: string)
    requires |a| >= 2
    ensures a + b == [a[0], a[1]] + (a[2..] + b)
    ensures a == [a[0], a[1]] + a[2..]
  {
  }

  lemma Regroup3(a: string, b: string, c: string, d: string)
    ensures a + (b + c + d) == a + b + c + d
  {
  }

  lemma LowerIdentity(s: string)
    requires NoUpper(s)
    ensures Lower(s) == s
  {
  }

  /** Converting an already converted string changes nothing. */
  lemma ToDelimitedIdempotent(str: string, sep: char)
    requires !IsWhitespace(sep) && !IsUpper(sep)
    ensures ToDelimited(ToDelimited(str, sep), sep) == ToDelimited(str, sep)
  {
    var r := ToDelimited(str, sep);
    if r != "" {
      LowerIdentity(r);
    }
  }

  lemma ToSnakeCaseIdempotent(str: string)
    ensures ToSnakeCase(ToSnakeCase(str)) == ToSnakeCase(str)
  {
    ToDelimitedIdempotent(str, '_');
  }

  lemma ToKebabCaseIdempotent(str: string)
    ensures ToKebabCase(ToKebabCase(str)) == ToKebabCase(str)
  {
    ToDelimitedIdempotent(str, '-');
  }

  /** No `<` is followed, anywhere later, by a `>`. */
  predicate NoTag(s: string)
  {
    forall i, j :: 0 <= i < j < |s| && s[i] == '<' ==> s[j] != '>'
  }

  /**
   * `StringUtils.stripHtml`: `s.replace(/<[^>]*>/g, '')` removes each `<` with everything
   * up to the next `>`.
   */
  function StripHtml(s: string): (r: string)
    ensures NoTag(r)
    ensures forall i :: 0 <= i < |r| ==> r[i] in s
    decreases |s|
  {
    if |s| == 0 then ""
    else if s[0] == '<' then
      match IndexOf(s[1..], '>')
      case Some(j) => StripHtml(s[j + 2..])
      case None =>
        var rest := StripHtml(s[1..]);
        assert forall i :: 0 <= i < |rest| ==> rest[i] != '>';
        [s[0]] + rest
    else
      [s[0]] + StripHtml(s[1..])
  }

  /** A string without `<` is returned unchanged. */
  lemma {:induction false} StripHtmlNoAngle(s: string)
    requires '<' !in s
    ensures StripHtml(s) == s
    decreases |s|
  {
    if |s| > 0 {
      StripHtmlNoAngle(s[1..]);
    }
  }

  /** Stripping is idempotent: no tag survives the first pass. */
  lemma {:induction false} StripHtmlIdempotent(s: string)
    ensures StripHtml(StripHtml(s)) == StripHtml(s)
  {
    StripHtmlTagless(StripHtml(s));
  }

  lemma {:induction false} StripHtmlTagless(s: string)
    requires NoTag(s)
    ensures StripHtml(s) == s
    decreases |s|
  {
    if |s| > 0 {
      NoTagTail(s);
      StripHtmlTagless(s[1..]);
      assert [s[0]] + s[1..] == s;
    }
  }

  /** Text without `<` ahead of the rest is kept as it is. */
  lemma {:induction false} StripHtmlPlainPrefix(a: string, b: string)
    requires '<' !in a
    ensures StripHtml(a + b) == a + StripHtml(b)
    decreases |a|
  {
    if |a| == 0 {
      assert a + b == b;
    } else {
      ConsApart(a, b);
      assert '<' !in a[1..];
      StripHtmlPlainPrefix(a[1..], b);
      Assoc([a[0]], a[1..], StripHtml(b));
    }
  }

  /** A tag at the front is dropped with everything between its brackets. */
  lemma StripHtmlTagHead(t: string, b: string)
    requires '>' !in t
    ensures StripHtml("<" + t + ">" + b) == StripHtml(b)
  {
    var s := "<" + t + ">" + b;
    assert s[1..] == t + ">" + b;
    assert s[1..][|t|] == '>';
    var j := IndexOf(s[1..], '>');
    assert s[1..][..|t|] == t;
    assert j == Some(|t|);
    assert s[|t| + 2..] == b;
  }

  /** A tag after plain text: the text stays, the tag goes, the rest is stripped. */
  lemma StripHtmlTag(a: string, t: string, b: string)
    requires '<' !in a && '>' !in t
    ensures StripHtml(a + "<" + t + ">" + b) == a + StripHtml(b)
  {
    Regroup(a, "<", t, ">", b);
    StripHtmlPlainPrefix(a, "<" + t + ">" + b);
    StripHtmlTagHead(t, b);
  }

  /** Without a `>` nothing is a tag, so the string is kept whole. */
  lemma {:induction false} StripHtmlNoClose(s: string)
    requires '>' !in s
    ensures StripHtml(s) == s
    decreases |s|
  {
    if |s| > 0 {
      assert '>' !in s[1..];
      StripHtmlNoClose(s[1..]);
      assert [s[0]] + s[1..] == s;
    }
  }

  /** A `<` that no `>` follows is kept, and so is everything after it. */
  lemma StripHtmlUnclosed(a: string, t: string)
    requires '<' !in a && '>' !in t
    ensures StripHtml(a + "<" + t) == a + "<" + t
  {
    StripHtmlPlainPrefix(a, "<" + t);
    assert '>' !in "<" + t;
    StripHtmlNoClose("<" + t);
    Assoc(a, "<", t);
  }

  lemma NoTagTail(s: string)
    requires |s| > 0 && NoTag(s)
    ensures NoTag(s[1..])
    ensures s[0] == '<' ==> '>' !in s[1..]
  {
    var t := s[1..];
    forall i, j | 0 <= i < j < |t| && t[i] == '<'
      ensures t[j] != '>'
    {
      assert t[i] == s[i + 1] && t[j] == s[j + 1];
    }
    if s[0] == '<' {
      forall k | 0 <= k < |t| ensures t[k] != '>' {
        assert t[k] == s[k + 1];
      }
    }
  }

  /** The characters `.*+?^${}()|[]\` that `escapeRegExp` escapes. */
  predicate RegExpSpecial(c: char)
  {
    c in ".*+?^${}()|[]\\"
  }

  /** `StringUtils.escapeRegExp`: a backslash before each special character. */
  function EscapeRegExp(s: string): (r: string)
    ensures |r| == |s| + |Filter(s, RegExpSpecial)|
  {
    if |s| == 0 then ""
    else
      FilterConcat([s[0]], s[1..], RegExpSpecial);
      assert [s[0]] + s[1..] == s;
      (if RegExpSpecial(s[0]) then ['\\', s[0]] else [s[0]]) + EscapeRegExp(s[1..])
  }

  /** Reading an escaped pattern back: a backslash stands for the character after it. */
  function UnescapeRegExp(t: string): string
    decreases |t|
  {
    if |t| == 0 then ""
    else if t[0] == '\\' && |t| >= 2 then [t[1]] + UnescapeRegExp(t[2..])
    else [t[0]] + UnescapeRegExp(t[1..])
  }

  /** Escaping loses nothing: the original string is recovered. */
  lemma {:induction false} EscapeRegExpRoundTrip(s: string)
    ensures UnescapeRegExp(EscapeRegExp(s)) == s
  {
    if |s| > 0 {
      EscapeRegExpRoundTrip(s[1..]);
      var rest := EscapeRegExp(s[1..]);
      if RegExpSpecial(s[0]) {
        assert (['\\', s[0]] + rest)[2..] == rest;
      } else {
        assert ([s[0]] + rest)[1..] == rest;
      }
    }
  }

  /** A string without special characters is left alone. */
  lemma {:induction false} EscapeRegExpPlain(s: string)
    requires forall i :: 0 <= i < |s| ==> !RegExpSpecial(s[i])
    ensures EscapeRegExp(s) == s
  {
    if |s| > 0 { EscapeRegExpPlain(s[1..]); }
  }

  /** One character is escaped on its own: a backslash goes before a special one. */
  lemma EscapeRegExpChar(c: char)
    ensures EscapeRegExp([c]) == if RegExpSpecial(c) then ['\\', c] else [c]
  {
    assert [c][1..] == "";
  }

  /** Escaping works character by character, so it distributes over concatenation. */
  lemma {:induction false} EscapeRegExpConcat(a: string, b: string)
    ensures EscapeRegExp(a + b) == EscapeRegExp(a) + EscapeRegExp(b)
    decreases |a|
  {
    if |a| == 0 {
      assert a + b == b;
    } else {
      ConsApart(a, b);
      EscapeRegExpConcat(a[1..], b);
      var h := if RegExpSpecial(a[0]) then ['\\', a[0]] else [a[0]];
      assert EscapeRegExp(a + b) == h + EscapeRegExp(a[1..] + b);
      Assoc(h, EscapeRegExp(a[1..]), EscapeRegExp(b));
    }
  }

  /** The number of leading decimal digits of `s`. */
  function DigitRun(s: string): (n: nat)
    ensures n <= |s| && AllDigits(s[..n])
    ensures n < |s| ==> !IsDigit(s[n])
  {
    if |s| > 0 && IsDigit(s[0]) then
      var n := 1 + DigitRun(s[1..]);
      assert s[..n] == [s[0]] + s[1..][..n - 1];
      n
    else 0
  }

  /** The digit count `d` when `t` starts with the placeholder `{d digits}`. */
  function Placeholder(t: string): (r: Option<nat>)
    ensures r.Some? ==> (0 < r.value && r.value + 2 <= |t| && t[0] == '{' &&
      AllDigits(t[1..r.value + 1]) && t[r.value + 1] == '}')
  {
    if |t| > 0 && t[0] == '{' then
      var d := DigitRun(t[1..]);
      if d > 0 && d + 1 < |t| && t[d + 1] == '}' then
        assert t[1..d + 1] == t[1..][..d];
        Some(d)
      else None
    else None
  }

  /** `args[index]` for the digit string `index`: defined only for a canonical index. */
  function Arg(args: seq<Option<Value>>, index: string): Option<Value>
  {
    match CanonicalIndex(index)
    case Some(n) => if n < |args| then args[n] else None
    case None => None
  }

  /**
   * `StringUtils.format(template, ...args)`: each `{n}` whose argument is defined becomes
   * `String(args[n])`; any other placeholder is kept verbatim.
   */
  function Format(template: string, args: seq<Option<Value>>): string
    decreases |template|
  {
    if |template| == 0 then ""
    else
      match Placeholder(template)
      case Some(d) =>
        var index := template[1..d + 1];
        (match Arg(args, index)
         case Some(v) => ToJsString(v)
         case None => template[..d + 2]) + Format(template[d + 2..], args)
      case None => [template[0]] + Format(template[1..], args)
  }

  /** Without arguments every placeholder stays: the template comes back unchanged. */
  lemma {:induction false} FormatNoArgs(template: string)
    ensures Format(template, []) == template
    decreases |template|
  {
    if |template| > 0 {
      match Placeholder(template)
      case Some(d) =>
        FormatNoArgs(template[d + 2..]);
        assert template[..d + 2] + template[d + 2..] == template;
      case None =>
        FormatNoArgs(template[1..]);
        assert [template[0]] + template[1..] == template;
    }
  }

  /** A template with no `{digits}` anywhere is returned unchanged, whatever the arguments. */
  lemma {:induction false} FormatNoPlaceholder(template: string, args: seq<Option<Value>>)
    requires forall i :: 0 <= i < |template| ==> Placeholder(template[i..]).None?
    ensures Format(template, args) == template
    decreases |template|
  {
    if |template| > 0 {
      assert Placeholder(template[0..]).None?;
      assert template[0..] == template;
      forall i | 0 <= i < |template[1..]|
        ensures Placeholder(template[1..][i..]).None?
      {
        assert template[1..][i..] == template[i + 1..];
      }
      FormatNoPlaceholder(template[1..], args);
      assert [template[0]] + template[1..] == template;
    }
  }

  /** `{n}` with a defined argument `n` becomes the argument's string form. */
  lemma FormatOne(n: nat, args: seq<Option<Value>>)
    requires n < |args| && args[n].Some?
    ensures Format("{" + NatToString(n) + "}", args) == ToJsString(args[n].value)
  {
    var ds := NatToString(n);
    var t := "{" + ds + "}";
    assert t[1..] == ds + "}";
    DigitRunExact(ds, "}");
    assert t[1..|ds| + 1] == ds;
    IndexKey(n);
    assert t[|ds| + 2..] == "";
  }

  /** Literal text without a `{` is copied as it is. */
  lemma {:induction false} FormatPlainPrefix(p: string, q: string, args: seq<Option<Value>>)
    requires '{' !in p
    ensures Format(p + q, args) == p + Format(q, args)
    decreases |p|
  {
    if |p| > 0 {
      ConsApart(p, q);
      FormatPlainCons(p[0], p[1..] + q, args);
      FormatPlainPrefix(p[1..], q, args);
      ConsApart(p, Format(q, args));
    } else {
      assert p + q == q;
    }
  }

  lemma FormatPlainCons(c: char, rest: string, args: seq<Option<Value>>)
    requires c != '{'
    ensures Format([c] + rest, args) == [c] + Format(rest, args)
  {
    assert ([c] + rest)[1..] == rest;
  }

  /**
   * Each `{n}` in a template, wherever it stands, becomes the string form of a defined
   * argument `n` and is otherwise kept verbatim; the rest of the template is formatted on.
   */
  lemma FormatPlaceholder(p: string, n: nat, q: string, args: seq<Option<Value>>)
    requires '{' !in p
    ensures Format(p + "{" + NatToString(n) + "}" + q, args) ==
      p + (if n < |args| && args[n].Some? then ToJsString(args[n].value) else "{" + NatToString(n) + "}") +
      Format(q, args)
  {
    var ds := NatToString(n);
    var t := "{" + ds + "}" + q;
    Regroup(p, "{", ds, "}", q);
    FormatPlainPrefix(p, t, args);
    FormatHead(n, q, args);
    var x := if n < |args| && args[n].Some? then ToJsString(args[n].value) else "{" + ds + "}";
    Assoc(p, x, Format(q, args));
  }

  lemma Regroup(p: string, a: string, b: string, c: string, q: string)
    ensures p + a + b + c + q == p + (a + b + c + q)
  {
  }

  lemma Assoc(a: string, b: string, c: string)
    ensures a + (b + c) == a + b + c
  {
  }

  lemma FormatHead(n: nat, q: string, args: seq<Option<Value>>)
    ensures Format("{" + NatToString(n) + "}" + q, args) ==
      (if n < |args| && args[n].Some? then ToJsString(args[n].value) else "{" + NatToString(n) + "}") +
      Format(q, args)
  {
    FormatDigitsHead(NatToString(n), q, args);
    ArgAt(args, n);
  }

  /** A leading `{digits}` is replaced by the argument it names, or kept when there is none. */
  lemma FormatDigitsHead(ds: string, q: string, args: seq<Option<Value>>)
    requires ds != "" && AllDigits(ds)
    ensures Format("{" + ds + "}" + q, args) ==
      (match Arg(args, ds) case Some(v) => ToJsString(v) case None => "{" + ds + "}") + Format(q, args)
  {
    var t := "{" + ds + "}" + q;
    PlaceholderOf(ds, q);
    FormatAtPlaceholder(t, |ds|, args);
    assert t[1..|ds| + 1] == ds;
    assert t[..|ds| + 2] == "{" + ds + "}";
    assert t[|ds| + 2..] == q;
  }

  lemma FormatAtPlaceholder(t: string, d: nat, args: seq<Option<Value>>)
    requires Placeholder(t) == Some(d)
    ensures Format(t, args) ==
      (match Arg(args, t[1..d + 1]) case Some(v) => ToJsString(v) case None => t[..d + 2]) +
      Format(t[d + 2..], args)
  {
  }

  /** The canonical index string of `n` reads argument `n`. */
  lemma ArgAt(args: seq<Option<Value>>, n: nat)
    ensures Arg(args, NatToString(n)) == if n < |args| then args[n] else None
  {
    IndexKey(n);
  }

  lemma PlaceholderOf(ds: string, q: string)
    requires ds != "" && AllDigits(ds)
    ensures Placeholder("{" + ds + "}" + q) == Some(|ds|)
  {
    var t := "{" + ds + "}" + q;
    assert t[1..] == ds + ("}" + q);
    DigitRunExact(ds, "}" + q);
    assert t[|ds| + 1] == '}';
  }

  lemma {:induction false} DigitRunExact(ds: string, rest: string)
    requires AllDigits(ds) && (rest == "" || !IsDigit(rest[0]))
    ensures DigitRun(ds + rest) == |ds|
  {
    if |ds| > 0 {
      assert (ds + rest)[1..] == ds[1..] + rest;
      DigitRunExact(ds[1..], rest);
    } else {
      assert ds + rest == rest;
    }
  }
}
