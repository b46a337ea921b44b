/**
 * `ValidationUtils`: the regular-expression validators, the Luhn credit-card check, the
 * password-strength check and the emptiness tests on JavaScript values.
 */
module Validation {
  import opened Wrappers
  import opened Json
  import opened Text

  // ---------------------------------------------------------------------------------------
  // isValidEmail
  // ---------------------------------------------------------------------------------------

  /** A character of the class `[^\s@]`. */
  predicate EmailChar(c: char) { !IsWhitespace(c) && c != '@' }

  /**
   * `s` matches `^[^\s@]+@[^\s@]+\.[^\s@]+$` with the `@` at `i` and the separating dot
   * at `j`.
   */
  predicate EmailSplit(s: string, i: int, j: int)
  {
    0 < i && i + 1 < j && j + 1 < |s| && s[i] == '@' && s[j] == '.' &&
    forall k :: 0 <= k < |s| && k != i ==> EmailChar(s[k])
  }

  /** `ValidationUtils.isValidEmail`. */
  function IsValidEmail(s: string): (r: bool)
    ensures r ==> NoWhitespace(s) && |s| >= 5
  {
    if s == "" || !NoWhitespace(s) then false
    else
      match IndexOf(s, '@')
      case None => false
      case Some(i) =>
        0 < i && '@' !in s[i + 1..] && exists j :: i + 1 < j < |s| - 1 && s[j] == '.'
  }

  /** The executable check accepts exactly the strings the regular expression matches. */
  lemma EmailIff(s: string)
    ensures IsValidEmail(s) <==> exists i, j :: EmailSplit(s, i, j)
  {
    if IsValidEmail(s) {
      var i := IndexOf(s, '@').value;
      var j :| i + 1 < j < |s| - 1 && s[j] == '.';
      forall k | 0 <= k < |s| && k != i
        ensures EmailChar(s[k])
      {
        if k < i { assert s[k] in s[..i]; } else { assert s[k] == s[i + 1..][k - i - 1]; }
      }
      assert EmailSplit(s, i, j);
    }
    if exists i, j :: EmailSplit(s, i, j) {
      var i, j :| EmailSplit(s, i, j);
      assert s[i] == '@';
      var f := IndexOf(s, '@').value;
      assert s[f] == '@';
      assert f == i;
      forall k | i + 1 <= k < |s| ensures s[k] != '@' {
        assert EmailChar(s[k]);
      }
      assert '@' !in s[i + 1..];
      forall k | 0 <= k < |s| ensures !IsWhitespace(s[k]) {
        if k != i { assert EmailChar(s[k]); }
      }
    }
  }

  // ---------------------------------------------------------------------------------------
  // isValidPhone
  // ---------------------------------------------------------------------------------------

  /** A character of the class `[0-9\s\-\(\)\+]`. */
  predicate PhoneChar(c: char)
  {
    IsDigit(c) || IsWhitespace(c) || c == '-' || c == '(' || c == ')' || c == '+'
  }

  /** `ValidationUtils.isValidPhone`: only phone characters, and at least seven digits. */
  function IsValidPhone(s: string): (r: bool)
    ensures r ==> |s| >= 7
  {
    s != "" && (forall i :: 0 <= i < |s| ==> PhoneChar(s[i])) && |Filter(s, IsDigit)| >= 7
  }

  /** Inserting a space, dash, parenthesis or plus sign never changes the verdict. */
  lemma PhoneSeparator(a: string, c: char, b: string)
    requires PhoneChar(c) && !IsDigit(c)
    ensures IsValidPhone(a + [c] + b) == IsValidPhone(a + b)
  {
    DigitsSkipSeparator(a, c, b);
    PhoneCharsInsert(a, c, b);
  }

  lemma DigitsSkipSeparator(a: string, c: char, b: string)
    requires !IsDigit(c)
    ensures Filter(a + [c] + b, IsDigit) == Filter(a + b, IsDigit)
  {
    FilterConcat(a + [c], b, IsDigit);
    FilterConcat(a, [c], IsDigit);
    FilterConcat(a, b, IsDigit);
    assert Filter([c], IsDigit) == [];
  }

  lemma PhoneCharsInsert(a: string, c: char, b: string)
    requires PhoneChar(c)
    ensures var s, t := a + [c] + b, a + b;
      (forall i :: 0 <= i < |s| ==> PhoneChar(s[i])) <==> (forall i :: 0 <= i < |t| ==> PhoneChar(t[i]))
  {
    var s, t := a + [c] + b, a + b;
    if forall i :: 0 <= i < |t| ==> PhoneChar(t[i]) {
      forall i | 0 <= i < |s| ensures PhoneChar(s[i]) {
        if i < |a| { assert s[i] == t[i]; } else if i > |a| { assert s[i] == t[i - 1]; }
      }
    }
    if forall i :: 0 <= i < |s| ==> PhoneChar(s[i]) {
      forall i | 0 <= i < |t| ensures PhoneChar(t[i]) {
        if i < |a| { assert s[i] == t[i]; } else { assert s[i + 1] == t[i]; }
      }
    }
  }

  // ---------------------------------------------------------------------------------------
  // isValidCreditCard
  // ---------------------------------------------------------------------------------------

  /** The characters `cardNumber.replace(/[\s-]/g, '')` removes. */
  predicate CardSeparator(c: char) { IsWhitespace(c) || c == '-' }

  predicate NotCardSeparator(c: char) { !CardSeparator(c) }

  /** The card number with spaces and dashes removed. */
  function Sanitize(s: string): (r: string)
    ensures forall i :: 0 <= i < |r| ==> !CardSeparator(r[i])
  {
    Filter(s, NotCardSeparator)
  }

  function DigitValue(c: char): nat
    requires IsDigit(c)
  {
    c as int - '0' as int
  }

  /** One Luhn term: the digit, or its double minus 9 when the double exceeds 9. */
  function LuhnTerm(d: nat, double: bool): (r: nat)
    requires d < 10
    ensures r < 10
  {
    if double then (if 2 * d > 9 then 2 * d - 9 else 2 * d) else d
  }

  /**
   * The Luhn sum of ISO/IEC 7812-1, Annex B: the digits are weighed from the right, every
   * second one doubled; `double` says whether the last digit of `s` is doubled.
   */
  function LuhnSum(s: string, double: bool): nat
    requires AllDigits(s)
  {
    if |s| == 0 then 0
    else LuhnTerm(DigitValue(s[|s| - 1]), double) + LuhnSum(s[..|s| - 1], !double)
  }

  /** `ValidationUtils.isValidCreditCard`. */
  function IsValidCreditCard(s: string): (r: bool)
    ensures s == "" ==> !r
    ensures !AllDigits(Sanitize(s)) ==> !r
    ensures |Sanitize(s)| < 13 || |Sanitize(s)| > 19 ==> !r
    ensures 13 <= |Sanitize(s)| <= 19 && AllDigits(Sanitize(s)) ==> (r <==> LuhnSum(Sanitize(s), false) % 10 == 0)
  {
    if s == "" then false
    else
      var t := Sanitize(s);
      if t == "" || !AllDigits(t) then false
      else if |t| < 13 || |t| > 19 then false
      else LuhnSum(t, false) % 10 == 0
  }

  /** The loop of `isValidCreditCard`, walking the digits from the right. */
  method CheckCreditCard(s: string) returns (ok: bool)
    ensures ok == IsValidCreditCard(s)
    ensures ok <==> 13 <= |Sanitize(s)| <= 19 && AllDigits(Sanitize(s)) && LuhnSum(Sanitize(s), false) % 10 == 0
  {
    if s == "" { return false; }
    var t := Sanitize(s);
    if t == "" || !AllDigits(t) { return false; }
    if |t| < 13 || |t| > 19 { return false; }
    var sum := 0;
    var double := false;
    var i := |t| - 1;
    assert t[..i + 1] == t;
    while i >= 0
      invariant -1 <= i < |t|
      invariant sum + LuhnSum(t[..i + 1], double) == LuhnSum(t, false)
      decreases i
    {
      var digit := t[i] as int - '0' as int;
      if double {
        digit := digit * 2;
        if digit > 9 { digit := digit - 9; }
      }
      assert t[..i + 1][..i] == t[..i];
      sum := sum + digit;
      double := !double;
      i := i - 1;
    }
    assert t[..0] == [];
    ok := sum % 10 == 0;
  }

  /** Spaces and dashes anywhere in the input never change the verdict. */
  lemma CreditCardSeparator(a: string, c: char, b: string)
    requires CardSeparator(c)
    ensures IsValidCreditCard(a + [c] + b) == IsValidCreditCard(a + b)
  {
    FilterConcat(a + [c], b, NotCardSeparator);
    FilterConcat(a, [c], NotCardSeparator);
    FilterConcat(a, b, NotCardSeparator);
    assert Filter([c], NotCardSeparator) == [];
    assert Sanitize(a + [c] + b) == Sanitize(a + b);
  }

  /** The Luhn sum of a concatenation: the parity of the right part fixes the left's weights. */
  lemma {:induction false} LuhnConcat(a: string, b: string, double: bool)
    requires AllDigits(a) && AllDigits(b)
    ensures AllDigits(a + b)
    ensures LuhnSum(a + b, double) == LuhnSum(b, double) + LuhnSum(a, if |b| % 2 == 0 then double else !double)
    decreases |b|
  {
    if |b| > 0 {
      var b0 := b[..|b| - 1];
      assert (a + b)[..|a + b| - 1] == a + b0;
      LuhnConcat(a, b0, !double);
    } else {
      assert a + b == a;
    }
  }

  /** Doubling with the subtraction of 9 permutes the digits, so distinct digits weigh differently. */
  lemma LuhnTermInjective(c: nat, d: nat, double: bool)
    requires c < 10 && d < 10 && c != d
    ensures LuhnTerm(c, double) != LuhnTerm(d, double)
  {
  }

  /** Replacing one digit of a valid card number by a different digit makes it invalid. */
  lemma CreditCardDigitChange(s: string, i: nat, c: char)
    requires i < |s| && IsDigit(s[i]) && IsDigit(c) && c != s[i]
    requires IsValidCreditCard(s)
    ensures !IsValidCreditCard(s[i := c])
  {
    var x, y := s[..i], s[i + 1..];
    assert s == x + [s[i]] + y;
    assert s[i := c] == x + [c] + y;
    SanitizeAround(x, s[i], y);
    SanitizeAround(x, c, y);
    LuhnChange(Sanitize(x), s[i], c, Sanitize(y));
  }

  lemma SanitizeAround(x: string, d: char, y: string)
    requires !CardSeparator(d)
    ensures Sanitize(x + [d] + y) == Sanitize(x) + [d] + Sanitize(y)
  {
    FilterConcat(x + [d], y, NotCardSeparator);
    FilterConcat(x, [d], NotCardSeparator);
    assert Filter([d], NotCardSeparator) == [d];
  }

  /** Two digit strings that differ in one digit have Luhn sums that differ modulo 10. */
  lemma LuhnChange(x: string, d: char, c: char, y: string)
    requires IsDigit(d) && IsDigit(c) && c != d
    requires AllDigits(x + [d] + y)
    ensures AllDigits(x + [c] + y)
    ensures LuhnSum(x + [d] + y, false) % 10 != LuhnSum(x + [c] + y, false) % 10
  {
    var t := x + [d] + y;
    assert AllDigits(x) && AllDigits(y) by {
      forall k | 0 <= k < |x| ensures IsDigit(x[k]) { assert x[k] == t[k]; }
      forall k | 0 <= k < |y| ensures IsDigit(y[k]) { assert y[k] == t[|x| + 1 + k]; }
    }
    var p := |y| % 2 != 0;
    LuhnAround(x, d, y);
    LuhnAround(x, c, y);
    var rest := LuhnSum(y, false) + LuhnSum(x, !p);
    var u, v := LuhnTerm(DigitValue(d), p), LuhnTerm(DigitValue(c), p);
    LuhnTermInjective(DigitValue(d), DigitValue(c), p);
    assert LuhnSum(x + [d] + y, false) == rest + u;
    assert LuhnSum(x + [c] + y, false) == rest + v;
    DigitsApartModulo(rest, u, v);
  }

  /** Adding two different digits to the same number leaves different last digits. */
  lemma DigitsApartModulo(n: nat, u: nat, v: nat)
    requires u < 10 && v < 10 && u != v
    ensures (n + u) % 10 != (n + v) % 10
  {
  }

  /** The weight of one digit depends only on how many digits follow it. */
  lemma LuhnAround(x: string, d: char, y: string)
    requires IsDigit(d) && AllDigits(x) && AllDigits(y)
    ensures AllDigits(x + [d] + y)
    ensures LuhnSum(x + [d] + y, false) ==
      LuhnSum(y, false) + LuhnTerm(DigitValue(d), |y| % 2 != 0) + LuhnSum(x, |y| % 2 == 0)
  {
    var p := |y| % 2 != 0;
    LuhnConcat(x + [d], y, false);
    LuhnConcat(x, [d], p);
    assert [d][..0] == [];
  }

  // ---------------------------------------------------------------------------------------
  // isStrongPassword
  // ---------------------------------------------------------------------------------------

  /** The options object; an absent (`undefined`) field takes its default. */
  datatype PasswordOptions = PasswordOptions(
    minLength: Option<int>,
    requireUppercase: Option<bool>,
    requireLowercase: Option<bool>,
    requireNumbers: Option<bool>,
    requireSpecialChars: Option<bool>)

  const NoOptions := PasswordOptions(None, None, None, None, None)

  predicate HasUpper(s: string) { exists i :: 0 <= i < |s| && IsUpper(s[i]) }
  predicate HasLower(s: string) { exists i :: 0 <= i < |s| && IsLower(s[i]) }
  predicate HasDigit(s: string) { exists i :: 0 <= i < |s| && IsDigit(s[i]) }
  /** `/[^A-Za-z0-9]/`. */
  predicate HasSpecial(s: string) { exists i :: 0 <= i < |s| && !IsAlnum(s[i]) }

  /** `ValidationUtils.isStrongPassword`. */
  function IsStrongPassword(pw: string, o: PasswordOptions): (r: bool)
    ensures pw == "" ==> !r
    ensures r ==> |pw| >= o.minLength.GetOr(8)
  {
    if pw == "" then false
    else if |pw| < o.minLength.GetOr(8) then false
    else if o.requireUppercase.GetOr(true) && !HasUpper(pw) then false
    else if o.requireLowercase.GetOr(true) && !HasLower(pw) then false
    else if o.requireNumbers.GetOr(true) && !HasDigit(pw) then false
    else if o.requireSpecialChars.GetOr(true) && !HasSpecial(pw) then false
    else true
  }

  /** With no options a password needs eight characters and all four character kinds. */
  lemma StrongPasswordDefaults(pw: string)
    ensures IsStrongPassword(pw, NoOptions) <==>
      |pw| >= 8 && HasUpper(pw) && HasLower(pw) && HasDigit(pw) && HasSpecial(pw)
  {
  }

  /** `weak` asks for no more than `strict`: a lower or equal length, no extra requirement. */
  predicate Relaxes(strict: PasswordOptions, weak: PasswordOptions)
  {
    weak.minLength.GetOr(8) <= strict.minLength.GetOr(8) &&
    (weak.requireUppercase.GetOr(true) ==> strict.requireUppercase.GetOr(true)) &&
    (weak.requireLowercase.GetOr(true) ==> strict.requireLowercase.GetOr(true)) &&
    (weak.requireNumbers.GetOr(true) ==> strict.requireNumbers.GetOr(true)) &&
    (weak.requireSpecialChars.GetOr(true) ==> strict.requireSpecialChars.GetOr(true))
  }

  /** Turning a requirement off or lowering the minimum length never rejects a strong password. */
  lemma StrongPasswordMonotone(pw: string, strict: PasswordOptions, weak: PasswordOptions)
    requires Relaxes(strict, weak)
    ensures IsStrongPassword(pw, strict) ==> IsStrongPassword(pw, weak)
  {
  }

  // ---------------------------------------------------------------------------------------
  // isAlpha, isAlphanumeric, isNumeric, isBoolean, isEmpty
  // ---------------------------------------------------------------------------------------

  /** `ValidationUtils.isAlphanumeric`: `^[A-Za-z0-9]+$`. */
  function IsAlphanumeric(s: string): (r: bool)
    ensures r ==> s != ""
  {
    s != "" && forall i :: 0 <= i < |s| ==> IsAlnum(s[i])
  }

  /** `ValidationUtils.isAlpha`: `^[A-Za-z]+$`. */
  function IsAlpha(s: string): (r: bool)
    ensures r ==> s != "" && IsAlphanumeric(s) && !IsNumeric(s)
  {
    if s == "" then false
    else
      assert IsLetter(s[0]) ==> !IsDigit(s[0]);
      forall i :: 0 <= i < |s| ==> IsLetter(s[i])
  }

  /** `ValidationUtils.isNumeric`: `^[0-9]+$`. */
  function IsNumeric(s: string): (r: bool)
    ensures r ==> s != "" && IsAlphanumeric(s)
  {
    s != "" && AllDigits(s)
  }

  /** `ValidationUtils.isBoolean` on a value that may be `undefined`. */
  function IsBoolean(v: Option<Value>): (r: bool)
    ensures r ==> v.Some? && (v.value.Bool? || v.value.Str?)
    ensures v.Some? && v.value.Bool? ==> r
    ensures v.Some? && v.value.Str? ==> (r <==> v.value.s == "true" || v.value.s == "false")
  {
    match v
    case Some(Bool(_)) => true
    case Some(Str(s)) => s == "true" || s == "false"
    case _ => false
  }

  /** Every boolean and its string form `String(b)` are recognised. */
  lemma BooleanStrings(b: bool)
    ensures IsBoolean(Some(Bool(b))) && IsBoolean(Some(Str(ToJsString(Bool(b)))))
  {
  }

  /** `ValidationUtils.isEmpty`. */
  function IsEmpty(v: Option<Value>): (r: bool)
    ensures v.None? || v == Some(Null) ==> r
    ensures v.Some? && v.value.Str? ==> (r <==> AllWhitespace(v.value.s))
    ensures v.Some? && IsObjectType(v.value) ==> (r <==> KeysOf(v.value) == [])
    ensures v.Some? && (v.value.Bool? || v.value.Int?) ==> !r
  {
    match v
    case None => true
    case Some(Null) => true
    case Some(Str(s)) => TrimEmptyIff(s); Trim(s) == ""
    case Some(Arr(es)) => |es| == 0
    case Some(Obj(props)) => |Keys(props)| == 0
    case Some(_) => false
  }

  /** `ValidationUtils.isNotEmpty`. */
  function IsNotEmpty(v: Option<Value>): (r: bool)
    ensures r <==> !IsEmpty(v)
    ensures v.Some? && v.value.Str? ==> (r <==> exists i :: 0 <= i < |v.value.s| && !IsWhitespace(v.value.s[i]))
  {
    !IsEmpty(v)
  }
}
