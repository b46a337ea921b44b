# Meowwright core, modelled in Dafny

Meowwright is a Playwright test-automation framework written in TypeScript. This project
models its pure core and proves properties about it:

- **Validation utilities:** e-mail, phone, credit-card (Luhn), password-strength, character-class
  and emptiness checks.
- **String utilities:** emptiness, truncate, capitalize, snake/kebab case, HTML stripping,
  regular-expression escaping and `{n}` templates.
- **URL utilities:** path segments, join, the fallback of normalize, and absolute and relative tests.
- **Object utilities:** dotted-path get/set/remove, pick/omit, flatten/unflatten, deep
  equality, groupBy and the stable sortBy.
- **Date utilities:** format tokens, whole-day difference and relative-time phrases.
- **Reporting:**
  - the reporter configuration merge;
  - the bookkeeping of the custom and enhanced HTML reporters: test registry, step lists, summary
    counters and error lists;
  - the JSON report entries;
  - HTML escaping and the reporter list.
- **Test data:**
  - the base factory's `createMany`/`mergeWithOverrides`;
  - the user and form factories;
  - the test-data fixture's `createUsers`/`createForm`/`createForms`.
- **Configuration manager:** the singleton, per-environment and per-browser configuration
  loading, the test-data cache, the getters with their defaults, and `getFullConfig`.
- **Volvo Penta shop page:**
  - reading the current location from the button, the URL, cookies and storage;
  - the UK check;
  - the two UK strategies and the retry routine of `changeLocationToUK`.
- **IP utilities:** choosing the local address, the public-IP verdict and the UK range fallback.

Representation choices:

- **JavaScript values** are `Json.Value`. An object is an ordered list of properties, so that
  key order (which decides flatten, groupBy and report output) is kept. `undefined` at an API
  boundary is `Option.None`.
- **Operations that can throw** return `Outcome` (`Ok` or `Throws`).
- **The outside world becomes parameters.** This covers file contents, environment variables,
  the clock, faker draws, a browser snapshot (what each Playwright read returns) and the
  geolocation API's response.

## Model

| member | source | states |
|---|---|---|
| Validation.EmailIff | Meowwright/utils/validation.utils.ts:10-14 | an address is accepted exactly when it has no whitespace and splits into a non-empty local part without '@', a single '@', and a domain with a dot that is neither first nor last |
| Validation.IsValidEmail | Meowwright/utils/validation.utils.ts:10-14 | an accepted address has no whitespace and at least five characters |
| Validation.IsValidPhone | Meowwright/utils/validation.utils.ts:36-41 | an accepted number is at least seven characters long |
| Validation.PhoneSeparator | Meowwright/utils/validation.utils.ts:36-41 | inserting a space, dash, parenthesis or plus sign anywhere never changes the verdict; only digits count towards the minimum |
| Validation.IsValidCreditCard | Meowwright/utils/validation.utils.ts:48-76 | the empty string, a number with a non-digit after removing spaces and dashes, and a length outside 13..19 are all rejected; a 13..19-digit number is accepted exactly when its Luhn sum is divisible by 10 |
| Validation.CheckCreditCard | Meowwright/utils/validation.utils.ts:48-77 | the loop over the digits from the right, doubling every second digit and subtracting 9 above 9, agrees with the functional definition, and accepts exactly the 13..19-digit numbers whose Luhn sum is divisible by 10 |
| Validation.CreditCardSeparator | Meowwright/utils/validation.utils.ts:49-52 | spaces and dashes anywhere in a card number never change the verdict |
| Validation.CreditCardDigitChange | Meowwright/utils/validation.utils.ts:61-76 | changing any single digit of an accepted card number makes it rejected (Luhn detects every single-digit error) |
| Validation.LuhnConcat | Meowwright/utils/validation.utils.ts:61-76 | the Luhn sum of a concatenation is the sum of the right part plus the left part with the doubling phase shifted by the right part's parity |
| Validation.IsStrongPassword | Meowwright/utils/validation.utils.ts:85-118 | the empty password is never strong, and a strong password meets the minimum length, 8 unless given |
| Validation.StrongPasswordDefaults | Meowwright/utils/validation.utils.ts:85-118 | with no options a password is strong exactly when it has at least 8 characters, an upper-case letter, a lower-case letter, a digit and a non-alphanumeric character |
| Validation.StrongPasswordMonotone | Meowwright/utils/validation.utils.ts:92-117 | relaxing options (shorter minimum, fewer required classes) never turns a strong password weak |
| Validation.IsAlpha | Meowwright/utils/validation.utils.ts:238-242 | an alphabetic string is non-empty, alphanumeric and not numeric |
| Validation.IsNumeric | Meowwright/utils/validation.utils.ts:260-264 | a numeric string is non-empty and alphanumeric |
| Validation.IsAlphanumeric | Meowwright/utils/validation.utils.ts:249-253 | an alphanumeric string is non-empty |
| Validation.IsBoolean | Meowwright/utils/validation.utils.ts:271-273 | every boolean is accepted, a string exactly when it is "true" or "false" (so "TRUE" and "yes" are not), and nothing else |
| Validation.BooleanStrings | Meowwright/utils/validation.utils.ts:271-273 | every boolean and its string form are accepted |
| Validation.IsEmpty | Meowwright/utils/validation.utils.ts:307-314 | null and undefined are empty; a string is empty iff it is all whitespace; an array or object iff it has no keys; numbers and booleans never |
| Validation.IsNotEmpty | Meowwright/utils/validation.utils.ts:321-323 | the exact negation of isEmpty; a string is non-empty iff it has a non-whitespace character |
| StringUtils.IsEmpty | Meowwright/utils/string.utils.ts:10-12 | null, undefined and all-whitespace strings are empty, and nothing else |
| StringUtils.IsNotEmpty | Meowwright/utils/string.utils.ts:19-21 | a string is non-empty iff it is present and has a non-whitespace character |
| StringUtils.Truncate | Meowwright/utils/string.utils.ts:30-34 | a short enough string is unchanged; a longer one becomes exactly maxLength characters: a prefix of the input followed by the ellipsis |
| StringUtils.TruncateIdempotent | Meowwright/utils/string.utils.ts:30-34 | truncating twice with the same arguments is the same as truncating once, for every maxLength and ellipsis |
| StringUtils.Capitalize | Meowwright/utils/string.utils.ts:41-44 | the length and everything after the first character are kept, and the first character is its ASCII upper case |
| Text.UpperChar | Meowwright/utils/string.utils.ts:43 | a lower-case ASCII letter maps to the upper-case letter 32 code points below it; every other character is unchanged |
| StringUtils.CapitalizeIdempotent | Meowwright/utils/string.utils.ts:41-44 | capitalizing twice is capitalizing once |
| StringUtils.ToSnakeCase | Meowwright/utils/string.utils.ts:65-71 | the result contains no whitespace and no upper-case letter, is empty exactly when the input is, and equals an input that has neither |
| StringUtils.ToKebabCase | Meowwright/utils/string.utils.ts:78-84 | the result contains no whitespace and no upper-case letter, is empty exactly when the input is, and equals an input that has neither |
| StringUtils.ToSnakeCaseWhitespace | Meowwright/utils/string.utils.ts:65-71 | a run of whitespace after a word becomes one '_', and the two sides convert on their own |
| StringUtils.ToSnakeCaseCamel | Meowwright/utils/string.utils.ts:65-71 | a lower-case letter followed by an upper-case one becomes the letter, '_', and the lower-cased second letter |
| StringUtils.ToSnakeCasePlain | Meowwright/utils/string.utils.ts:65-71 | any other non-whitespace character is lower-cased and kept; with the two lemmas above this fixes the result for every input |
| StringUtils.ToKebabCaseWhitespace | Meowwright/utils/string.utils.ts:78-84 | a run of whitespace after a word becomes one '-', and the two sides convert on their own |
| StringUtils.ToKebabCaseCamel | Meowwright/utils/string.utils.ts:78-84 | a lower-case letter followed by an upper-case one becomes the letter, '-', and the lower-cased second letter |
| StringUtils.ToKebabCasePlain | Meowwright/utils/string.utils.ts:78-84 | any other non-whitespace character is lower-cased and kept; with the two lemmas above this fixes the result for every input |
| StringUtils.ToSnakeCaseIdempotent | Meowwright/utils/string.utils.ts:65-71 | converting a snake_case result again changes nothing |
| StringUtils.ToKebabCaseIdempotent | Meowwright/utils/string.utils.ts:78-84 | converting a kebab-case result again changes nothing |
| StringUtils.StripHtml | Meowwright/utils/string.utils.ts:91-94 | the result contains no '<' ... '>' tag and only characters of the input |
| StringUtils.StripHtmlIdempotent | Meowwright/utils/string.utils.ts:91-94 | stripping twice is stripping once |
| StringUtils.StripHtmlTagless | Meowwright/utils/string.utils.ts:91-94 | a string without tags is returned unchanged |
| StringUtils.StripHtmlPlainPrefix | Meowwright/utils/string.utils.ts:91-94 | text without '<' in front of the rest is kept verbatim and only the rest is stripped |
| StringUtils.StripHtmlTag | Meowwright/utils/string.utils.ts:91-94 | a tag '<' ... '>' after plain text is removed with its contents, the text before it is kept, the text after it is stripped in turn |
| StringUtils.StripHtmlUnclosed | Meowwright/utils/string.utils.ts:91-94 | a '<' that no '>' follows is not a tag: it and everything after it are kept |
| StringUtils.StripHtmlNoClose | Meowwright/utils/string.utils.ts:91-94 | a string without '>' contains no tag and is returned unchanged |
| StringUtils.EscapeRegExp | Meowwright/utils/string.utils.ts:101-104 | the result is longer than the input by exactly the number of special characters |
| StringUtils.EscapeRegExpRoundTrip | Meowwright/utils/string.utils.ts:101-104 | removing the backslashes again gives back the input |
| StringUtils.EscapeRegExpPlain | Meowwright/utils/string.utils.ts:101-104 | a string without special characters is unchanged |
| StringUtils.EscapeRegExpChar | Meowwright/utils/string.utils.ts:101-104 | a regular-expression metacharacter (dot, star, plus, question mark, caret, dollar, braces, parentheses, bar, brackets, backslash) gets a backslash in front, every other character is copied |
| StringUtils.EscapeRegExpConcat | Meowwright/utils/string.utils.ts:101-104 | escaping a concatenation is concatenating the escapes, so with EscapeRegExpChar the result is fixed character by character |
| StringUtils.FormatNoArgs | Meowwright/utils/string.utils.ts:112-117 | with no arguments every placeholder is left as written |
| StringUtils.FormatNoPlaceholder | Meowwright/utils/string.utils.ts:112-117 | a template without placeholders is returned unchanged |
| StringUtils.FormatOne | Meowwright/utils/string.utils.ts:112-117 | the template "{n}" becomes the string form of argument n when it is defined |
| StringUtils.FormatPlaceholder | Meowwright/utils/string.utils.ts:112-117 | a `{n}` anywhere in a template, after text without '{', becomes the string form of argument n when that is defined and stays verbatim otherwise; the text before it is copied and the rest is formatted on |
| UrlUtils.GetPathSegments | Meowwright/utils/url.utils.ts:87-90 | the call throws iff parsing throws; the segments are non-empty and contain no slash |
| UrlUtils.PathSegmentsJoin | Meowwright/utils/url.utils.ts:87-90 | the segments of "/" followed by slash-joined clean segments are exactly those segments |
| UrlUtils.UrlJoin | Meowwright/utils/url.utils.ts:97-102 | the joined path neither starts nor ends with a slash, and no segments join to the empty string |
| UrlUtils.UrlJoinSnoc | Meowwright/utils/url.utils.ts:97-102 | each further segment is stripped of its leading and trailing slashes; if that leaves it empty it is dropped, else it is appended after one '/' (or alone when nothing came before) |
| UrlUtils.TrimSlashStart | Meowwright/utils/url.utils.ts:99 | the leading run of slashes is removed and nothing else: the result is a suffix, everything before it is '/', and it does not start with '/' |
| UrlUtils.TrimSlashEnd | Meowwright/utils/url.utils.ts:99 | the trailing run of slashes is removed and nothing else: the result is a prefix, everything after it is '/', and it does not end with '/' |
| UrlUtils.UrlJoinIdempotent | Meowwright/utils/url.utils.ts:97-102 | joining a joined path alone changes nothing |
| UrlUtils.UrlJoinSlashesOnly | Meowwright/utils/url.utils.ts:97-102 | segments made only of slashes join to the empty string |
| UrlUtils.Normalize | Meowwright/utils/url.utils.ts:109-129 | a parsable URL is returned as serialised by the parser; otherwise the result has no leading or trailing slash |
| UrlUtils.NormalizeRelativeSegments | Meowwright/utils/url.utils.ts:115-127 | the fallback's output, split on '/', is exactly the resolved segment list (empty and '.' dropped, '..' popping) |
| UrlUtils.NormalizeRelativeIdempotent | Meowwright/utils/url.utils.ts:115-127 | normalising a normalised relative path changes nothing |
| UrlUtils.IsAbsoluteIff | Meowwright/utils/url.utils.ts:156-158 | a URL is absolute iff it starts with "//" or with a run of ASCII letters followed by "://" |
| UrlUtils.SchemeIsAbsolute | Meowwright/utils/url.utils.ts:156-158 | any run of one or more ASCII letters followed by "://" starts an absolute URL |
| UrlUtils.BrokenSchemeNotAbsolute | Meowwright/utils/url.utils.ts:156-158 | letters broken by a character that is neither a letter nor ':' do not start an absolute URL |
| UrlUtils.IsRelative | Meowwright/utils/url.utils.ts:165-167 | relative is exactly not absolute |
| UrlUtils.ToAbsolute | Meowwright/utils/url.utils.ts:175-178 | an absolute URL is returned as is; a relative one is resolved against the base, including the resolution's failure |
| ObjectPaths.GetByPath | Meowwright/utils/object.utils.ts:93-107 | a falsy object or empty path yields the default; any other answer is the non-null value found by walking the dotted keys |
| ObjectPaths.GetByPathBrokenPath | Meowwright/utils/object.utils.ts:99-104 | when the walk reaches a primitive before the last key, the default is returned |
| ObjectPaths.SetByPath | Meowwright/utils/object.utils.ts:116-132 | a falsy object or empty path is returned unchanged; a truthy primitive throws a TypeError |
| ObjectPaths.SetThenGet | Meowwright/utils/object.utils.ts:116-132 | after a successful set, reading the same path gives the value set |
| ObjectPaths.SetByPathKeepsOthers | Meowwright/utils/object.utils.ts:116-132 | paths that branch away from the set path read the same before and after |
| ObjectPaths.SetByPathCompletes | Meowwright/utils/object.utils.ts:122-130 | on an object with no arrays inside, setting any path succeeds, creating the missing intermediate objects |
| ObjectPaths.RemoveByPath | Meowwright/utils/object.utils.ts:140-156 | a falsy object or empty path is returned unchanged |
| ObjectPaths.RemoveThenGet | Meowwright/utils/object.utils.ts:140-156 | after a successful remove, reading the path gives the default |
| ObjectPaths.RemoveByPathBroken | Meowwright/utils/object.utils.ts:146-152 | when the path does not lead to an object holding the last key, the object is returned unchanged |
| ObjectRecords.Pick | Meowwright/utils/object.utils.ts:164-171 | a key reads as in the source when it was picked and is absent otherwise |
| ObjectRecords.Omit | Meowwright/utils/object.utils.ts:179-186 | an omitted key is absent and every other key reads as in the source |
| ObjectRecords.IsEqual | Meowwright/utils/object.utils.ts:229-248 | non-objects are compared by identity; objects with a different number of keys are never equal |
| ObjectRecords.IsEqualReflexive | Meowwright/utils/object.utils.ts:229-248 | every value is deeply equal to itself |
| ObjectRecords.IsEqualSymmetric | Meowwright/utils/object.utils.ts:229-248 | on objects without duplicate keys deep equality does not depend on argument order |
| ObjectRecords.KeysEqualIff | Meowwright/utils/object.utils.ts:240-247 | the key loop succeeds iff every key of the first object is a key of the second with a deeply equal value |
| ObjectFlatten.Flatten | Meowwright/utils/object.utils.ts:194-206 | every flattened value is a leaf: a primitive, an array or an empty object |
| ObjectFlatten.Unflatten | Meowwright/utils/object.utils.ts:213-221 | a successful unflatten builds an object |
| ObjectFlatten.UnflattenFlatten | Meowwright/utils/object.utils.ts:194-221 | for objects whose keys contain no '.' and are not empty, unflatten(flatten(o)) rebuilds o exactly |
| ObjectFlatten.UnflattenFlattenIsEqual | Meowwright/utils/object.utils.ts:194-248 | for the same objects the round trip is deeply equal to the input by isEqual |
| ObjectFlatten.FlattenRender | Meowwright/utils/object.utils.ts:194-206 | flatten lists every leaf once, keyed by its dotted path, in enumeration order |
| ObjectFlatten.JoinInjective | Meowwright/utils/object.utils.ts:196 | distinct paths of clean keys give distinct dotted keys |
| ObjectCollections.GroupBy | Meowwright/utils/object.utils.ts:256-265 | grouping fails exactly on a null item or a group name that is an inherited Object property; a result has distinct group names |
| ObjectCollections.GroupByGroups | Meowwright/utils/object.utils.ts:256-265 | each group holds exactly the items with that group name, in input order, and there is no empty group |
| ObjectCollections.MembersBelong | Meowwright/utils/object.utils.ts:256-265 | every grouped item comes from the input and has that group's name |
| ObjectCollections.MembersComplete | Meowwright/utils/object.utils.ts:256-265 | every input item lands in its group |
| ObjectCollections.GroupBySizes | Meowwright/utils/object.utils.ts:256-265 | the group sizes add up to the number of items |
| ObjectCollections.SortBy | Meowwright/utils/object.utils.ts:274-280 | the call throws exactly when a null is compared; otherwise the result is a permutation of the input |
| ObjectCollections.SortByOrdered | Meowwright/utils/object.utils.ts:274-280 | when the key values are all numbers or all strings the result is ordered by the comparator |
| ObjectCollections.SortByStable | Meowwright/utils/object.utils.ts:274-280 | items with equal key values keep their input order |
| ObjectCollections.Compare | Meowwright/utils/object.utils.ts:275-279 | the comparator returns -1, 0 or 1: 0 iff neither key is less, negative iff the first comes first in the chosen direction |
| ObjectCollections.CompareAntisymmetric | Meowwright/utils/object.utils.ts:275-279 | swapping the arguments negates the comparison |
| DateUtils.FormatDate | Meowwright/utils/date.utils.ts:11-14 | a non-Date formats to the empty string |
| DateUtils.FormatDefault | Meowwright/utils/date.utils.ts:11-31 | the default format gives the year, a two-digit month counted from 1 and a two-digit day, separated by dashes |
| DateUtils.FormatDefaultLength | Meowwright/utils/date.utils.ts:11-31 | a four-digit year formats to ten characters by default |
| DateUtils.FieldWidths | Meowwright/utils/date.utils.ts:15-20 | each padded field has its width and parses back to the field's value |
| DateUtils.FormatFullYear | Meowwright/utils/date.utils.ts:23 | "YYYY" alone is the full year |
| DateUtils.FormatShortYear | Meowwright/utils/date.utils.ts:24-25 | "YY" is the last two digits of the year |
| DateUtils.FormatTokenFree | Meowwright/utils/date.utils.ts:11-31 | a format without token letters is returned unchanged |
| DateUtils.DiffInDays | Meowwright/utils/date.utils.ts:75-78 | the result is the least number of whole days covering the distance; it is 0 iff the instants coincide |
| DateUtils.LargestUnit | Meowwright/utils/date.utils.ts:151-177 | the chosen unit is the largest whose count is positive, and the count is the truncated quotient |
| DateUtils.RelativeTime | Meowwright/utils/date.utils.ts:151-179 | a past date reads "... ago" and any other reads "in ..."; the count is of the largest unit that fits the distance (years of 12 months, months of 30 days), seconds when nothing larger fits |
| DateUtils.LargestUnitFits | Meowwright/utils/date.utils.ts:155-177 | the unit chosen is reached by the distance (unless it is seconds) and the next larger unit is not |
| DateUtils.Phrase | Meowwright/utils/date.utils.ts:155-177 | past and future framing are told apart by the text, and the plural 's' appears iff the count is not 1 |
| ReporterConfig.DefaultReporterConfig | Meowwright/utils/reporting/reporter-config.ts:67-79 | the defaults turn on html, screenshots, videos, steps and console logs, and turn off json, junit, allure and network data; outputDir is a normal absolute path whose segments are those of the working directory followed by playwright-report |
| ReporterConfig.JoinPath | Meowwright/utils/reporting/reporter-config.ts:68 | `path.join` of a normal absolute directory and one segment is in normal form and adds exactly that segment, so joining onto "/" gives "/playwright-report" |
| ReporterConfig.GetReporterConfig | Meowwright/utils/reporting/reporter-config.ts:86-91 | each option given overrides the default and each option missing keeps it |
| ReporterConfig.EmptyOverridesDefaults | Meowwright/utils/reporting/reporter-config.ts:86-91 | an empty override object gives the defaults |
| ReporterConfig.GetReporterConfigIdempotent | Meowwright/utils/reporting/reporter-config.ts:86-91 | merging a merged configuration again changes nothing |
| Reporters.GetAllReporters | Meowwright/utils/reporting/index.ts:20-46 | the list has the custom and enhanced reporters always, the built-in html, junit and allure ones exactly when enabled, in that order |
| Reporters.DefaultReporters | Meowwright/utils/reporting/index.ts:51 | the default list is the built-in html, the custom and the enhanced reporter |
| TestRun.Find | Meowwright/utils/reporting/custom-reporter.ts:15 | a test is found iff it was registered, with the record registered for it |
| TestRun.SetInfo | Meowwright/utils/reporting/custom-reporter.ts:53-61 | the record for the id is replaced or appended and every other test is untouched |
| TestRun.OnTestBegin | Meowwright/utils/reporting/enhanced-html-reporter.ts:55-63 | the test is registered with its title, no result and no steps; other tests, counters and errors are unchanged |
| TestRun.OnStepBegin | Meowwright/utils/reporting/enhanced-html-reporter.ts:65-73 | with steps enabled a known test gets the step appended; otherwise nothing changes |
| TestRun.OnTestEnd | Meowwright/utils/reporting/enhanced-html-reporter.ts:81-111 | total goes up by one, the counters stay consistent, and the result is stored for a known test |
| TestRun.ReplayCounts | Meowwright/utils/reporting/enhanced-html-reporter.ts:88-93 | after any event history each counter equals the number of test ends with that status (timed-out counts as failed, a passed retry as flaky) |
| TestRun.ReplayConsistent | Meowwright/utils/reporting/custom-reporter.ts:86-91 | passed + failed + skipped never exceeds total, and flaky never exceeds passed |
| TestRun.ReplayErrors | Meowwright/utils/reporting/enhanced-html-reporter.ts:101-110 | a test's error list is exactly the errors of its failed ends, in order |
| TestRun.ReplayNoSteps | Meowwright/utils/reporting/custom-reporter.ts:63-71 | with steps disabled no test ever records a step |
| HtmlReport.EscapeHtmlRoundTrip | Meowwright/utils/reporting/enhanced-html-reporter.ts:429-436 | unescaping the five entities gives back the input, and the output has no '<', '>', '"' or "'" |
| HtmlReport.EscapeHtmlConcat | Meowwright/utils/reporting/enhanced-html-reporter.ts:429-436 | escaping works character by character: escaping a concatenation is concatenating the escapes |
| HtmlReport.EscapeHtmlPlain | Meowwright/utils/reporting/enhanced-html-reporter.ts:429-436 | text without special characters is unchanged |
| HtmlReport.EncodeAmpersands | Meowwright/utils/reporting/enhanced-html-reporter.ts:430 | every '&' in the output starts one of the five entities |
| HtmlReport.CardStatus | Meowwright/utils/reporting/enhanced-html-reporter.ts:137 | a test without a result shows 'unknown', otherwise its status name |
| HtmlReport.CardRetries | Meowwright/utils/reporting/enhanced-html-reporter.ts:216 | a test without a result shows 0 retries, otherwise its retry number |
| CustomReport.Entry | Meowwright/utils/reporting/custom-reporter.ts:136-146 | an entry copies id, title and errors; a missing result gives status 'unknown', duration 0 and retry 0 |
| CustomReport.GenerateCustomReport | Meowwright/utils/reporting/custom-reporter.ts:124-150 | a JSON report is produced iff json is enabled; it carries the summary and one entry per test in registration order |
| CustomReport.ReportSummary | Meowwright/utils/reporting/custom-reporter.ts:79-150 | the report's summary counts the test ends of the run by status and is consistent |
| Factories.MergeWithOverrides | Meowwright/test-data/factories/base.factory.ts:30-32 | without overrides the defaults are kept; with them each key reads from the overrides when given, else from the defaults |
| Factories.CreateMany | Meowwright/test-data/factories/base.factory.ts:20-22 | count items (none for a negative count), the i-th made by the factory for index i |
| Factories.CreateUser | Meowwright/test-data/factories/user.factory.ts:13-29 | every key reads from the overrides when given, else from the generated defaults |
| Factories.CreateUserDefaults | Meowwright/test-data/factories/user.factory.ts:13-29 | a default user is an active 'standard' user with empty metadata and the drawn username |
| Factories.CreateUserOverrides | Meowwright/test-data/factories/user.factory.ts:13-29 | an overridden key reads the override |
| Factories.SpecialisedUsers | Meowwright/test-data/factories/user.factory.ts:36-65 | admin, restricted and inactive users preset role or isActive, a caller's override still wins, and other keys keep their defaults |
| Factories.PresetKeys | Meowwright/test-data/factories/user.factory.ts:36-41 | the preset object holds its key plus exactly the caller's override keys |
| Factories.FormRecord | Meowwright/test-data/factories/form.factory.ts:13-29 | a form has distinct keys and carries its type, fields, required flag and empty metadata |
| Factories.FormDefaults | Meowwright/test-data/factories/form.factory.ts:13-110 | each form kind has its formType, its required flag and exactly its field names in order |
| Factories.FieldsOverrideIsShallow | Meowwright/test-data/factories/form.factory.ts:67-84 | an override of fields replaces the whole fields object rather than merging into it |
| Factories.RegistrationFields | Meowwright/test-data/factories/form.factory.ts:36-60 | the registration form has its eleven fields in order |
| Factories.TextBoxFields | Meowwright/test-data/factories/form.factory.ts:67-84 | the text-box form has its four fields in order |
| Factories.WebTablesFields | Meowwright/test-data/factories/form.factory.ts:91-110 | the web-tables form has its six fields in order |
| TestDataFixture.CreateUsers | Meowwright/test-data/fixtures/test-data.fixture.ts:68-70 | count users, each reading every key from the overrides when given, else from its own defaults |
| TestDataFixture.CreateUsersShareOverrides | Meowwright/test-data/fixtures/test-data.fixture.ts:68-70 | every created user carries the shared override values |
| TestDataFixture.CreateFormOf | Meowwright/test-data/fixtures/test-data.fixture.ts:72-85 | 'registration', 'textBox' and 'webTables' dispatch to their factory and any other name to the generic one, whose formType is 'generic' and whose isRequired is drawn; formType, isRequired and fields are the kind's defaults unless the overrides give them |
| TestDataFixture.CreateForms | Meowwright/test-data/fixtures/test-data.fixture.ts:87-108 | the loop makes count forms (none for a negative count), the i-th from draw i, and agrees with createMany |
| ConfigManager.GetInstance | config/config-manager.ts:33-41 | an existing instance is returned unchanged; a first call takes the arguments, then TEST_ENV/BROWSER, then 'dev'/'chromium' |
| ConfigManager.SingletonFirstCallWins | config/config-manager.ts:33-41 | later calls ignore their arguments and return the first instance |
| ConfigManager.NewManager | config/config-manager.ts:20-25 | the configurations are the files' contents, or empty objects when a file cannot be read or parsed, and the cache is empty |
| ConfigManager.LoadOrEmpty | config/config-manager.ts:46-69 | a readable file gives its parsed content, otherwise an empty object |
| ConfigManager.LoadTestData | config/config-manager.ts:76-91 | a cached entry is returned without reading; a readable file is cached; a failure yields an empty object and is not cached |
| ConfigManager.LoadTestDataCached | config/config-manager.ts:76-91 | once loaded, the data stays the same even if the files change |
| ConfigManager.LoadTestDataRetriesFailure | config/config-manager.ts:76-91 | a failed load is retried on the next call |
| ConfigManager.GetTestData | config/config-manager.ts:167-173 | it throws iff a key is given and the data is null; a truthy data[key] is returned, else the whole data |
| ConfigManager.ConfiguredValuesWin | config/config-manager.ts:113-159 | for every configuration, each getter returns a configured truthy value as it is and otherwise its default ('', '', {}, the default timeouts, 0, {}) |
| ConfigManager.FailedLoadDefaults | config/config-manager.ts:113-159 | with no readable files every getter returns its documented default |
| ConfigManager.FullConfig | config/config-manager.ts:179-186 | the full configuration has exactly the four keys, in order |
| ShopPage.UrlCountryFrom | pages/volvopenta/shop.page.ts:284-289 | a country is found iff some '?' or '&' is followed by country= or countryCode= and two word characters, and it is the one at the leftmost such position |
| ShopPage.ValueVerdict | pages/volvopenta/shop.page.ts:299-333 | a two-letter value becomes its upper case; any other one counts only when it mentions GB or UK, and then it is 'GB' |
| ShopPage.FirstVerdict | pages/volvopenta/shop.page.ts:298-306 | the verdict is that of the leftmost value that has one, and there is none only when no value has one |
| ShopPage.CurrentLocation | pages/volvopenta/shop.page.ts:267-342 | the button text wins, then the URL parameter; otherwise the first cookie verdict, and without one the first storage verdict or null; a failed button, cookie or storage read gives null |
| ShopPage.LocationIsCode | pages/volvopenta/shop.page.ts:280-337 | without button text any location found is two characters long |
| ShopPage.CountryCodeCookieIgnored | pages/volvopenta/shop.page.ts:292-295 | a cookie named countryCode is never read, since names are lower-cased before comparison |
| ShopPage.IsLocationUK | pages/volvopenta/shop.page.ts:348-405 | a UK verdict needs one of the location, an indicator, the URL or the title to say UK; when every read succeeds this is exact; a throwing indicator read gives false unless the location already said UK |
| ShopPage.TitleErrorMeansNotUk | pages/volvopenta/shop.page.ts:348-405 | a failing title read after no other sign gives false |
| ShopPage.SetUKCookies | pages/volvopenta/shop.page.ts:199-230 | the strategy succeeds iff no step fails; success sets all UK cookies, and a failure keeps those set before it |
| ShopPage.NavigationUrl | pages/volvopenta/shop.page.ts:236-261 | the visited URL is the shop page with country, countryCode, locale and region parameters for GB |
| ShopPage.NavigateWithUKParam | pages/volvopenta/shop.page.ts:236-261 | the strategy succeeds iff neither step fails and visits the UK URL unless the first step fails |
| ShopPage.NavigationMakesUk | pages/volvopenta/shop.page.ts:236-405 | after navigating to that URL the location reads GB and the page counts as UK |
| ShopPage.ChangeLocationToUK | pages/volvopenta/shop.page.ts:125-193 | the strategies always run first; success after them ends the routine, else attempts run until the first success or retryCount + 1 attempts, then a final check decides |
| ShopPage.FirstSuccess | pages/volvopenta/shop.page.ts:145-187 | the first successful attempt in range, and no attempt before it succeeded |
| IpUtils.FirstUsable | utils/ip.utils.ts:17-27 | an address is chosen iff some IPv4 non-internal one exists, and it is the first |
| IpUtils.LocalIpAddress | utils/ip.utils.ts:13-34 | the first IPv4 non-internal address across the interfaces, or 127.0.0.1 when there is none or listing throws |
| IpUtils.LocalIpChoice | utils/ip.utils.ts:13-34 | the result is either a usable address or the fallback when there are none |
| IpUtils.FirstUsableConcat | utils/ip.utils.ts:17-27 | scanning the interfaces one after another is scanning their addresses together |
| IpUtils.PublicVerdict | utils/ip.utils.ts:97-124 | a verdict exists iff the request gave a 200 with a non-null body, and it is true iff country_code is 'GB' |
| IpUtils.IsUkIpAddress | utils/ip.utils.ts:40-73 | the public verdict decides when there is one; otherwise the local address decides by the UK prefixes |
| IpUtils.SomePrefix | utils/ip.utils.ts:55-64 | an address is in range iff it starts with one of the listed prefixes |
| IpUtils.FallbackIsNotUk | utils/ip.utils.ts:40-73 | without a public verdict the loopback fallback is never UK |
| IpUtils.GbAnswerWins | utils/ip.utils.ts:79-130 | a GB answer from the service makes the check true whatever the local interfaces |
| Json.Assign | Meowwright/test-data/factories/base.factory.ts:31 | spreading keeps every key not in the source and takes the source's value for each of its keys |
| Json.Put | Meowwright/utils/object.utils.ts:201 | the written key reads the new value, other keys are untouched, and an existing key keeps its position |

## Left out

- Objects are ordered property lists, not hash maps. JavaScript's rule that integer-like keys enumerate first is not modelled, and prototype-inherited properties appear only as the set of names `groupBy` trips over. Aliasing between objects is not modelled: every operation builds a new value.
- Numbers are integers. Floating point, NaN, hexadecimal and exponent strings in `Number(...)` and `toFixed` rounding are not modelled.
- Strings are sequences of characters, not UTF-16 code units. Case mapping covers ASCII letters only.
- Writes and deletes through arrays in `setByPath`/`removeByPath`/`unflatten` are reported as outside the model instead of modelling sparse arrays.
- `sortBy` with mixed key types (numbers against strings) uses an inconsistent comparator in JavaScript. For that case the model proves the permutation and stability only, not ordering.
- The WHATWG URL parser (`new URL`, `url.href`, `url.pathname`, `new URL(relative, base)`) is a parameter: its result or failure is given.
- `deepClone`, `deepMerge`, `filterBy`/`mapBy`/`findBy`, the `isObject`/`isArray` helpers, and the whole of `random.utils.ts` are not modelled. They are thin wrappers over JavaScript built-ins, or random.
- Dates are given as calendar fields plus a millisecond timestamp. The time zone, the clock, invalid Date objects, `parse`, and the add/start/end-of-day/isToday helpers are left out.
- Validation's date, number and pattern helpers (`isValidUrl`, `isValidDate`, `isNumber`, `isInteger`, `isInRange`, `matchesPattern`, …) are not modelled; they defer to the Date, Number and URL built-ins.
- `toCamelCase` is not modelled.
- ToSnakeCase, ToKebabCase: the functions' own contracts state the output's shape and the fixed points. The conversion rule itself is stated by the lemmas ToSnakeCaseWhitespace, ToSnakeCaseCamel and ToSnakeCasePlain (and their kebab twins), which together determine the result for every input.
- ReporterConfig.DefaultReporterConfig: `process.cwd()` is taken to be a POSIX absolute path in normal form, as the operating system reports it; Windows paths and `path.join`'s backslashes are not modelled.
- ShopPage.ChangeLocationToUK: the one-second wait in the catch block of each UI attempt is outside any try, so if it fails (for example on a closed page) the whole routine rejects. The model does not give that wait an outcome and always returns a run.
- Validation.IsValidPhone: its contract states only the length bound. The exact acceptance is its defining predicate, and PhoneSeparator states the separator property.
- Validation.IsAlpha, Validation.IsNumeric, Validation.IsAlphanumeric: only the implications between the character classes are stated, not an exact characterisation.
- The reporters' HTML layout, file writing, logging, start time and duration formatting are not modelled. The model keeps the data that feeds the report.
- The JSON report's file, line and column of each test and its start and end times are not modelled; they come from Playwright and the clock.
- Explicitly-undefined fields in a partial reporter configuration are treated as absent. In JavaScript, spreading them would overwrite the default with undefined.
- Faker output is an opaque draw record passed in; only the structure around it is modelled. A fractional `count` is not modelled: counts are integers.
- ConfigManager: the constructor's own defaults 'dev'/'chromium' are never reached because `getInstance` always passes values, so only `getInstance`'s defaults are modelled. Reading and parsing a file is a given map from path to parsed value.
- Playwright waits, timeouts, screenshots, console output and the exact failure points inside each read of the shop page are not modelled. Each read's result is part of a given snapshot.
- IpUtils: the HTTPS request, the `os` module and `getUkGeolocationSettings` are not modelled; the request's outcome and the interface list are parameters. The catch around the range check in `isUkIpAddress` cannot be reached in the model because the range check cannot throw.
