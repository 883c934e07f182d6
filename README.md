# gostalt/validate: the rule engine, in Dafny

This project models the rule-evaluation engine of the Go package `validate`:

- the check library of `rule.go`. A `Rule` names a request-form parameter, a check function and an options map. A check reads the parameter's first form value. It answers with Go's `nil` error (here `None`) or a failure text (here `Some(text)`).
- the `Validator` of `validation.go`, with the `Message` record of `message.go`. A validator holds an ordered rule list. `Run` evaluates the rules in list order and collects one `Message{Error, Param}` per failing rule.

Modules, one per concern:

- `Wrappers` (`wrappers.dfy`): the `Option` type.
- `Text` (`text.dfy`): the behaviour of Go's `len`, `strings.Count`, `strings.Split`, `strconv.Atoi` and `%d` that the checks rely on. Two of them are proved against an inverse: `Join` inverts `Split`, and `Atoi` reads back what `Decimal` (`%d`) prints. `Atoi` is also characterised outright over all strings (`AtoiExact`). `ByteLength` and `Count` carry bounds, their zero cases and, for `Count`, additivity over concatenation.
- `Rules` (`rules.dfy`): `rule.go`. It holds the form view, the typed options, every check, `getDomain`, and `Date` both as a function (`DateSpec`) and as the looping method (`Date`).
- `Validation` (`validation.dfy`): `validation.go` and `message.go`. The `Validator` class has a `Rules: seq<Rule>` field, and `Run` is a loop proved equal to the recursive function `Failures`.

Modelling choices:

- The request form (`url.Values`) is a `map<string, seq<string>>`. `Get` returns the first value, or `""`.
- An `Options` map holds a tagged value: `OInt`, `OStr`, `OStrList` or `OOther` (any other Go type). A missing or wrong-typed option takes the default the code gives it, or fails the check, exactly where the code does.
- Three capabilities come from outside the package: regular-expression matching, `time.Parse` and the MX lookup. They are the fields `matches`, `parses` and `lookupMX` of a `Library` value that every check receives. The model therefore proves everything around them and nothing about them. `lookupMX(domain, timeout)` answers `LookupFailed` or `Answer(n)`, where `n` is the number of MX records.
- Failure texts are the code's format strings, written out exactly. `%d` is rendered by `Decimal`.
- Go's `len` on a string counts bytes. `ByteLength` is the UTF-8 length of a Dafny string.

Where the package's comments and tests suggest something the code does not do, the model follows the code:

- `Run` returns a flat list of messages (`[]Message`, validation.go:52-75). The test at rule_test.go:130 prints `msgs["parameter"]`, as if the result were a map from parameter to failure texts.
- `MaxLength`/`MinLength` compare the byte length (`len(value)`, rule.go:104 and 122), though their comments (rule.go:93-94 and 111-113) speak of characters.
- `Make` stores the request (validation.go:43-48) and does not parse its form. A form that was never parsed behaves like the empty map.
- The configuration failures of `DateFormat` and `Date` (`"unable to create date format string"`, rule.go:240 and 281) do not name the parameter. `MXEmail`'s lookup failure (rule.go:179) names the domain, not the parameter.
- `Run` builds its own error texts (`"no rules defined on validator"`, `"validation failed"`). It does not use the constants of `errors.go`.

## Model

| member | source | states |
|---|---|---|
| `Text.ByteLength` | rule.go:104 | Go's `len` of a value is at least its character count and at most four times it, and it is 0 exactly for the empty string |
| `Text.AsciiByteLength` | rule.go:104 | on ASCII text the byte length equals the number of characters |
| `Text.Count` | rule.go:194 | the number of occurrences of the character is at most the length, and it is 0 exactly when the character does not occur |
| `Text.Split` | rule.go:304 | `strings.Split` yields one more piece than there are separators, and no piece contains the separator |
| `Text.JoinSplit` | rule.go:304 | joining the pieces of a split with the separator gives back the original string |
| `Text.LastPiece` | rule.go:305 | the last piece is the whole string when there is no separator, and otherwise the suffix right after the last separator |
| `Text.Atoi` | rule.go:71 | `strconv.Atoi` returns only values inside the 64-bit int range |
| `Text.AtoiShape` | rule.go:71 | Atoi accepts only an optional `+`/`-` followed by at least one ASCII digit |
| `Text.AtoiExact` | rule.go:71 | Atoi accepts a string exactly when it is an optional sign and at least one digit whose value lies in the int64 range, and it then returns that value |
| `Text.ShortNumeralAccepted` | rule.go:71 | every signed digit string of at most 18 bytes is accepted, because it always fits in an int64 |
| `Text.NatDecimal` | rule.go:105 | `%d` of a non-negative number is a non-empty digit string that spells that number, with no leading zero unless the number is 0 |
| `Text.Decimal` | rule.go:105 | `%d` puts a leading `-` exactly before a negative number, followed by the digits of its magnitude; a non-negative number is printed as its digits |
| `Text.AtoiDecimal` | rule.go:71 | Atoi reads back every int64 exactly as `%d` prints it (round trip) |
| `Rules.Get` | rule.go:97 | `Form.Get` gives the first value of a present key, and `""` for an absent key or an empty value list |
| `Rules.IntOption` | rule.go:99-102 | `o[key].(int)` gives the stored int when there is one, and the default otherwise |
| `Rules.StringOption` | rule.go:134-137 | `o[key].(string)` succeeds exactly when the key holds a string |
| `Rules.Required` | rule.go:35-41 | fails exactly when the parameter is absent from the form (a present empty value passes); the text names the parameter |
| `Rules.FindsOutside` | rule.go:47 | the search for `[^C]+` succeeds exactly when some character lies outside the class C |
| `Rules.Alpha` | rule.go:46-54 | passes exactly when every character is in `[a-zA-Z]` (the empty value passes); the text names the parameter |
| `Rules.Alphanumeric` | rule.go:58-66 | passes exactly when every character is in `[a-zA-Z0-9]` (the empty value passes); the text names the parameter |
| `Rules.Integer` | rule.go:70-77 | passes exactly when Atoi accepts the value, which is then a signed digit string; the text names the parameter |
| `Rules.Boolean` | rule.go:83-91 | passes exactly on `"true"`, `"false"`, `"1"`, `"0"`; the text names the parameter |
| `Rules.MaxLength` | rule.go:96-109 | fails exactly when the byte length exceeds `length` (0 when missing or not an int); the text names the parameter and the limit |
| `Rules.MinLength` | rule.go:114-127 | fails exactly when the byte length is below `length` (0 when missing or not an int); the text names the parameter and the limit |
| `Rules.MaxLengthDefault` | rule.go:99-104 | without a usable `length`, MaxLength passes only the empty value |
| `Rules.MinLengthDefault` | rule.go:117-122 | without a usable `length`, MinLength passes every value |
| `Rules.Regex` | rule.go:131-144 | without a string `pattern` it fails for every value; otherwise it passes exactly when the pattern matches; the text names the parameter |
| `Rules.NotRegex` | rule.go:148-161 | without a string `pattern` it fails for every value; otherwise it passes exactly when the pattern does not match; the text names the parameter |
| `Rules.NotRegexComplementsRegex` | rule.go:131-161 | with a string pattern, NotRegex passes exactly when Regex fails; without one, both fail with the same text |
| `Rules.MatchesAddressPattern` | rule.go:202 | the pattern `^[^@\s]+@[^@\s]+$` matches exactly a string made of a non-empty run without `@` or whitespace, an `@`, and another such run |
| `Rules.AcceptedIsWellFormed` | rule.go:194-204 | a value with one `@` that matches `^[^@\s]+@[^@\s]+$` has non-empty parts on both sides of its only `@` and no whitespace |
| `Rules.WellFormedIsAccepted` | rule.go:194-204 | conversely, such a value has an `@` count of 1 and matches the pattern |
| `Rules.AddressShape` | rule.go:194-204 | the two tests of Email together accept exactly the well-formed addresses |
| `Rules.Email` | rule.go:191-207 | passes exactly when the value has exactly one `@`, non-empty parts on both sides and no whitespace (`\t\n\f\r` or space); otherwise it fails with a text naming the parameter |
| `Rules.GetDomain` | rule.go:303-306 | returns the whole string when there is no `@`, and otherwise the suffix after the last `@`; the result never contains `@` |
| `Rules.DomainOfAddress` | rule.go:176 | for a well-formed address, the domain is exactly the non-empty text after its one `@` |
| `Rules.MXEmail` | rule.go:166-187 | an invalid address fails with Email's own failure before any lookup; otherwise it passes exactly when the lookup of the domain, with `timeout` (5 when missing or not an int), answers with at least one record |
| `Rules.MXEmailRefinesEmail` | rule.go:167-176 | whatever MXEmail accepts, Email accepts, and the domain it looked up is non-empty |
| `Rules.DateFormat` | rule.go:235-248 | without a string `format` it fails for every value; otherwise it passes exactly when the value parses with that layout; the text names the parameter and the layout |
| `Rules.LayoutOptions` | rule.go:211-231 | the options a fixed-layout wrapper passes hold only `format`, and it is that layout as a string |
| `Rules.RFC3339` | rule.go:211-213 | passes exactly when the value parses with the RFC 3339 layout |
| `Rules.RFC1123` | rule.go:217-219 | passes exactly when the value parses with the RFC 1123 layout |
| `Rules.RFC822` | rule.go:223-225 | passes exactly when the value parses with the RFC 822 layout |
| `Rules.UnixDate` | rule.go:229-231 | passes exactly when the value parses with the UnixDate layout |
| `Rules.DateLayouts` | rule.go:257-285 | the layout list is the 15 built-in layouts, followed by `formats` when it is a `[]string`; a `formats` option of any other type yields no list |
| `Rules.AnyLayoutParses` | rule.go:287-291 | trying the layouts in order and stopping at the first success succeeds exactly when some layout parses the value |
| `Rules.DateSpec` | rule.go:256-294 | a malformed `formats` option fails for every value; otherwise Date passes exactly when some layout of the list parses the value, and fails with a text naming the parameter |
| `Rules.Date` | rule.go:256-294 | building the list, appending the custom formats and looping over DateFormat with an early return computes exactly DateSpec |
| `Rules.BuiltinLayoutSuffices` | rule.go:257-275 | a value that any built-in layout parses passes Date, unless `formats` is malformed |
| `Rules.CustomFormatsWiden` | rule.go:277-285 | adding a `formats` list to any options without one never turns a passing value into a failing one |
| `Rules.SingleValue` | rule_test.go:127 | `Form.Set(param, value)` makes `Get` return that value |
| `Rules.RequiredCases` | rule.go:35-41 | an absent parameter fails Required; a present empty value passes |
| `Rules.AlphaCases` | rule_test.go:20-25 | `"Alphabet"` passes Alpha; `"Alphab3tic4l"` and `"letters-and-dashes"` fail |
| `Rules.AlphanumericCases` | rule_test.go:26-31 | `"123alpha"` passes Alphanumeric; `"__"` fails |
| `Rules.BooleanCases` | rule_test.go:32-37 | `"0"` passes Boolean; `"2"` and `"truthy"` fail |
| `Rules.IntegerCases` | rule_test.go:38-43 | `"99"` passes Integer; `"1.5"` and `""` fail |
| `Rules.LengthCases` | rule_test.go:44-55 | with `length` 5, `"aaaa"` passes MaxLength and `"1111111"` fails; with `length` 2, `"ok"` passes MinLength and `"a"` fails |
| `Rules.EmailAccepted` | rule_test.go:68-73 | `"me@tomm.us"` passes Email |
| `Rules.EmailRejected` | rule_test.go:68-73 | `"me@something@tomm.us"`, `"juststring"` and `"me space@tomm.us"` fail Email |
| `Validation.Verdict` | validation.go:62 | a rule's verdict is its own check applied to the request, its parameter and its options |
| `Validation.FailingIndices` | validation.go:61-68 | the positions of the failing rules, never more than there are rules |
| `Validation.FailingIndicesEnumerate` | validation.go:61-68 | message k of the evaluation belongs to the k-th failing rule, the positions increase, and every failing rule has one |
| `Validation.Failures` | validation.go:59-68 | evaluating a rule list never yields more messages than there are rules |
| `Validation.FailuresInRuleOrder` | validation.go:61-68 | there is exactly one message per failing rule, in rule-list order; each carries that rule's Param and that check's failure text |
| `Validation.NoFailuresIffAllPass` | validation.go:61-70 | the message list is empty exactly when every rule's check passes |
| `Validation.FailuresAppend` | validation.go:61-68 | evaluating `a + b` gives the messages of `a` followed by those of `b`, so rules added later report after the earlier ones |
| `Validation.ReportsDetermined` | validation.go:52-75 | Run's result is fully determined by the form and the rules |
| `Validation.TwoFailuresOnOneParam` | validation_test.go:29-51 | two failing rules on one parameter give two messages for it, in rule order |
| `Validation.Validator.Make` | validation.go:43-48 | the new validator holds exactly the given rules, possibly none, bound to the given request |
| `Validation.Validator.Add` | validation.go:78-80 | the given rules are appended in order; the earlier rules and the request are unchanged |
| `Validation.Validator.Run` | validation.go:52-75 | with no rules, it returns no messages and the "no rules" error; otherwise it returns the failures in rule order, and the "validation failed" error exactly when there is at least one; when all checks pass it returns `nil, nil`; there are never more messages than rules, and nothing is modified |
| `Validation.Check` | validation.go:36-38 | `Check(r, rules...)` promises exactly what `Make(r, rules...).Run()` promises |
| `Validation.RunTwice` | validation.go:52-75 | for deterministic checks, two consecutive Runs on the same validator give identical results |
| `Validation.ValidatorScenarios` | validation_test.go:29-161 | an empty validator answers the "no rules" error; after `Add`, a forced failure comes back as one message with its text and parameter and the "validation failed" error; two failing rules on one parameter give two messages for it |

## Left out

- Validation.Validator.Make: the model copies the request form into the validator when it is made. Go keeps the `*http.Request` (validation.go:15, 45), and every check reads `r.Form` only when Run reaches it. So in Go, a form parsed after `Make` but before `Run` is seen by the checks; the model cannot express that.
- Validation.Validator.Make: Go stores the caller's own rule slice (validation.go:46), so later writes to that slice by the caller show up in the validator, and `append` in `Add` may write into the caller's backing array. The model's `Rules` is a value, so it has no such aliasing.
- Validation.RunTwice: it holds because the model's checks are pure functions and `lookupMX` answers the same on every call. In Go, a check may change `r.Form` through the pointer, and MXEmail's DNS answer may change between two Runs; the model promises nothing for such checks.
- `Respond` (validation.go:22-31) is left out. It only writes HTTP headers, a status code and a JSON body.
- `ErrorContext` and `ErrorBag` (validation.go:82-88) are left out. They only store the messages in a Go context.
- `getMXRecords` (rule.go:296-301), the resolver and its context timeout are left out. They are network I/O, so the model takes the lookup as the `lookupMX` capability.
- The semantics of regular expressions and of `time.Parse` layouts are left out. They belong to Go's standard library; the model takes them as the `matches` and `parses` capabilities. The fixed patterns of Alpha, Alphanumeric and Email are modelled exactly.
- A `Rule` whose `Check` is nil cannot be built in the model. In Go, running such a rule panics.
- Form values are Unicode strings. Invalid UTF-8 bytes in a value are not represented.
- The model assumes a 64-bit platform, where Go's `int` is 64 bits wide. `Atoi` accepts values in the int64 range, and `ShortNumeralAccepted`'s 18-byte bound is Go's 64-bit fast path. On a 32-bit platform `Integer` rejects `"3000000000"`, which the model accepts.
- Option integers are unbounded. MaxLength and MinLength only compare them with a length. MXEmail's `timeout` also goes into `time.Duration(timeout) * time.Second` (rule.go:298), which wraps around for timeouts above about 9.2e9 seconds. The model passes the timeout to `lookupMX` unchanged, and `lookupMX` is an arbitrary function, so it can stand for that wrapped behaviour too.
- `Run` returns `[]` where Go returns a nil slice. Callers can only tell the two apart by comparing with nil.
- `errors.go` is not part of this model. `Run` does not use its constants.
- The benchmarks and the live `MXEmail` cases of rule_test.go are not part of this model; the live cases depend on real DNS answers.
