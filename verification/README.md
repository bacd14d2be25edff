# csp-reporter core, modelled in Dafny

The csp-reporter service receives browser Content-Security-Policy violation
reports over HTTP. The `reporter` package's handler turns each report's
effective directive into a Prometheus label and increments a counter vector
under it. The label is the directive itself when it is one of seventeen known
names and `"unknown"` otherwise, so the label set stays bounded. The
standalone binary in `cmd/reporter` increments one unlabelled report counter
instead. Both define the same `String()` pretty-printer for a report.

This project models that core as pure functions over immutable records:

- `directives.dfy` (module `Directives`): the known-directive set, the
  fallback label, and facts about them. The set has 17 distinct members. It
  contains neither `"unknown"` nor `""`. Prefix-related names are separate
  members. Every name is letters and dashes only.
- `classifier.dfy` (module `Classifier`): the label choice, with exact lookup
  of the effective directive. The test file expects first-token
  classification of the violated directive; that rule is kept apart as
  `FirstTokenLabel`, and the handler model does not use it.
- `metrics.dfy` (module `Metrics`): the counter vector as `map<string, nat>`,
  one POST as a one-label increment, and replays of request sequences. Its
  lemmas cover bounded key sets, per-label counts and totals. It also models
  the standalone binary's single counter.
- `reports.dfy` (module `Reports`): both report records and the shared
  `String()` serialiser over the seven printed fields.
- `decimal.dfy` (module `Decimal`): `strconv.Itoa`, with its inverse.
- `report_parser.dfy` (module `ReportParser`): a reader that inverts
  `String()` on reports whose text fields are single lines. It also has a
  witness that, without escaping, two different reports can print the same
  text.
- `wrappers.dfy` (module `Wrappers`): `Option`.

As written, the handlers do not return after answering a body that fails to
decode with `400`. The report, partly filled or zero, is therefore still
classified and counted by the package handler, and counted by the standalone
one. The model keeps this behaviour: `Decoded` and `Malformed` both carry the
report the handler goes on with.

## Model

| member | source | states |
|---|---|---|
| Directives.DirectiveCount | reporter/constants.go:5-23 | the literal lists seventeen pairwise-different names, so the set has exactly 17 members |
| Directives.UnknownIsNotDirective | reporter/constants.go:5-23 | the fallback label `"unknown"` is not a directive, so directives plus fallback give exactly 18 labels |
| Directives.EmptyIsNotDirective | reporter/constants.go:5-23 | the empty string is not a directive |
| Directives.PrefixRelatedDirectivesDistinct | reporter/constants.go:16-20 | script-src, script-src-elem and script-src-attr are three different members; style-src and style-src-elem are two |
| Directives.DirectivesWellFormed | reporter/constants.go:6-22 | every directive is non-empty, is spelled with lower-case letters and dashes only, and contains no whitespace |
| Classifier.DirectiveLabel | reporter/reporter.go:95-99 | the label chosen for any effective directive is a known directive or `"unknown"` |
| Classifier.ReportLabel | reporter/reporter.go:95 | a report's label is its own effective directive or `"unknown"`; an effective directive outside the set is labelled `"unknown"`; the label is a directive exactly when the effective directive is one |
| Classifier.DirectiveLabelCases | reporter/reporter.go:95-98 | a known directive labels as itself and anything else as `"unknown"`; the label is a directive exactly when the input is |
| Classifier.DirectiveLabelSeparates | reporter/reporter.go:95-99 | two inputs share a label only if they are the same string or both are outside the set; a real directive never shares the fallback's label |
| Classifier.ReportLabelOnlyEffective | reporter/reporter.go:95 | reports with the same effective directive get the same label, whatever their other fields hold |
| Classifier.DirectiveLabelExamples | reporter/reporter.go:95-99 | `""`, `"my-directive"` and `"script-src http something something"` label as `"unknown"`; `"script-src"` labels as itself; a zero-valued report labels as `"unknown"` |
| Classifier.FirstTokenLabel | reporter/reporter_test.go:12-15 | the test file's first-token rule also yields only known directives or `"unknown"` |
| Classifier.FirstTokenSplits | reporter/reporter_test.go:12-15 | for every input, the first token is what follows the leading whitespace up to the next whitespace or the end, and it is empty exactly when the input is all whitespace |
| Classifier.FirstTokenLabelOfDirective | reporter/reporter_test.go:14-15 | under the first-token rule, a directive alone or followed by a space and any detail labels as that directive |
| Classifier.FirstTokenLabelExamples | reporter/reporter_test.go:12-19 | the four test cases hold under the first-token rule, reading the test's `unknownDirective` as the handler's `"unknown"`, while the handler's exact lookup labels the "extended" input `"unknown"` |
| Metrics.Inc | reporter/reporter.go:96 | incrementing a label raises its count by one, leaves every other count unchanged and adds only that label to the key set |
| Metrics.ObservePost | reporter/reporter.go:84-99 | one POST raises exactly the report's label by one, leaves all others unchanged, and keeps a bounded key set bounded |
| Metrics.ReplayKeys | reporter/reporter.go:95-99 | after a sequence of POSTs the key set is the starting keys plus exactly the labels of those POSTs |
| Metrics.ReplayBounded | reporter/reporter.go:95-99 | from an empty vector, keys stay within the directives plus `"unknown"`, so there are at most 18 series |
| Metrics.ReplayCounts | reporter/reporter.go:95-99 | each label's count grows by exactly the number of POSTs classified under it |
| Metrics.ReplayTotal | reporter/reporter.go:95-99 | the sum over the eighteen possible labels grows by exactly the number of POSTs |
| Metrics.MalformedZeroCountsUnknown | reporter/reporter.go:86-99 | a body that fails to decode, leaving a zero report, is still counted, under `"unknown"` |
| Metrics.CountPostOnce | cmd/reporter/main.go:93 | the counter's step does not depend on the body: a zero report from a failed decode adds the same one as any other report; `CountReplayCounts` extends this to sequences of POSTs |
| Metrics.CountReplayCounts | cmd/reporter/main.go:83-93 | the standalone report counter grows by exactly the number of POSTs, malformed ones included, whatever they carry |
| Metrics.CountersAgree | cmd/reporter/main.go:92-93 | for equally many POSTs, the package's vector total equals the standalone binary's counter |
| Reports.MainReportString | cmd/reporter/main.go:47-65 | the output starts with the `"\ncsp-report"` header; its length is 133 plus the lengths of the seven printed values |
| Reports.ReportString | reporter/reporter.go:47-65 | the package's output is the header, then the seven segments for referrer, document-uri, violated-directive, effective-directive, original-policy, blocked-uri and status-code, read from the nine-field record |
| Reports.MainReportStringLayout | cmd/reporter/main.go:49-62 | the output is the header, then `"\n\t" + key + ": " + value` for referrer, document-uri, violated-directive, effective-directive, original-policy, blocked-uri and status-code, in that order |
| Reports.ExtraFieldsIrrelevant | reporter/reporter.go:33-65 | two package reports that differ only in disposition or script-sample print identically |
| Decimal.NatDigits | reporter/reporter.go:62 | the digits of a natural number have no leading zero and denote that number |
| Decimal.Itoa | cmd/reporter/main.go:62 | the status code renders as canonical digits of its magnitude, preceded by `'-'` exactly when it is negative |
| Decimal.ParseItoa | reporter/reporter.go:62 | reading back the rendering of any integer gives that integer |
| Decimal.ItoaParse | reporter/reporter.go:62 | every string the reader accepts is the rendering of the number it yields, so the reader accepts exactly the renderings |
| Decimal.ItoaInjective | reporter/reporter.go:62 | different status codes render differently |
| ReportParser.ParseSegmentsSound | cmd/reporter/main.go:50-55 | whatever the segment reader accepts is exactly the join of the values it returns, and each value is a single line |
| ReportParser.ParseJoin | cmd/reporter/main.go:50-55 | joined segments with single-line values are read back to exactly those values |
| ReportParser.ParsePrinted | cmd/reporter/main.go:47-65 | printing a report whose text fields are single lines and reading it back gives the report |
| ReportParser.PrintParsed | cmd/reporter/main.go:47-65 | any text the reader accepts is exactly what printing the result produces |
| ReportParser.AmbiguousWithoutEscaping | cmd/reporter/main.go:50-56 | values are written verbatim, so two different reports, each with a line break in a value, can print the same text |

## Left out

- HTTP server bootstrap, method dispatch, the GET greeting, 405 answers and all status-code writing. This includes the second `WriteHeader` after `http.Error`, which net/http ignores. These live in a library outside this model.
- JSON decoding of the request body. The decoded report is an input. On a decode error it is whatever record the decoder left, which is often the zero value.
- Prometheus registry internals. The counter vector is an explicit `map<string, nat>` and the report counter a `nat`. Metric names and namespaces are not modelled.
- zap logging and `InitLogger`, including the log field named `original-policy` that carries the effective directive. Logging is a side effect with no modelled result.
- The panic-recovery block of the package handler, and the `errgroup` concurrency of the standalone binary. Go's counters are atomic and increments commute, so a sequential replay in arrival order stands for concurrent requests.
- `example/server/main.go`: it serves static headers and an embedded page, and has no logic.
- Reports.MainReportString: `StatusCode` is an unbounded `int`, while Go's `int` is at most 64 bits. `strconv.Itoa` is exact on every such value, and the JSON decoder refuses a number that overflows the field, which the model covers as a malformed body. So no wrap-around is lost.
- Reports.MainReportString: strings are modelled as sequences of characters, so the length formula counts characters where Go's `len` counts UTF-8 bytes. The JSON decoder always yields valid UTF-8, so nothing about the content is lost.
- Classifier.FirstTokenLabel: the package's test file is stale. Its `ContentSecurityPolicyReport{ViolatedDirective: ...}` literal does not match the nested `Report` struct of reporter/reporter.go:33-45, and the package defines neither `AffectedDirective` nor `unknownDirective`. The rule is therefore reconstructed from the test's cases. The test's `unknownDirective` is taken to be the handler's fallback label `"unknown"`, which is what `FirstTokenLabelExamples` checks against. Tokens are split on Go's `unicode.IsSpace` whitespace, as `strings.Fields` does.
