# Tectonic error server and stats-extender checks, modelled in Dafny

This project models the decision logic of two small utilities of the
container-images repository:

- the **stats-extender integration test**
  (`tectonic-stats-extender/test/integration_test.go`): the parser of the
  BigQuery spec `bigquery://project.dataset.table`; the data check of
  `getBigQueryData`, which derives the expected values of four tracked
  extensions from the `tectonic-config` ConfigMap, folds the BigQuery result
  rows into a name → value map and lists every tracked extension that is
  missing or wrong; the log check of `getStatsEmitterLogs` /
  `validatePodLogging`, which concatenates the logs of the
  `tectonic-stats-emitter` pods and looks for the marker
  "report successfully sent"; and `testPointToCondition`, which turns a failed
  check into "poll again";
- the **error server** (`tectonic-error-server/server.go`): `handleErrorPage`,
  which maps the `X-Code` header to a status and either the error page
  (rendered with a code and a message) or the index page, the `/healthz`
  handler and the routing between them.

Every call into Kubernetes, BigQuery, `html/template` or the network is an
input to the model: the ConfigMap (or its fetch failure), the client
creations, the query rows and how the cursor ended, the pod listing and each
pod's log fetch, whether the template parsed, and the `X-Code` header value.

Files: `wrappers.dfy` (Option, Outcome), `bigquery_spec.dfy`,
`extension_check.dfy`, `pod_logs.dfy`, `poll_condition.dfy`, `strconv.dfy`
(Go's `strconv.Atoi` and `Itoa`), `error_server.dfy`.

The loops of `getBigQueryData` and `validatePodLogging` are methods with
`while` loops, proved against specification functions (`ExpectedFrom`,
`Folded`, `Complaints`, `Gathered`); the parser, `handleErrorPage` and the
condition adapter are functions.

Where the behaviour differs from a plain reading of "the found value must equal
the expected one": the code reads a missing row as `""`, so an extension whose
ConfigMap value is `""` passes with no row at all (`EmptyExpectedPassesWhenAbsent`).
The model follows the code.

## Model

| member | source | states |
|---|---|---|
| `BigQuerySpec.IndexOfDot` | tectonic-stats-extender/test/integration_test.go:224 | the position found is the first dot, or the end when there is no dot (the `[^.]+` groups stop at it) |
| `BigQuerySpec.MatchSpec` | tectonic-stats-extender/test/integration_test.go:224-234 | `FindStringSubmatch` with the anchored expression: a match requires the `bigquery://` prefix and yields three non-empty dot-free submatches (`MatchSpecSound` and `MatchSpecComplete` give both directions) |
| `BigQuerySpec.ParseBigQuerySpec` | tectonic-stats-extender/test/integration_test.go:230-239 | without the `bigquery://` prefix the result is three empty strings and the prefix error; every failure returns three empty strings; a success returns three non-empty dot-free segments that rebuild the spec |
| `BigQuerySpec.MatchSpecSound` | tectonic-stats-extender/test/integration_test.go:224 | every match of the anchored expression consists of three segments that rebuild the input |
| `BigQuerySpec.MatchSpecComplete` | tectonic-stats-extender/test/integration_test.go:224 | every `bigquery://p.d.t` with non-empty dot-free `p`, `d`, `t` matches with exactly those submatches |
| `BigQuerySpec.ParseFormat` | tectonic-stats-extender/test/integration_test.go:234-238 | round trip: a spec rebuilt from three segments parses back to them with no error |
| `BigQuerySpec.ParseSucceedsIff` | tectonic-stats-extender/test/integration_test.go:230-239 | the parse succeeds if and only if the spec is `bigquery://p.d.t` for non-empty dot-free segments |
| `BigQuerySpec.DotsAppend` | tectonic-stats-extender/test/integration_test.go:224 | the dots of a concatenation are those of its parts |
| `BigQuerySpec.NoDots` | tectonic-stats-extender/test/integration_test.go:224 | a segment contributes no dots |
| `BigQuerySpec.RejectsWrongDotCount` | tectonic-stats-extender/test/integration_test.go:234-236 | a spec with the prefix whose path has fewer or more than two dots is rejected as malformed, with three empty strings |
| `ExtensionCheck.BuildExpected` | tectonic-stats-extender/test/integration_test.go:151-162 | `expected` holds exactly the tracked names that are ConfigMap keys, each with its ConfigMap value |
| `ExtensionCheck.FoldRows` | tectonic-stats-extender/test/integration_test.go:163-187 | success iff every row has string name and value and the cursor ended normally, and then `found` is the in-order fold of the rows; the first row with a non-string name or value decides the error; a cursor error after good rows is reported as such |
| `ExtensionCheck.FoldedLastWins` | tectonic-stats-extender/test/integration_test.go:167-187 | the fold maps exactly the names occurring in the rows, each to the value of the last row carrying it |
| `ExtensionCheck.CompareExtensions` | tectonic-stats-extender/test/integration_test.go:189-203 | `wrong` is the list of complaints about the tracked names, in the order of the `extensions` list |
| `ExtensionCheck.ComplaintsEmptyIff` | tectonic-stats-extender/test/integration_test.go:189-207 | there is no complaint if and only if every name passes its check |
| `ExtensionCheck.ComplaintsInOrder` | tectonic-stats-extender/test/integration_test.go:189-203 | at most one complaint per name, one for each failing name, at strictly increasing positions of the names list |
| `ExtensionCheck.CheckExtension` | tectonic-stats-extender/test/integration_test.go:191-202 | a complaint names the extension checked; a name passes iff, with an expected value, the found value (`""` when absent) equals it, and without one, the name was found; a wrong-value complaint carries differing values |
| `ExtensionCheck.ComplaintListed` | tectonic-stats-extender/test/integration_test.go:190-203 | the complaint about every failing name is in the list |
| `ExtensionCheck.FoldedWithoutName` | tectonic-stats-extender/test/integration_test.go:167-187 | a name carried by no row is absent from `found` |
| `ExtensionCheck.AbsentEverywhereReported` | tectonic-stats-extender/test/integration_test.go:190-197 | a tracked extension absent from both the ConfigMap and the rows is reported as "did not find" |
| `ExtensionCheck.ExtensionVerdict` | tectonic-stats-extender/test/integration_test.go:154-203 | a tracked name missing from the ConfigMap is reported as "did not find" iff no row carries it; one present is reported iff the found value, `""` when absent, differs, and then with expected and found values |
| `ExtensionCheck.EmptyExpectedPassesWhenAbsent` | tectonic-stats-extender/test/integration_test.go:200-202 | an expected `""` passes when no row carries the name |
| `ExtensionCheck.GetBigQueryData` | tectonic-stats-extender/test/integration_test.go:114-208 | each step's failure is the error returned, in source order: spec, ConfigMap, `clusterID`, client creation, `q.Read`, the first non-string row (name or value), a cursor error, and finally a non-empty complaint list as the mismatch error; the check passes iff every step succeeds and every tracked name passes; a mismatch carries the ordered complaints, between one and four of them |
| `PodLogs.Ascii` | tectonic-stats-extender/test/integration_test.go:97 | the marker's bytes are the character codes of the string |
| `PodLogs.GoQuo100` | tectonic-stats-extender/test/integration_test.go:285 | Go's truncating division: the remainder is below 100 in magnitude and has the sign of the dividend |
| `PodLogs.PodError` | tectonic-stats-extender/test/integration_test.go:271-292 | a matching pod stops the loop unless it has a container, the fetch succeeded, the status is 200 to 299 and the body was read; a pod without containers gives the "no containers" error |
| `PodLogs.Contains` | tectonic-stats-extender/test/integration_test.go:97 | `bytes.Contains`: an empty marker is always found, and a found one is no longer than the logs (`ContainsIff` gives the offset characterisation) |
| `PodLogs.StatusClassIs2xx` | tectonic-stats-extender/test/integration_test.go:285 | Go's truncating `statusCode/100 == 2` holds exactly for codes 200 to 299 |
| `PodLogs.ValidatePodLogging` | tectonic-stats-extender/test/integration_test.go:257-300 | a listing error returns no logs; success iff some pod matches the prefix and every matching pod can be read, and then the logs are the matching pods' logs concatenated in list order; otherwise the first unreadable matching pod decides the error and the logs gathered before it are returned; no matching pod gives the "no pods" error with no logs |
| `PodLogs.FirstFailingUnique` | tectonic-stats-extender/test/integration_test.go:265-292 | the pod that stops the loop is unique |
| `PodLogs.GatheredNoMatch` | tectonic-stats-extender/test/integration_test.go:265-268 | pods without the prefix contribute nothing |
| `PodLogs.GatheredAppend` | tectonic-stats-extender/test/integration_test.go:294 | gathering distributes over a split listing, the earlier part's logs first |
| `PodLogs.ContainsIff` | tectonic-stats-extender/test/integration_test.go:97 | the substring search succeeds iff the marker occurs at some offset |
| `PodLogs.ContainsInContext` | tectonic-stats-extender/test/integration_test.go:97 | a marker found in part of the logs is found in the whole |
| `PodLogs.GetStatsEmitterLogs` | tectonic-stats-extender/test/integration_test.go:84-101 | a client error fails first; a listing error, the absence of emitter pods and the first unreadable emitter pod give the matching gathering error; the check passes iff the emitter pods can all be read, at least one exists, and their concatenated logs contain "report successfully sent"; the marker error is returned exactly when gathering succeeded and the marker is missing |
| `PodLogs.OnePodWithMarkerSuffices` | tectonic-stats-extender/test/integration_test.go:294-299 | when every emitter pod can be read, one pod that logged the marker makes the aggregated logs contain it |
| `PollCondition.PointToCondition` | tectonic-stats-extender/test/integration_test.go:73-82 | the condition never reports an error, and reports done iff the check passed |
| `Strconv.Atoi` | tectonic-error-server/server.go:36 | an accepted header is an optional sign and one or more digits, within int64, and its value is the decimal value of the digits, negated after a `-` |
| `Strconv.Digits` | tectonic-error-server/server.go:36 | the inverse used by the round-trip lemma (`strconv.Itoa`, not called by the server): the decimal form of a number is never empty and has no leading zero |
| `Strconv.DigitChar` | tectonic-error-server/server.go:36 | part of that inverse: the digit character of a value below ten reads back as that value |
| `Strconv.DecimalValueDigits` | tectonic-error-server/server.go:36 | part of the round trip with that inverse: the decimal digits of a number read back as that number |
| `Strconv.AtoiItoa` | tectonic-error-server/server.go:36 | round trip: every int64 written in decimal is read back by `Atoi` |
| `Strconv.AtoiAccepts` | tectonic-error-server/server.go:36-37 | every optional sign plus digits is accepted with its signed value when within int64 (so `+504`, `0400` and `-0` are read as Go reads them) and rejected otherwise |
| `Strconv.AtoiRejectsNoDigits` | tectonic-error-server/server.go:36-37 | the empty string and a lone sign are errors |
| `Strconv.AtoiRejectsSyntax` | tectonic-error-server/server.go:36-37 | a string with a non-digit after the optional sign is an error |
| `Strconv.AtoiRejectsOverflow` | tectonic-error-server/server.go:36-37 | the decimal form of a number beyond int64 is an error |
| `ErrorServer.ErrorMessage` | tectonic-error-server/server.go:48-68 | the switch gives a message exactly for 400, 401, 403, 404, 500, 503 and 504 |
| `ErrorServer.HandleErrorPage` | tectonic-error-server/server.go:26-77 | a template parse failure gives 500 with no body; an unparsable non-empty `X-Code` gives 500 with `{500, "unable to get error code"}`; an empty header gives 404 with the index page; a code with a page gives that status and that code with its message; the index page is served exactly for an empty header or any other parsed code, always with 404; a rendered page's code equals the status; the status is always one of the seven codes |
| `ErrorServer.PageForCode` | tectonic-error-server/server.go:49-71 | a header holding one of the seven codes gets status equal to the code and the page with the code and its message |
| `ErrorServer.IndexForOtherCode` | tectonic-error-server/server.go:64-67 | any other int64 code in the header gets 404 with the index page |
| `ErrorServer.Healthz` | tectonic-error-server/server.go:82-85 | `/healthz` answers 200 with body "ok" |
| `ErrorServer.Serve` | tectonic-error-server/server.go:81-85 | `/healthz` answers 200 "ok"; every other path gets exactly `handleErrorPage`'s response, whose status is never 200 |

## Left out

- `wait.Poll` (the 5 s and 10 s intervals and the timeout): wall-clock polling in a library; only the condition adapter `testPointToCondition` is modelled.
- Kubernetes client creation, pod listing, log fetching and ConfigMap fetching: network I/O; their results (including failures) are inputs.
- BigQuery client creation, the query text and row iteration: the SQL runs in an external service; the rows and how the cursor ended are inputs.
- Error message texts built with `fmt.Errorf` and `%q`: errors and complaints are datatypes naming the same cases and values, not formatted strings.
- `html/template` parsing and execution and the embedded `error.html` / `index.html` bytes: a response names the page and its data instead of carrying bytes; a template execution error after the status is written (which is only logged) is not modelled.
- Flag parsing, `os.Exit`, logging, `t.Skip` / `t.Fatalf` and `http.ListenAndServe`: process and test-runner plumbing.
- `Serve`: `net/http`'s path cleaning and redirects are not modelled; the path is taken as already clean.
- `Strconv.Atoi`: models a 64-bit `int`; on a 32-bit platform the range would be int32.
- `PodLogs.ValidatePodLogging`: the first container's name only selects which logs are fetched; the fetch result is given per pod, so the name plays no further part.
