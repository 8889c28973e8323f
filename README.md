# changed-files: a Dafny model

This project models the core of the `changed-files` GitHub Action
(`src/main.ts`). The action lists the files a pull request or a push changed,
keeps those whose path passes a regular expression, and sorts them into three
lists: `files_created`, `files_updated` and `files_deleted`. It publishes each
list as newline-joined text or as a JSON array.

The model has six modules:

- `Wrappers`: `Option` and `Result`.
- `Classification`: the accumulator `ChangedFiles`.
  - It is a class with three `seq<string>` fields that `Apply` appends to, as the source's `push` calls do.
  - `ApplyAll` is the adapters' `forEach`.
  - `Step` and `Fold` are its value-level specification.
  - `Created`, `Updated` and `Deleted` give the same lists record by record, as an independent view.
  - `Valid()` is the invariant that every recorded path passes the filter.
- `Adapters`: the pull-request adapter and the push adapter.
  - Both are methods with loops over an accumulator.
  - Each is proved against a specification function: `PageFiles`, or `PushFiles` with `PushFailure`.
- `PrNumber`: `extractPrNumber`.
  - `ParseInt` covers the part of JavaScript's `parseInt(s, 10)` that decides the outcome.
  - `FirstTag` is an explicit leftmost scan for `pr-(\d+)-`, proved against the regular expression's own meaning (`RegexMatchAt`).
- `Encoding`: `getEncoder`.
  - `Join` and `Split` model `join("\n")` and `split("\n")`, with the round trip proved.
- `Dispatch`: the event switch of `run`.
  - `RunSpec` states the whole run as a value.
  - The method `Run` performs it with the adapters and is proved equal to `RunSpec`.

The regular expression engine is an uninterpreted predicate `matches: string -> bool`. Compiling the `pattern` input is a parameter `compile` that yields such a predicate or the error it throws; an empty `pattern` stands for `.*`, which accepts every path. The network is given as values: `listFiles` maps a pull-request number to the sequence of page responses, and `getCommit` maps a commit id to its response. The configuration layer's inputs and the ambient event context are the datatypes `Inputs` and `Context`. What `run` sets, `core.setFailed` or the three outputs, is the datatype `RunOutcome`.

`run` calls `getEncoder()` only after the adapter has finished (`src/main.ts:160`). So a missing push payload or a failed fetch is reported even when `result-encoding` is also invalid. `RunSpec` follows that order: the token, then the client built from it, then the event, then the adapter, and only then the encoder.

## Model

| member | source | states |
|---|---|---|
| Classification.ChangedFiles.constructor | src/main.ts:23-28 | a fresh accumulator has three empty lists, keeps the given filter, and satisfies the invariant that every recorded path passes the filter |
| Classification.ChangedFiles.Apply | src/main.ts:30-50 | one record changes the lists exactly as `Step` says, and the invariant that every recorded path passes the filter is preserved |
| Classification.ChangedFiles.ApplyAll | src/main.ts:62-63 | applying a list of records in order leaves the lists equal to `Fold` of the old lists over the records, and keeps the invariant |
| Classification.RejectedRecordIsIgnored | src/main.ts:31-33 | a record whose filename the filter rejects changes none of the three lists, whatever its status, including a rename |
| Classification.SimpleStatuses | src/main.ts:34-43 | an in-scope `added`, `removed` or `modified` record appends its filename to `created`, `deleted` or `updated` respectively, and leaves the other two lists unchanged |
| Classification.RenamedRecord | src/main.ts:44-48 | an in-scope rename appends the new name to `created` and leaves `updated` unchanged; it appends the old name to `deleted` exactly when the old name is present, non-empty and passes the filter, and otherwise leaves `deleted` unchanged |
| Classification.UnknownStatusIsIgnored | src/main.ts:34-49 | a status other than the four recognised ones is a no-op, not an error |
| Classification.StepAppendsMatching | src/main.ts:30-50 | one `apply` only appends: the old lists are prefixes of the new ones, the total grows by at most 2, and in-scope lists stay in scope |
| Classification.FoldAppend | src/main.ts:62-63 | applying a batch and then another equals applying their concatenation, so pages and commits can be fed batch by batch |
| Classification.FoldByBucket | src/main.ts:30-50 | after a run of `apply` calls, each list is its old contents followed by the paths the records contribute to that list, in arrival order |
| Classification.FoldCreatedMembership | src/main.ts:34-48 | a path is in `created` after the run iff it was there before or some in-scope record with status `added` or `renamed` carries it as its filename |
| Classification.FoldUpdatedMembership | src/main.ts:41-43 | a path is in `updated` after the run iff it was there before or some in-scope `modified` record carries it |
| Classification.FoldDeletedMembership | src/main.ts:38-48 | a path is in `deleted` after the run iff it was there before, or an in-scope `removed` record carries it, or an in-scope rename has it as a non-empty, in-scope old name |
| Classification.FoldAppendsMatching | src/main.ts:23-50 | a run of `apply` calls keeps the old lists as prefixes, adds at most two paths per record, and preserves the invariant that every path passes the filter |
| Classification.ModifiedScenario | src/main.ts:41-43 | with a filter for paths ending in `.ts`, one modified `a.ts` yields `updated = ["a.ts"]` and the other two lists empty |
| Classification.RenameScenario | src/main.ts:44-48 | with the match-all filter, a rename of `old.txt` to `new.txt` yields `created = ["new.txt"]` and `deleted = ["old.txt"]` |
| Adapters.PageFailureSticks | src/main.ts:62-64 | once a page of the listing has failed, later pages cannot change the outcome |
| Adapters.PageFilesFailure | src/main.ts:56-64 | listing a pull request's files fails iff some page fails, and then with the first failing page's error; there is no partial result |
| Adapters.GetChangedFilesPR | src/main.ts:53-66 | a fresh accumulator receives every record of every page of the listing of the given pull request, in order, so its lists equal `Fold` over the concatenated pages; a failing page fails the adapter with that page's error |
| Adapters.NonDistinctCommitsIgnored | src/main.ts:74-81 | non-distinct commits contribute no records, no fetch and no failure: the push is handled as if it held only its distinct commits |
| Adapters.PushFailureIff | src/main.ts:72-82 | the push adapter fails iff the fetch of some distinct commit fails, so a failed fetch never silently truncates the result |
| Adapters.GetChangedFilesPush | src/main.ts:68-85 | exactly the distinct commits' ids are fetched, in commit order; without a failed fetch the lists equal `Fold` over the distinct commits' file lists in commit order, each list one batch, an absent `files` field counting as empty; a failed fetch fails the adapter |
| PrNumber.DigitRun | src/main.ts:102 | the `\d+` of the scan takes the longest run of ASCII digits at a position |
| PrNumber.LeadingSpace | src/main.ts:92 | the white-space prefix that `parseInt` skips is the longest run of JavaScript white-space and line-terminator characters |
| PrNumber.ParseInt | src/main.ts:92 | `parseInt(s, 10)` is NaN exactly when, after leading white space and an optional sign, no digit follows |
| PrNumber.DecimalShow | src/main.ts:92 | the decimal value of the numeral of `n` is `n` |
| PrNumber.ParseIntShowNat | src/main.ts:92 | reading a number's decimal numeral with `parseInt` gives the number back, also when trailing text that does not start with a digit follows |
| PrNumber.ParseIntDigits | src/main.ts:104 | `parseInt` of a non-empty digit string, such as the captured group, is its decimal value and never NaN |
| PrNumber.Truthy | src/main.ts:148 | the falsy numbers that make `!pr` fail the run are exactly NaN and 0 |
| PrNumber.ParsedDigitsTruthy | src/main.ts:92-104 | a non-empty digit string, as a `pr-number` input or a captured tag, reads as a truthy number exactly when some digit is not '0', so "0" and "000" fail the run |
| PrNumber.TagDigits | src/main.ts:102 | the captured group of a match is a non-empty digit string |
| PrNumber.TagAtIsRegexMatch | src/main.ts:102 | the scan's test at a position holds iff `pr-(\d+)-` matches there, and every match there captures exactly the longest digit run, so backtracking cannot shorten the capture |
| PrNumber.FirstTag | src/main.ts:102 | the scan returns the leftmost position holding the tag, or none when no position holds it, as `RegExp.exec` does |
| PrNumber.ExtractPrNumber | src/main.ts:87-98 | a non-empty `pr-number` input wins and is read with `parseInt`; otherwise a `pull_request` payload's number is returned |
| PrNumber.ExtractFromHeadRef | src/main.ts:100-108 | with neither input nor pull-request payload, the result is undefined iff the merge-group head ref is absent or holds no tag; otherwise it is the decimal value of the leftmost tag's digits |
| PrNumber.MergeQueueScenario | src/main.ts:100-106 | the merge-queue head ref `gh-readonly-queue/main/pr-123-abc` resolves to pull request 123 |
| Encoding.GetEncoder | src/main.ts:115-124 | an empty input or `string` selects newline-joined text, `json` selects JSON, and every other value is the error "'result-encoding' must be either 'string' or 'json'" |
| Encoding.Join | src/main.ts:121 | joining puts the paths in order with one newline between each two: the empty list gives "", the first path is a prefix, and a non-empty list without newlines gives exactly one newline fewer than it has paths |
| Encoding.Encode | src/main.ts:117-121 | the text encoding of a non-empty list without newlines splits back into the list, the empty list gives "", and the JSON encoding is the array itself |
| Encoding.SplitJoin | src/main.ts:121 | splitting the newline-joined text on newlines gives the list back when the list is non-empty and no path contains a newline |
| Encoding.SplitJoinEmpty | src/main.ts:121 | the empty list joins to the empty text, which splits to one empty path: the one list the round trip misses |
| Encoding.EncodeInjective | src/main.ts:117-121 | with either encoding, two different non-empty lists without newlines publish different outputs |
| Dispatch.SelectEvent | src/main.ts:129-130 | a non-empty `event` input overrides the ambient event name |
| Dispatch.SelectMode | src/main.ts:135-158 | `push` with commits selects the push adapter on those commits; `push` without them fails with "Could not get push from context, exiting"; `pull_request` fails with "Could not get pull request from context, exiting" iff the number is undefined, NaN or 0, and otherwise selects the pull-request adapter on exactly that number; any other event selects empty lists |
| Dispatch.Matcher | src/main.ts:54-55 | an empty `pattern` accepts every path; otherwise the filter is the compiled pattern, or its compilation error |
| Dispatch.Run | src/main.ts:127-165 | the run performed with the adapters ends exactly as `RunSpec` says: the required check on the raw token, the client's rejection of a token that trims to empty, the event switch, the adapter, then the encoder |
| Dispatch.OtherEventsPublishEmptyLists | src/main.ts:156-164 | an event other than push and pull_request publishes the selected encoding of the empty list three times |
| Dispatch.MissingIdentityFails | src/main.ts:136-151 | a missing push payload, or an undefined or zero pull-request number, ends the run with its own message before any fetch or encoder check |
| Dispatch.RepoTokenRequired | src/main.ts:127-131 | a run without a `repo-token` value fails with the required-input message; a value of white space only passes that check but trims to the empty token, so building the client fails the run with "Parameter token or opts.auth is required", whatever the event |
| Dispatch.BadEncodingNeverPublishes | src/main.ts:160-164 | an unrecognised `result-encoding` never lets the run publish outputs |
| Dispatch.PullRequestRunPublishes | src/main.ts:146-164 | a pull-request run whose pages are fetched publishes, for each output, the encoding of exactly the paths the records contribute to that list, in order |
| Dispatch.PushRunPublishes | src/main.ts:136-164 | a push run whose fetches all succeed publishes, for each output, the encoding of exactly the paths the distinct commits' records contribute to that list |

## Left out

- The Octokit calls `pulls.listFiles`, `repos.getCommit` and `paginate.iterator` are network I/O. The model takes their results as values: a sequence of page responses per pull-request number, and a response per commit id.
- The page size (100) and the way pages are requested are left out; only the order of the pages matters.
- `core.getInput` and the ambient `context` are replaced by the `Inputs` and `Context` parameters. `getInput` trims whitespace; the model receives the trimmed values, except for `repo-token`, whose raw value it receives because the required check (`src/main.ts:128`) tests the value before trimming.
- `getOctokit(token)` (`src/main.ts:131`) is a library call. The model keeps only its rejection of an empty token, which throws "Parameter token or opts.auth is required"; the client it builds otherwise is the `provider` parameter, and whether that client's token is accepted shows only as the provider's errors.
- `core.setOutput` and `core.setFailed` are replaced by the returned `RunOutcome`. The `core.debug` messages and the `console.error(err)` of the top-level `catch` (`src/main.ts:168`) are logging only and are dropped.
- The JavaScript regular expression engine behind `pattern.test` is left out because it is a foreign library. It is an uninterpreted predicate, and `new RegExp(pattern)` is the `compile` parameter.
- The fixed regex `pr-(\d+)-` is modelled as an explicit scan.
- `run` builds a `ChangedFiles(/./)` for other events, but never applies a record to it. The model uses the empty lists directly.
- The bytes produced by `JSON.stringify` are left out because it is a library call. For `json`, the model publishes `JsonArray(items)`, the array handed to `JSON.stringify`.
- So the exact text `["a","b"]` that `json` publishes for two paths is not stated.
- Adapters.GetChangedFilesPush: models commits as fetched and applied one at a time, in commit order, each file list as one uninterrupted batch. `Promise.all` runs the callbacks concurrently, so the records arrive in completion order.
- Adapters.GetChangedFilesPush: when several fetches fail, the model reports the first failing commit in commit order. `Promise.all` reports the first rejection in time.
- PrNumber.ParseInt: models numbers as unbounded integers. JavaScript's floating-point rounding of very long digit strings, including `Infinity`, is not modelled. No such value can be falsy, so the pass/fail decision at `src/main.ts:148` is unaffected; the number passed to the file listing can differ from JavaScript's (for `pr-number` "9007199254740993" JavaScript passes 9007199254740992).
- PrNumber.ParseInt: gives `-0` as `Int(0)`. Both are falsy, so the caller fails on both.
- A `pull_request` payload without a `number`, and a `merge_group` payload without a `head_ref`, are not represented.
  - In the first case the source returns `undefined`, and the run fails in the same way as for a missing number.
  - In the second case `exec` receives the text "undefined", which holds no tag. The model treats it as an absent head ref.
- A `commits` payload that is present but not an array is not represented.
- The message of a provider error or a regex compilation error is taken as given. The model only prefixes it with "Unhandled error: ", as the top-level `catch` does.
