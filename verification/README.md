# json-schema-validate-action, modelled in Dafny

A model of `run()`, the whole logic of the GitHub action that validates
YAML or JSON files against a JSON schema. It models the steps in order:

1. The action reads its four inputs.
2. A remote schema (an `http://` or `https://` URL) is resolved to a local
   file. It is either restored from the Actions cache, or downloaded,
   written and saved to the cache.
3. The action loads the schema and enumerates the instance files with a glob.
4. It validates each file, logs a status line for the file and reports
   every validator error.
5. It ends the run in one of two ways. It fails the run with a message.
   Otherwise it publishes the `valid` output, first setting the exit code
   to 1 when some file is invalid and `fail-on-invalid` is on.
6. A single handler catches anything thrown on the way. For an `Error` with
   a non-empty stack, the handler logs the stack at debug level. It then fails
   the run with the thrown value's text.

Each collaborator of the action is an oracle, an input to the model that
either returns a value or throws: the toolkit's input readers, SHA-256, the
cache, the HTTP client, the file system, the glob enumeration, and the
parser and validator of each file. A run records every call it makes on the
outside world, in order, in an effect log (`Effects.Effect`). The modules
follow the stages of `run()`:

- `Effects`: the effect log, thrown values and their reported text, the
  projection of a log on the file reads, debug lines, warnings or error
  records, and the decimal rendering of a status code.
- `RemoteSchema`: the cache-or-fetch protocol (src/main.ts lines 26-72). It
  is written as the method `ResolveSchema`, which is proved equal to the
  reference functions `ProtocolLog` and `ResolutionOf`. The protocol's
  properties are lemmas about those functions.
- `FileLoop`: the loop over the enumerated files (lines 83-104). It is
  written as the method `ValidateFiles`. Its invariants tie `valid` to the
  verdicts of the files seen so far and the log to `FilesLog`.
- `Action`: the whole run (lines 18-123). It is written as the method `Run`,
  which is proved equal to `RunLog`, `ExpectedOutcome` and `ExitCodeAfter`.
  The lemmas about these functions state the behaviour the action's tests
  pin down.

## Model

| member | source | states |
|---|---|---|
| Effects.ThrownText | src/main.ts:42-43 | the text reported for a thrown value: the message of an `Error`, otherwise the value's JSON text (also lines 66-67 and 120); `HandlerReportsOnce` and `CacheErrorsAreWarnings` state where it appears |
| Effects.NatDecimal | src/main.ts:55 | the status code in the failure message is printed as a non-empty string of decimal digits with no leading zero |
| Effects.NatDecimalRoundTrip | src/main.ts:55 | the printed status code reads back as the same number, so distinct codes give distinct messages |
| RemoteSchema.IsRemote | src/main.ts:26 | a schema is remote when it starts with `http://` or `https://`; `LocalSchemaIsUsedAsGiven` and `FetchExactlyOnMiss` state what follows from it |
| RemoteSchema.TempDir | src/main.ts:30 | `RUNNER_TEMP`, or `/tmp/` only when the variable is unset; `LocalSchemaPathParts` states that the local path lies in it |
| RemoteSchema.JoinPath | src/main.ts:29-32 | `path.join` of a directory and a plain file name with one `/` between; `JoinPathParts` states that the result starts with the directory and ends with the name |
| RemoteSchema.JoinPathParts | src/main.ts:29-32 | the joined path starts with the directory, ends with the file name and adds at most one character between them |
| RemoteSchema.LocalSchemaPath | src/main.ts:29-32 | the local file of a remote schema, `<temp dir>/schema-<hash>.json`; `LocalSchemaPathParts` and `CacheCallsShareOnePathAndKey` state its properties |
| RemoteSchema.LocalSchemaPathParts | src/main.ts:29-32 | the local schema file lies in the temporary directory and its name is `schema-<hash>.json` |
| RemoteSchema.CacheKey | src/main.ts:34 | the cache key `schema-<hash>`; `CacheCallsShareOnePathAndKey` states that restore and save both use it |
| RemoteSchema.ShowCode | src/main.ts:55 | the status code as the template literal prints it, `undefined` when absent; `NatDecimal` and `NatDecimalRoundTrip` state the properties of its digits, and `NotFoundMessage` shows it for 404 |
| RemoteSchema.ShowText | src/main.ts:55 | the status message, `undefined` when absent; `NotFoundMessage` shows it in the failure message |
| RemoteSchema.FetchFailureMessage | src/main.ts:55 | `Failed to fetch remote schema: <code> - <message>`; `FetchFailureStops`, `StoppedOnlyByFetchFailure` and `NotFoundMessage` state where and how it appears |
| RemoteSchema.RestoreWarning | src/main.ts:42-44 | the restore prefix followed by the thrown value's text; `CacheErrorsAreWarnings` states that it is the only trace of a throwing restore |
| RemoteSchema.SaveWarning | src/main.ts:66-68 | the save prefix followed by the thrown value's text; `CacheErrorsAreWarnings` states that it is the only trace of a throwing save |
| RemoteSchema.ResolveSchema | src/main.ts:26-72 | the imperative protocol makes exactly the calls of `ProtocolLog`, in that order, and ends as `ResolutionOf` says: a local path, the fetch-failure stop, or a thrown value |
| RemoteSchema.Download | src/main.ts:48-71 | the download on a miss makes exactly the calls of `DownloadSteps` and ends as `DownloadResolution` says: the fetch-failure stop, a throw of the fetch, body read or write, or the local path |
| RemoteSchema.LocalSchemaIsUsedAsGiven | src/main.ts:26 | a schema that does not start with `http://` or `https://` makes no protocol call and is used unchanged |
| RemoteSchema.ProtocolStepsInOrder | src/main.ts:26-72 | a remote schema is hashed first; after that the steps are restore, restore warning, fetch, failure or write, save, save warning, each at most once and in that order |
| RemoteSchema.DownloadStepsInOrder | src/main.ts:48-71 | the download's calls come in protocol order, all after the hash and the restore |
| RemoteSchema.CacheCallsShareOnePathAndKey | src/main.ts:28-64 | restore and save get the same one-element path list and the same key `schema-<hash>`; the file written and the path the schema resolves to are that same path |
| RemoteSchema.CacheUsedOnlyWhenEnabled | src/main.ts:37-70 | the restore happens exactly when the schema is remote and caching is on; the save happens exactly when, in addition, the download succeeded, the file was written and the cache missed |
| RemoteSchema.FetchExactlyOnMiss | src/main.ts:48-51 | the URL, and only the URL, is fetched exactly on a miss; a hit makes only the hash and the restore; with caching off no cache call happens |
| RemoteSchema.BodyWrittenOnDownload | src/main.ts:60 | the downloaded body is written to the local path exactly when the fetch answered 200 with a readable body |
| RemoteSchema.CacheErrorsAreWarnings | src/main.ts:38-69 | a throwing restore or save becomes exactly the warning with its prefix and the thrown value's text; a throwing restore ends like a miss, and the save's outcome never changes the resolution |
| RemoteSchema.FetchFailureStops | src/main.ts:53-58 | a status other than 200 stops the protocol with `Failed to fetch remote schema: <code> - <message>` as its last step, with nothing written or saved |
| RemoteSchema.StoppedOnlyByFetchFailure | src/main.ts:53-58 | the protocol stops only after a miss whose fetch answered a status other than 200, and the stop carries that status and status message |
| RemoteSchema.OnlyFetchFailureReports | src/main.ts:26-72 | a stopped protocol ends with its `setFailed` as the last step and no earlier run-ending call; a protocol that does not stop makes no run-ending call at all |
| RemoteSchema.DownloadStepsEnd | src/main.ts:48-71 | on a miss, the download step ends the run exactly when it stops, and then with the failure report as its last call |
| RemoteSchema.StepKinds | src/main.ts:37-71 | the restore step only restores and warns; the download step only fetches, fails the run, writes, saves and warns |
| RemoteSchema.ProtocolMakesNoLoopCalls | src/main.ts:26-72 | the protocol reads no file, enumerates nothing and logs nothing at debug or error level |
| RemoteSchema.NotFoundMessage | src/main.ts:54-56 | a 404 `Not Found` answer is reported as `Failed to fetch remote schema: 404 - Not Found` |
| FileLoop.ValidLine | src/main.ts:102 | the debug line `✓ <path> is valid`; `StatusLinePerFile` states that each valid file gets it once, in order |
| FileLoop.InvalidLine | src/main.ts:94 | the debug line `U+10102 <path> is not valid`; `StatusLinePerFile` states that each invalid file gets it once, in order |
| FileLoop.StatusLine | src/main.ts:92-102 | the valid or not-valid line for a file by its verdict; `FileStepsTexts` and `StatusLinePerFile` state where it appears |
| FileLoop.ErrorsOf | src/main.ts:92-100 | the errors reported for a file: none if it is valid or has no error list, otherwise the validator's list; `ErrorsReportedInOrder` and `ValidFilesReportNoErrors` state its properties |
| FileLoop.ErrorRecords | src/main.ts:97-99 | one error record per validator error |
| FileLoop.LoadedCount | src/main.ts:88-90 | the number of files that load before the first one that throws; every earlier file loaded, and the file at that position threw |
| FileLoop.ReportErrors | src/main.ts:96-100 | the inner loop emits one `core.error` per validator error, in order |
| FileLoop.ValidateFile | src/main.ts:89-103 | one iteration reads the file; if it loads, it logs the file's status line and, for an invalid file, reports each of its errors |
| FileLoop.ValidateFiles | src/main.ts:83-104 | the loop's log is that of the files up to the first that throws; the thrown value is that file's or the enumeration's; otherwise `valid` is the conjunction of all verdicts and `filesValidated` says whether any file was enumerated |
| FileLoop.ErrorRecordsTexts | src/main.ts:96-100 | the error records carry exactly the validator's errors, in order, and nothing else |
| FileLoop.FileStepsTexts | src/main.ts:90-103 | one iteration reads its file once; a file that loads gets exactly one status line and its own errors |
| FileLoop.StoppedFilesTexts | src/main.ts:88-104 | proof step of `ProcessedFilesTexts`: when the file at position `n` is the first that throws, the loop reads the files up to it and logs and reports only those before it |
| FileLoop.StoppedAtFirstThrow | src/main.ts:88-104 | proof step of `ProcessedFilesTexts`: the same, at the position `LoadedCount` gives |
| FileLoop.CompletedFilesTexts | src/main.ts:88-104 | proof step of `ProcessedFilesTexts`: when every file loads, the loop reads, logs and reports all of them |
| FileLoop.ProcessedFilesTexts | src/main.ts:88-104 | whether the loop finishes or a file throws, it reads the files it gets to in order, the throwing one last; the status lines and the errors are those of the files before the first that throws |
| FileLoop.ReadsFollowEnumeration | src/main.ts:88-90 | the loop reads the files in enumeration order, each once |
| FileLoop.StatusLinePerFile | src/main.ts:92-103 | when every file loads, the debug lines are one status line per file, in order, naming it as valid or not valid |
| FileLoop.ErrorsReportedInOrder | src/main.ts:92-100 | when every file loads, the error records are the errors of the invalid files, file after file and in order |
| FileLoop.ValidFilesReportNoErrors | src/main.ts:92-101 | when every file is valid no error is reported; an error is only ever reported for an invalid file with an error list |
| FileLoop.FilesLogEffects | src/main.ts:88-104 | the loop only reads files, logs at debug level and reports errors |
| FileLoop.LoadedCountAll | src/main.ts:88-104 | the loop gets through every file exactly when every file loads |
| Action.RequiredInput | __tests__/utils.ts:9-19 | a required input returns its value when supplied and otherwise throws an `Error` with `Input required and not supplied: <name>`, as the tests' mock of the toolkit does |
| Action.JoinLines | src/main.ts:86 | the `files` patterns joined with newlines, the argument of `glob.create`; `NoFilesFailsRun` and `PublishedRunLog` show it in the enumeration call |
| Action.HandlerEffects | src/main.ts:118-121 | the handler's calls: the stack at debug level for an `Error` with a non-empty stack, then `setFailed` with the thrown value's text; `HandlerReportsOnce` states its properties |
| Action.ExitCodeAfter | src/main.ts:111-113 | the exit code after a run: 1 after a published `false` with fail-on-invalid on, otherwise unchanged; `PublishedExactlyWhenAllFilesChecked` states when it changes |
| Action.ValidateEnumerated | src/main.ts:83-115 | after the enumeration, the method makes the calls of `EnumeratedLog`, hands a thrown file or enumeration error to the handler, fails the run when no file was found, and sets the exit code to 1 only for a published `false` with fail-on-invalid on |
| Action.ValidateAgainstSchema | src/main.ts:74-115 | after the schema is resolved, the method makes the calls of `LoadLog`; it hands the value `LoadOutcome` names to the handler, and sets the exit code to 1 only for a published `false` with fail-on-invalid on |
| Action.ResolveAndValidate | src/main.ts:26-115 | once the inputs are read, the method makes the calls of `RunLog` up to the handler, hands the value `ExpectedOutcome` names to the handler, and leaves the exit code `ExitCodeAfter` gives |
| Action.Run | src/main.ts:18-123 | the whole run makes exactly the calls of `RunLog`, in order, and leaves the exit code `ExitCodeAfter` gives |
| Action.HandlerReportsOnce | src/main.ts:116-122 | the handler logs the stack only for an `Error` that has one, then fails the run once with the message, or with the JSON text of a value that is not an `Error` |
| Action.FinalEffectsEndOnce | src/main.ts:106-122 | each way of ending a run ends it exactly once, with the report of its outcome |
| Action.FilesLogQuiet | src/main.ts:88-104 | the file loop never ends the run |
| Action.FilesThenEndingEndOnce | src/main.ts:88-115 | proof step of `RunEndsOnce`: the file loop followed by any ending of the run ends it once, with that ending's report last |
| Action.EnumeratedLogEndsOnce | src/main.ts:83-122 | proof step of `RunEndsOnce`: after the enumeration, the rest of the run ends exactly once, with the report of its outcome last |
| Action.HandledAfterQuiet | src/main.ts:116-122 | proof step of `RunEndsOnce`: calls that end no run, followed by the handler, end the run once, with the thrown value's report last |
| Action.GlobFailureEndsOnce | src/main.ts:86-122 | proof step of `RunEndsOnce`: a throwing enumeration ends the run once, through the handler, after the schema read and the glob |
| Action.EnumeratedAfterGlobEndsOnce | src/main.ts:86-115 | proof step of `RunEndsOnce`: after the schema read and the glob, the file loop and the ending end the run once |
| Action.LoadLogEndsOnce | src/main.ts:74-122 | proof step of `RunEndsOnce`: after the schema is resolved, the rest of the run ends exactly once, with `setFailed` or `setOutput` as its last call |
| Action.InputsReadRunEndsOnce | src/main.ts:26-122 | proof step of `RunEndsOnce`: once the inputs are read, the protocol and what follows it end the run exactly once, with the report of the outcome last |
| Action.RunEndsOnce | src/main.ts:18-123 | every run ends with exactly one `setFailed` or `setOutput`, its last call, carrying the outcome's text or verdict |
| Action.PublishedExactlyWhenAllFilesChecked | src/main.ts:83-115 | the verdict is published exactly when the schema is resolved and loaded, at least one file is enumerated and every file loads; it is the conjunction of the verdicts; the exit code changes, to 1, exactly when some file is invalid and fail-on-invalid is on |
| Action.LoadLogMakesNoProtocolCalls | src/main.ts:74-122 | loading and validation make no hash, cache, fetch or write call |
| Action.LocalSchemaReadAsGiven | src/main.ts:26-75 | a local schema is read first, from the given path, and the run makes no hash, cache, fetch or write call |
| Action.FetchFailureEndsRun | src/main.ts:53-58 | a fetch answered with a status other than 200 ends the run with the fetch-failure report, with no schema read, no enumeration, no write, no save and no published output; main.ts does not set the exit code |
| Action.NoFilesFailsRun | src/main.ts:106-109 | an empty enumeration fails the run with `No files to validate` right after the schema read and the enumeration; main.ts does not set the exit code |
| Action.ProtocolHasNoReadsDebugsOrErrors | src/main.ts:26-72 | the protocol reads no file and logs nothing at debug or error level |
| Action.PublishedRunLog | src/main.ts:74-115 | a published run is the protocol, the schema read, the enumeration, every file's iteration and one `setOutput` of the conjunction of the verdicts |
| Action.PublishedShapeTexts | src/main.ts:74-115 | proof step of `PublishedRunTexts`: in a log shaped like a published run, the file reads, debug lines and error records are those of the file loop, after the schema read |
| Action.PublishedRunTexts | src/main.ts:75-104 | apart from the schema read, a published run reads, debug-logs and reports only what the file loop does |
| Action.PublishedRunReportsEveryFile | src/main.ts:75-104 | a published run reads the schema and then every file in enumeration order, logs one status line per file, and reports the errors of the invalid files in order; an all-valid run reports no error |
| Action.MissingInputFailsRun | src/main.ts:20-21 | a required `schema` or `files` input that is not supplied fails the run at once with `Input required and not supplied: <name>`; main.ts does not set the exit code |
| Action.RemoteSchemaReadFromCachedPath | src/main.ts:29-75 | a resolved remote schema is read, right after the protocol, from `<temp dir>/schema-<hash>.json`, the path the protocol restored or wrote |

## Left out

- Ajv schema compilation and validation (lines 76-81 and `validate(instance)`): the external validator is not modelled. Loading and compiling the schema is one oracle that may throw. Each file has an oracle verdict and an oracle error list.
- SHA-256 is an uninterpreted function from string to string. No property of the digest is assumed.
- YAML parsing and the file contents are not modelled. Reading and parsing a file is one oracle that may throw, and the read is recorded by its path.
- `JSON.stringify(error, null, 4)` of a validator error is not modelled. Each error is opaque text passed through unchanged. `JSON.stringify` of a thrown non-`Error` value is that value's given text.
- `path.join` normalisation is not modelled. `RemoteSchema.JoinPath` inserts one `/` unless the directory is empty or already ends with one. The effect of `..`, `.` or repeated slashes inside `RUNNER_TEMP` is out of scope.
- `RemoteSchema.JoinPath` always uses `/`. On a Windows runner `path.join` uses `\`, which is not modelled.
- `Effects.NatDecimal` prints a status code in plain decimal digits. JavaScript switches to exponent notation from 10^21 upwards, which is not modelled; HTTP status codes are far below that bound.
- `core.getBooleanInput` parsing of `true`/`false` strings is not modelled. A boolean input is an oracle that returns a boolean or throws.
- Requiredness of inputs: the toolkit's required-input check is modelled by `Action.RequiredInput`, after the test mock in `__tests__/utils.ts`. The real toolkit's treatment of whitespace-only inputs is not modelled.
- The async structure is not modelled. Every call is awaited in sequence, so there is no concurrency.
- The glob enumeration is not modelled beyond its result: a finite sequence of files, optionally followed by a throw of the generator. An enumeration that never ends is out of scope.
- `ExitCodeAfter` tracks only the assignment at src/main.ts:112. The toolkit's `core.setFailed` also sets `process.exitCode` to 1. That is not modelled, just as the action's tests do not see it, since they replace `@actions/core` with a mock.
- The logging and reporting calls (`core.debug`, `core.warning`, `core.error`, `core.setFailed`, `core.setOutput`) are assumed not to throw. `createHash` and `new HttpClient()` are assumed not to throw either.
- The validator's `validate` function is assumed not to throw. A throw while reading or parsing an instance file is modelled.
- A `$schema` check, a `json-schema` self-validation mode and the selection of a draft-04 or draft-2020-12 validator are not in `src/main.ts`, so they are not modelled.
- The debug line for an invalid file starts with U+10102 (AEGEAN CHECK MARK), the character `src/main.ts:94` uses, not with `✗`.
- `core.error` gets only the serialised validator error, as `src/main.ts:98` does. No title and no file annotation are attached.
