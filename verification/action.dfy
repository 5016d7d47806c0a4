/**
 * One run of the action (src/main.ts lines 18-123): read the inputs, resolve a
 * remote schema, load the schema, validate every enumerated file, and end with
 * exactly one of a failure report or the published `valid` output. Every
 * exception, wherever it is thrown, reaches the single handler at the end.
 */
module Action {
  import opened Effects
  import opened RemoteSchema
  import opened FileLoop

  /** What the collaborators of one run answer. */
  datatype Env = Env(
    schemaInput: Call<string>,         // core.getInput('schema', { required: true })
    filesInput: Call<seq<string>>,     // core.getMultilineInput('files', { required: true })
    cacheInput: Call<bool>,            // core.getBooleanInput('cache-remote-schema')
    failOnInvalidInput: Call<bool>,    // core.getBooleanInput('fail-on-invalid')
    remote: RemoteOracle,              // the collaborators of the remote-schema protocol
    schemaLoad: Call<()>,              // reading, parsing and compiling the schema
    glob: Call<()>,                    // glob.create
    files: seq<FileCheck>,             // what the glob generator yields, with each file's oracles
    enumerationError: Option<Thrown>)  // a throw of the generator after its last file

  /** How a run ends: the output is published, a failure is reported, or a thrown value is caught. */
  datatype Outcome = Published(valid: bool) | Reported(message: string) | Caught(error: Thrown)

  const NoFilesMessage := "No files to validate"

  /**
   * A required input as the toolkit reads it: an input that is not supplied
   * throws an `Error` naming it.
   */
  function RequiredInput<T>(name: string, supplied: Option<T>, stack: string): (r: Call<T>)
    ensures r.Returns? <==> supplied.Some?
    ensures r.Returns? ==> r.value == supplied.value
    ensures r.Throws? ==> r.error.ErrorInstance? && ThrownText(r.error) == "Input required and not supplied: " + name
  {
    match supplied
    case Some(v) => Returns(v)
    case None => Throws(ErrorInstance("Input required and not supplied: " + name, stack))
  }

  /** `files.join('\n')`. */
  function JoinLines(lines: seq<string>): string
    decreases |lines|
  {
    if lines == [] then ""
    else if |lines| == 1 then lines[0]
    else lines[0] + "\n" + JoinLines(lines[1..])
  }

  /** All four inputs were read without throwing. */
  predicate InputsRead(env: Env) {
    env.schemaInput.Returns? && env.filesInput.Returns? && env.cacheInput.Returns? && env.failOnInvalidInput.Returns?
  }

  function Protocol(env: Env): seq<Effect>
    requires InputsRead(env)
  {
    ProtocolLog(env.schemaInput.value, env.cacheInput.value, env.remote)
  }

  function SchemaResolution(env: Env): Resolution
    requires InputsRead(env)
  {
    ResolutionOf(env.schemaInput.value, env.cacheInput.value, env.remote)
  }

  /** The schema was resolved, loaded and compiled, and the files were enumerated. */
  predicate ReachesLoop(env: Env) {
    InputsRead(env) && SchemaResolution(env).Resolved? && env.schemaLoad.Returns? && env.glob.Returns?
  }

  /** How the run ends, from the first collaborator that throws or the first condition that stops it. */
  function ExpectedOutcome(env: Env): Outcome {
    if env.schemaInput.Throws? then Caught(env.schemaInput.error)
    else if env.filesInput.Throws? then Caught(env.filesInput.error)
    else if env.cacheInput.Throws? then Caught(env.cacheInput.error)
    else if env.failOnInvalidInput.Throws? then Caught(env.failOnInvalidInput.error)
    else match SchemaResolution(env)
      case Stopped(message) => Reported(message)
      case Raised(e) => Caught(e)
      case Resolved(_) => LoadOutcome(env)
  }

  /** How the run ends once the schema path is resolved. */
  function LoadOutcome(env: Env): Outcome {
    if env.schemaLoad.Throws? then Caught(env.schemaLoad.error)
    else if env.glob.Throws? then Caught(env.glob.error)
    else if LoadedCount(env.files) < |env.files| then Caught(env.files[LoadedCount(env.files)].load.error)
    else if env.enumerationError.Some? then Caught(env.enumerationError.value)
    else if env.files == [] then Reported(NoFilesMessage)
    else Published(AllValid(env.files))
  }

  /** The handler's effects: the stack at debug level when an `Error` has one, then the failure report. */
  function HandlerEffects(e: Thrown): seq<Effect> {
    (if e.ErrorInstance? && e.stack != "" then [Debug(e.stack)] else []) + [SetFailed(ThrownText(e))]
  }

  /** The effects that end a run with outcome `out`. */
  function FinalEffects(out: Outcome): seq<Effect> {
    match out
    case Published(valid) => [SetOutput("valid", valid)]
    case Reported(message) => [SetFailed(message)]
    case Caught(e) => HandlerEffects(e)
  }

  /**
   * The effects of a run, stage by stage: the remote-schema protocol, then
   * what follows the resolution of the schema, or the handler's effects when
   * an input or the protocol throws.
   */
  function RunLog(env: Env): seq<Effect> {
    if !InputsRead(env) then FinalEffects(ExpectedOutcome(env))
    else
      Protocol(env) +
      match SchemaResolution(env)
      case Stopped(_) => []
      case Raised(e) => HandlerEffects(e)
      case Resolved(path) => LoadLog(env, path, env.filesInput.value)
  }

  /**
   * The effects after the schema path is resolved: the schema read, the
   * enumeration and the file loop, the handler's effects when one of them
   * throws, and the ending of the run.
   */
  function LoadLog(env: Env, schemaPath: string, patterns: seq<string>): seq<Effect> {
    [ReadFile(schemaPath)] +
    if env.schemaLoad.Throws? then HandlerEffects(env.schemaLoad.error)
    else
      [GlobCreate(JoinLines(patterns))] +
      if env.glob.Throws? then HandlerEffects(env.glob.error)
      else EnumeratedLog(env)
  }

  /** The effects after the enumeration: the file loop, then the ending of the run. */
  function EnumeratedLog(env: Env): seq<Effect> {
    FilesLog(Processed(env.files)) + FinalEffects(LoadOutcome(env))
  }

  /** The value an outcome hands to the handler, if any. */
  function Escaped(out: Outcome): Option<Thrown> {
    if out.Caught? then Some(out.error) else None
  }

  /** The handler's effects for what reached it, if anything did. */
  function Handled(caught: Option<Thrown>): seq<Effect> {
    match caught
    case None => []
    case Some(e) => HandlerEffects(e)
  }

  /** The exit code a run leaves: 1 after a published `false` with fail-on-invalid on, else unchanged. */
  function ExitCodeAfter(env: Env, exitCode0: Option<int>): Option<int> {
    if ExpectedOutcome(env) == Published(false) && env.failOnInvalidInput == Returns(true) then Some(1) else exitCode0
  }

  /**
   * The file loop and the ending of the run (lines 83-115), once the schema is
   * loaded and the files are enumerated. `caught` is the value thrown to the
   * handler.
   */
  method ValidateEnumerated(env: Env, failOnInvalid: bool, exitCode0: Option<int>)
    returns (log: seq<Effect>, exitCode: Option<int>, caught: Option<Thrown>)
    requires env.schemaLoad.Returns? && env.glob.Returns?
    ensures caught == Escaped(LoadOutcome(env))
    ensures EnumeratedLog(env) == log + Handled(caught)
    ensures exitCode == if LoadOutcome(env) == Published(false) && failOnInvalid then Some(1) else exitCode0
  {
    exitCode, caught := exitCode0, None;
    var valid, filesValidated, thrown;
    log, valid, filesValidated, thrown := ValidateFiles(env.files, env.enumerationError);
    if thrown.Some? {
      caught := thrown;
      return;
    }
    if !filesValidated {
      log := log + [SetFailed(NoFilesMessage)];
      return;
    }
    if !valid && failOnInvalid {
      exitCode := Some(1);
    }
    log := log + [SetOutput("valid", valid)];
  }

  /**
   * Loading the schema and validating the files against it (lines 74-115), once
   * the schema path is resolved. `caught` is the value thrown to the handler.
   */
  method ValidateAgainstSchema(env: Env, schemaPath: string, patterns: seq<string>, failOnInvalid: bool, exitCode0: Option<int>)
    returns (log: seq<Effect>, exitCode: Option<int>, caught: Option<Thrown>)
    ensures caught == Escaped(LoadOutcome(env))
    ensures LoadLog(env, schemaPath, patterns) == log + Handled(caught)
    ensures exitCode == if LoadOutcome(env) == Published(false) && failOnInvalid then Some(1) else exitCode0
  {
    log, exitCode, caught := [ReadFile(schemaPath)], exitCode0, None;
    if env.schemaLoad.Throws? {
      caught := Some(env.schemaLoad.error);
      return;
    }
    log := log + [GlobCreate(JoinLines(patterns))];
    if env.glob.Throws? {
      caught := Some(env.glob.error);
      return;
    }
    var rest;
    rest, exitCode, caught := ValidateEnumerated(env, failOnInvalid, exitCode0);
    assert LoadLog(env, schemaPath, patterns) == log + (rest + Handled(caught));
    log := log + rest;
  }

  /**
   * The run once its four inputs are read (lines 26-115): the remote-schema
   * protocol, then loading and validation. `caught` is the value thrown to
   * the handler.
   */
  method ResolveAndValidate(env: Env, exitCode0: Option<int>)
    returns (log: seq<Effect>, exitCode: Option<int>, caught: Option<Thrown>)
    requires InputsRead(env)
    ensures caught == Escaped(ExpectedOutcome(env))
    ensures RunLog(env) == log + Handled(caught)
    ensures exitCode == ExitCodeAfter(env, exitCode0)
  {
    exitCode, caught := exitCode0, None;
    var schemaPath := env.schemaInput.value;
    var cacheRemoteSchema := env.cacheInput.value;
    var resolution;
    log, resolution := ResolveSchema(schemaPath, cacheRemoteSchema, env.remote);
    match resolution
    case Stopped(message) =>
      assert ExpectedOutcome(env) == Reported(message);
      assert RunLog(env) == log + [];
    case Raised(e) =>
      assert ExpectedOutcome(env) == Caught(e);
      assert RunLog(env) == log + HandlerEffects(e);
      caught := Some(e);
    case Resolved(resolvedPath) =>
      assert ExpectedOutcome(env) == LoadOutcome(env);
      assert RunLog(env) == log + LoadLog(env, resolvedPath, env.filesInput.value);
      var rest;
      rest, exitCode, caught :=
        ValidateAgainstSchema(env, resolvedPath, env.filesInput.value, env.failOnInvalidInput.value, exitCode0);
      assert RunLog(env) == log + (rest + Handled(caught));
      log := log + rest;
  }

  /**
   * The action's entry point. `exitCode0` is `process.exitCode` before the
   * run; `exitCode` is its value afterwards.
   */
  method Run(env: Env, exitCode0: Option<int>) returns (log: seq<Effect>, exitCode: Option<int>)
    ensures log == RunLog(env)
    ensures exitCode == ExitCodeAfter(env, exitCode0)
  {
    log, exitCode := [], exitCode0;
    var caught: Option<Thrown> := None;

    if env.schemaInput.Throws? {
      caught := Some(env.schemaInput.error);
    } else if env.filesInput.Throws? {
      caught := Some(env.filesInput.error);
    } else if env.cacheInput.Throws? {
      caught := Some(env.cacheInput.error);
    } else if env.failOnInvalidInput.Throws? {
      caught := Some(env.failOnInvalidInput.error);
    } else {
      log, exitCode, caught := ResolveAndValidate(env, exitCode0);
    }

    ghost var before := log;
    if caught.Some? {
      var error := caught.value;
      if error.ErrorInstance? && error.stack != "" {
        log := log + [Debug(error.stack)];
      }
      log := log + [SetFailed(ThrownText(error))];
    }
    assert log == before + Handled(caught);
  }

  /** The call that ends a run with outcome `out`. */
  function Report(out: Outcome): Effect {
    match out
    case Published(valid) => SetOutput("valid", valid)
    case Reported(message) => SetFailed(message)
    case Caught(e) => SetFailed(ThrownText(e))
  }

  /** The handler logs the stack at debug level only for an `Error` that has one, then reports the thrown value's text once. */
  lemma HandlerReportsOnce(e: Thrown)
    ensures EndsWith(HandlerEffects(e), SetFailed(ThrownText(e)))
    ensures e.ErrorInstance? ==> (Debug(e.stack) in HandlerEffects(e) <==> e.stack != "")
    ensures e.NonError? ==> HandlerEffects(e) == [SetFailed(e.json)]
    ensures |HandlerEffects(e)| == if e.ErrorInstance? && e.stack != "" then 2 else 1
  {
    var report := SetFailed(ThrownText(e));
    if e.ErrorInstance? && e.stack != "" {
      assert HandlerEffects(e) == [Debug(e.stack), report];
      assert HandlerEffects(e)[..1] == [Debug(e.stack)];
    } else {
      assert HandlerEffects(e) == [report];
      assert HandlerEffects(e)[..0] == [];
    }
  }

  /** The effects that end a run end it once, with the report of its outcome. */
  lemma FinalEffectsEndOnce(out: Outcome)
    ensures EndsWith(FinalEffects(out), Report(out))
  {
    if out.Caught? {
      HandlerReportsOnce(out.error);
    }
  }

  /** The file loop never ends a run. */
  lemma FilesLogQuiet(files: seq<FileCheck>)
    ensures Quiet(FilesLog(files))
  {
    var filesLog := FilesLog(files);
    FilesLogEffects(files);
    forall i | 0 <= i < |filesLog|
      ensures !IsTerminal(filesLog[i])
    {
      assert filesLog[i] in filesLog;
    }
  }

  /** The file loop followed by the ending of the run ends it once. */
  lemma FilesThenEndingEndOnce(files: seq<FileCheck>, out: Outcome)
    ensures EndsWith(FilesLog(files) + FinalEffects(out), Report(out))
  {
    FilesLogQuiet(files);
    FinalEffectsEndOnce(out);
    QuietPrefix(FilesLog(files), FinalEffects(out), Report(out));
  }

  /** After the enumeration, the file loop and the ending end the run once, with the report of its outcome. */
  lemma EnumeratedLogEndsOnce(env: Env)
    requires env.schemaLoad.Returns? && env.glob.Returns?
    ensures EndsWith(EnumeratedLog(env), Report(LoadOutcome(env)))
  {
    FilesThenEndingEndOnce(Processed(env.files), LoadOutcome(env));
  }

  /** A quiet prefix followed by the handler ends the run once, with the thrown value's report. */
  lemma HandledAfterQuiet(front: seq<Effect>, e: Thrown)
    requires Quiet(front)
    ensures EndsWith(front + HandlerEffects(e), Report(Caught(e)))
  {
    HandlerReportsOnce(e);
    QuietPrefix(front, HandlerEffects(e), Report(Caught(e)));
  }

  /** Once the schema is resolved, the rest of the run ends exactly once, with the report of its outcome. */
  lemma LoadLogEndsOnce(env: Env, schemaPath: string, patterns: seq<string>)
    ensures EndsWith(LoadLog(env, schemaPath, patterns), Report(LoadOutcome(env)))
  {
    if env.schemaLoad.Throws? {
      HandledAfterQuiet([ReadFile(schemaPath)], env.schemaLoad.error);
    } else if env.glob.Throws? {
      GlobFailureEndsOnce(env, schemaPath, patterns);
    } else {
      EnumeratedAfterGlobEndsOnce(env, schemaPath, patterns);
    }
  }

  /** A throwing enumeration goes straight to the handler, after the schema read and the glob. */
  lemma GlobFailureEndsOnce(env: Env, schemaPath: string, patterns: seq<string>)
    requires env.schemaLoad.Returns? && env.glob.Throws?
    ensures EndsWith(LoadLog(env, schemaPath, patterns), Report(LoadOutcome(env)))
  {
    var front := [ReadFile(schemaPath)] + [GlobCreate(JoinLines(patterns))];
    assert LoadLog(env, schemaPath, patterns) == front + HandlerEffects(env.glob.error);
    HandledAfterQuiet(front, env.glob.error);
  }

  /** After the schema read and the glob, the file loop and the ending end the run once. */
  lemma EnumeratedAfterGlobEndsOnce(env: Env, schemaPath: string, patterns: seq<string>)
    requires env.schemaLoad.Returns? && env.glob.Returns?
    ensures EndsWith(LoadLog(env, schemaPath, patterns), Report(LoadOutcome(env)))
  {
    var front := [ReadFile(schemaPath)] + [GlobCreate(JoinLines(patterns))];
    assert LoadLog(env, schemaPath, patterns) == front + EnumeratedLog(env);
    EnumeratedLogEndsOnce(env);
    QuietPrefix(front, EnumeratedLog(env), Report(LoadOutcome(env)));
  }

  /**
   * Every run ends with exactly one call that ends it: `setOutput` when the
   * verdict is published, `setFailed` otherwise, with the outcome's text.
   */
  lemma RunEndsOnce(env: Env)
    ensures EndsWith(RunLog(env), Report(ExpectedOutcome(env)))
  {
    if !InputsRead(env) {
      HandlerReportsOnce(ExpectedOutcome(env).error);
    } else {
      InputsReadRunEndsOnce(env);
    }
  }

  /** Once the inputs are read, the protocol and what follows it end the run once. */
  lemma InputsReadRunEndsOnce(env: Env)
    requires InputsRead(env)
    ensures EndsWith(RunLog(env), Report(ExpectedOutcome(env)))
  {
    var out := ExpectedOutcome(env);
    var schema, cacheRemote := env.schemaInput.value, env.cacheInput.value;
    var protocol := Protocol(env);
    OnlyFetchFailureReports(schema, cacheRemote, env.remote);
    match SchemaResolution(env)
    case Stopped(message) =>
      assert RunLog(env) == protocol + [];
    case Raised(e) =>
      HandlerReportsOnce(e);
      QuietPrefix(protocol, HandlerEffects(e), Report(out));
    case Resolved(path) =>
      LoadLogEndsOnce(env, path, env.filesInput.value);
      QuietPrefix(protocol, LoadLog(env, path, env.filesInput.value), Report(out));
  }

  /**
   * The verdict is published exactly when the schema is resolved and loaded,
   * the files are enumerated, at least one file is found and every file loads;
   * it is the conjunction of the files' verdicts. Only a published `false`
   * with fail-on-invalid on changes the exit code, and it sets it to 1.
   */
  lemma PublishedExactlyWhenAllFilesChecked(env: Env, exitCode0: Option<int>)
    ensures ExpectedOutcome(env).Published? <==>
      ReachesLoop(env) && env.files != [] && Loaded(env.files) && env.enumerationError.None?
    ensures ExpectedOutcome(env).Published? ==> ExpectedOutcome(env).valid == AllValid(env.files)
    ensures ExitCodeAfter(env, exitCode0) != exitCode0 ==>
      ExitCodeAfter(env, exitCode0) == Some(1) && ReachesLoop(env) && env.files != [] && Loaded(env.files) &&
      !AllValid(env.files) && env.failOnInvalidInput == Returns(true)
    ensures (ReachesLoop(env) && env.files != [] && Loaded(env.files) && env.enumerationError.None? &&
             !AllValid(env.files) && env.failOnInvalidInput == Returns(true)) ==>
      ExitCodeAfter(env, exitCode0) == Some(1)
  {
    LoadedCountAll(env.files);
  }

  /** A call of the remote-schema protocol on the cache, the HTTP client or the file system's writer. */
  predicate ProtocolCall(e: Effect) {
    e.Hash? || e.RestoreCache? || e.SaveCache? || e.HttpGet? || e.WriteFile?
  }

  predicate NoProtocolCalls(log: seq<Effect>) {
    forall i :: 0 <= i < |log| ==> !ProtocolCall(log[i])
  }

  lemma NoProtocolCallsConcat(a: seq<Effect>, b: seq<Effect>)
    requires NoProtocolCalls(a) && NoProtocolCalls(b)
    ensures NoProtocolCalls(a + b)
  {
    forall i | 0 <= i < |a + b|
      ensures !ProtocolCall((a + b)[i])
    {
      if i >= |a| {
        assert (a + b)[i] == b[i - |a|];
      }
    }
  }

  /** Loading the schema and validating the files make no call of the remote-schema protocol. */
  lemma LoadLogMakesNoProtocolCalls(env: Env, schemaPath: string, patterns: seq<string>)
    ensures NoProtocolCalls(LoadLog(env, schemaPath, patterns))
  {
    var out := LoadOutcome(env);
    if !env.schemaLoad.Throws? && !env.glob.Throws? {
      var filesLog := FilesLog(Processed(env.files));
      FilesLogEffects(Processed(env.files));
      forall i | 0 <= i < |filesLog|
        ensures !ProtocolCall(filesLog[i])
      {
        assert filesLog[i] in filesLog;
      }
      NoProtocolCallsConcat(filesLog, FinalEffects(out));
      NoProtocolCallsConcat([ReadFile(schemaPath), GlobCreate(JoinLines(patterns))], filesLog + FinalEffects(out));
      assert LoadLog(env, schemaPath, patterns) ==
        [ReadFile(schemaPath), GlobCreate(JoinLines(patterns))] + (filesLog + FinalEffects(out));
    }
  }

  /** A local schema is read from the given path first, and never hashed, cached, fetched or written. */
  lemma LocalSchemaReadAsGiven(env: Env)
    requires InputsRead(env) && !IsRemote(env.schemaInput.value)
    ensures |RunLog(env)| > 0 && RunLog(env)[0] == ReadFile(env.schemaInput.value)
    ensures forall e :: e in RunLog(env) ==> !e.Hash? && !e.RestoreCache? && !e.SaveCache? && !e.HttpGet? && !e.WriteFile?
  {
    var schema := env.schemaInput.value;
    LocalSchemaIsUsedAsGiven(schema, env.cacheInput.value, env.remote);
    assert RunLog(env) == LoadLog(env, schema, env.filesInput.value);
    LoadLogMakesNoProtocolCalls(env, schema, env.filesInput.value);
  }

  /**
   * A fetch answered with a status other than 200 ends the run with the
   * protocol's own failure report: the schema is never read, no file is
   * enumerated, no verdict is published and the exit code is left alone.
   */
  lemma FetchFailureEndsRun(env: Env, exitCode0: Option<int>)
    requires InputsRead(env) && IsRemote(env.schemaInput.value) && !CacheHit(env.cacheInput.value, env.remote)
    requires env.remote.get.Returns? && env.remote.get.value.statusCode != Some(200)
    ensures ExpectedOutcome(env) == Reported(FetchFailureMessage(env.remote.get.value))
    ensures RunLog(env) == Protocol(env)
    ensures forall e :: e in RunLog(env) ==> !e.ReadFile? && !e.GlobCreate? && !e.SetOutput? && !e.WriteFile? && !e.SaveCache?
    ensures ExitCodeAfter(env, exitCode0) == exitCode0
  {
    var schema, cacheRemote := env.schemaInput.value, env.cacheInput.value;
    FetchFailureStops(schema, cacheRemote, env.remote);
    OnlyFetchFailureReports(schema, cacheRemote, env.remote);
    ProtocolMakesNoLoopCalls(schema, cacheRemote, env.remote);
    var log := Protocol(env);
    assert RunLog(env) == log + [];
    forall e | e in log
      ensures !e.SetOutput?
    {
      var i :| 0 <= i < |log| && log[i] == e;
      if i < |log| - 1 {
        assert log[..|log| - 1][i] == e;
      }
    }
  }

  /**
   * When the enumeration yields nothing, the run reports that there are no
   * files to validate, right after the schema read and the enumeration, and
   * leaves the exit code alone.
   */
  lemma NoFilesFailsRun(env: Env, exitCode0: Option<int>)
    requires ReachesLoop(env) && env.files == [] && env.enumerationError.None?
    ensures ExpectedOutcome(env) == Reported(NoFilesMessage)
    ensures RunLog(env) == Protocol(env) +
      [ReadFile(SchemaResolution(env).path), GlobCreate(JoinLines(env.filesInput.value)), SetFailed(NoFilesMessage)]
    ensures ExitCodeAfter(env, exitCode0) == exitCode0
  {
    assert Processed(env.files) == [];
  }

  /** The protocol reads no file and logs nothing at debug or error level. */
  lemma ProtocolHasNoReadsDebugsOrErrors(env: Env, k: Kind)
    requires InputsRead(env) && k != Warnings
    ensures Texts(Protocol(env), k) == []
  {
    var protocol := Protocol(env);
    ProtocolMakesNoLoopCalls(env.schemaInput.value, env.cacheInput.value, env.remote);
    forall i | 0 <= i < |protocol|
      ensures TextOf(protocol[i], k) == []
    {
      assert protocol[i] in protocol;
    }
    TextsNone(protocol, k);
  }

  /** The effects of a run that publishes its verdict, stage by stage. */
  lemma PublishedRunLog(env: Env)
    requires ExpectedOutcome(env).Published?
    ensures ReachesLoop(env) && Loaded(env.files) && ExpectedOutcome(env) == Published(AllValid(env.files))
    ensures RunLog(env) == Protocol(env) +
      ([ReadFile(SchemaResolution(env).path)] + ([GlobCreate(JoinLines(env.filesInput.value))] +
       (FilesLog(env.files) + [SetOutput("valid", AllValid(env.files))])))
  {
    assert InputsRead(env);
    var path := SchemaResolution(env).path;
    assert RunLog(env) == Protocol(env) + LoadLog(env, path, env.filesInput.value);
    var out := LoadOutcome(env);
    assert out.Published?;
    assert LoadedCount(env.files) == |env.files|;
    LoadedCountAll(env.files);
    assert FinalEffects(out) == [SetOutput("valid", AllValid(env.files))];
  }

  /** The texts of a published run's log, from the texts of its parts. */
  lemma PublishedShapeTexts(protocol: seq<Effect>, read: Effect, glob: Effect, filesLog: seq<Effect>, last: Effect, k: Kind)
    requires Texts(protocol, k) == [] && glob.GlobCreate? && last.SetOutput?
    ensures Texts(protocol + ([read] + ([glob] + (filesLog + [last]))), k) == TextOf(read, k) + Texts(filesLog, k)
  {
    TextsSingleton(read, k);
    TextsSingleton(glob, k);
    TextsSingleton(last, k);
    TextsAppend(filesLog, [last], k);
    assert Texts(filesLog + [last], k) == Texts(filesLog, k);
    TextsAppend([glob], filesLog + [last], k);
    assert Texts([glob] + (filesLog + [last]), k) == Texts(filesLog, k);
    TextsAppend([read], [glob] + (filesLog + [last]), k);
    TextsAppend(protocol, [read] + ([glob] + (filesLog + [last])), k);
  }

  /** Apart from the schema read, a published run reads, debug-logs and reports only what the file loop does. */
  lemma PublishedRunTexts(env: Env, k: Kind)
    requires ExpectedOutcome(env).Published? && k != Warnings
    ensures ReachesLoop(env) && Loaded(env.files) && ExpectedOutcome(env) == Published(AllValid(env.files))
    ensures Texts(RunLog(env), k) == TextOf(ReadFile(SchemaResolution(env).path), k) + Texts(FilesLog(env.files), k)
  {
    PublishedRunLog(env);
    ProtocolHasNoReadsDebugsOrErrors(env, k);
    PublishedShapeTexts(Protocol(env), ReadFile(SchemaResolution(env).path), GlobCreate(JoinLines(env.filesInput.value)),
      FilesLog(env.files), SetOutput("valid", AllValid(env.files)), k);
  }

  /**
   * A run that publishes its verdict read the schema and then every file in
   * enumeration order, logged one status line per file and reported every
   * error of every invalid file, in order, and nothing else at debug or error level.
   */
  lemma PublishedRunReportsEveryFile(env: Env)
    requires ExpectedOutcome(env).Published?
    ensures ReachesLoop(env)
    ensures Texts(RunLog(env), Reads) == [SchemaResolution(env).path] + Paths(env.files)
    ensures Texts(RunLog(env), Debugs) == StatusLines(env.files)
    ensures Texts(RunLog(env), Errors) == ExpectedErrors(env.files)
    ensures ExpectedOutcome(env).valid ==> Texts(RunLog(env), Errors) == []
  {
    var read := ReadFile(SchemaResolution(env).path);
    assert TextOf(read, Reads) == [read.path] && TextOf(read, Debugs) == [] && TextOf(read, Errors) == [];
    PublishedRunTexts(env, Reads);
    ReadsFollowEnumeration(env.files);
    PublishedRunTexts(env, Debugs);
    StatusLinePerFile(env.files);
    PublishedRunTexts(env, Errors);
    ErrorsReportedInOrder(env.files);
    assert ExpectedOutcome(env).valid == AllValid(env.files);
    ValidFilesReportNoErrors(env.files);
  }

  /**
   * A required input that is not supplied fails the run with the toolkit's
   * message naming it, before anything else happens, and leaves the exit
   * code alone.
   */
  lemma MissingInputFailsRun(env: Env, stack: string, exitCode0: Option<int>)
    requires env.schemaInput == RequiredInput("schema", None, stack) ||
      (env.schemaInput.Returns? && env.filesInput == RequiredInput("files", None, stack))
    ensures var name := if env.schemaInput.Throws? then "schema" else "files";
      RunLog(env) == HandlerEffects(ErrorInstance("Input required and not supplied: " + name, stack)) &&
      Report(ExpectedOutcome(env)) == SetFailed("Input required and not supplied: " + name)
    ensures ExitCodeAfter(env, exitCode0) == exitCode0
  {
  }

  /**
   * A resolved remote schema is read from the file the protocol restored or
   * wrote, right after the protocol's last step.
   */
  lemma RemoteSchemaReadFromCachedPath(env: Env)
    requires InputsRead(env) && IsRemote(env.schemaInput.value) && SchemaResolution(env).Resolved?
    ensures var path := LocalSchemaPath(env.schemaInput.value, env.remote);
      |RunLog(env)| > |Protocol(env)| && RunLog(env)[|Protocol(env)|] == ReadFile(path) &&
      path == JoinPath(TempDir(env.remote.runnerTemp), "schema-" + env.remote.sha256(env.schemaInput.value) + ".json")
  {
    CacheCallsShareOnePathAndKey(env.schemaInput.value, env.cacheInput.value, env.remote);
    var path := SchemaResolution(env).path;
    assert RunLog(env) == Protocol(env) + LoadLog(env, path, env.filesInput.value);
  }
}
