/**
 * Resolution of a remote schema (src/main.ts lines 26-72): a schema given as an
 * http(s) URL is materialised as a local file, either restored from the cache or
 * downloaded, written and saved to the cache. Every collaborator is an oracle.
 */
module RemoteSchema {
  import opened Effects

  /** A response of the HTTP client: status line and a body that may fail to read. */
  datatype HttpResponse = HttpResponse(statusCode: Option<int>, statusMessage: Option<string>, body: Call<string>)

  /** What the collaborators of the protocol answer in one run. */
  datatype RemoteOracle = RemoteOracle(
    sha256: string -> string,        // hex digest of a string
    runnerTemp: Option<string>,      // the RUNNER_TEMP environment variable
    restore: Call<Option<string>>,   // cache.restoreCache: the restored key, or undefined on a miss
    get: Call<HttpResponse>,         // HttpClient.get
    write: Call<()>,                 // fs.writeFile
    save: Call<()>)                  // cache.saveCache

  /** How the protocol ends: a local schema path, a reported failure, or a thrown value. */
  datatype Resolution = Resolved(path: string) | Stopped(message: string) | Raised(error: Thrown)

  const RestorePrefix := "Error while trying to restore cache: "
  const SavePrefix := "Error while trying to save cache: "

  /** Only schemas that start with `http://` or `https://` are fetched. */
  predicate IsRemote(schema: string) {
    "http://" <= schema || "https://" <= schema
  }

  function CacheKey(digest: string): string {
    "schema-" + digest
  }

  function SchemaFileName(digest: string): string {
    CacheKey(digest) + ".json"
  }

  /** `RUNNER_TEMP ?? '/tmp/'`: only an unset variable falls back to `/tmp/`. */
  function TempDir(runnerTemp: Option<string>): string {
    match runnerTemp
    case Some(dir) => dir
    case None => "/tmp/"
  }

  /** `path.join(dir, name)` for a plain file name, with `/` as separator and without normalisation. */
  function JoinPath(dir: string, name: string): string {
    if dir == [] then name
    else if dir[|dir| - 1] == '/' then dir + name
    else dir + "/" + name
  }

  /** The local file that stands for the remote schema. */
  function LocalSchemaPath(schema: string, o: RemoteOracle): string {
    JoinPath(TempDir(o.runnerTemp), SchemaFileName(o.sha256(schema)))
  }

  /** The joined path starts with the directory and ends with the file name, with at most one `/` between. */
  lemma JoinPathParts(dir: string, name: string)
    ensures dir <= JoinPath(dir, name)
    ensures |name| <= |JoinPath(dir, name)| && JoinPath(dir, name)[|JoinPath(dir, name)| - |name|..] == name
    ensures |JoinPath(dir, name)| <= |dir| + 1 + |name|
  {
  }

  /** The local schema file lies in the temporary directory and is named `schema-<hash>.json`. */
  lemma LocalSchemaPathParts(schema: string, o: RemoteOracle)
    ensures TempDir(o.runnerTemp) <= LocalSchemaPath(schema, o)
    ensures var path, file := LocalSchemaPath(schema, o), SchemaFileName(o.sha256(schema));
      |file| <= |path| && path[|path| - |file|..] == file
  {
    JoinPathParts(TempDir(o.runnerTemp), SchemaFileName(o.sha256(schema)));
  }

  function LocalCacheKey(schema: string, o: RemoteOracle): string {
    CacheKey(o.sha256(schema))
  }

  /** The download succeeded: status 200 and a readable body. */
  predicate Downloaded(o: RemoteOracle) {
    o.get.Returns? && o.get.value.statusCode == Some(200) && o.get.value.body.Returns?
  }

  /** The cache was asked and returned a key. */
  predicate CacheHit(cacheRemote: bool, o: RemoteOracle) {
    cacheRemote && o.restore.Returns? && o.restore.value.Some?
  }

  /** `${x}` of an optional number or string. */
  function ShowCode(code: Option<int>): string {
    match code
    case Some(n) => IntDecimal(n)
    case None => "undefined"
  }

  function ShowText(text: Option<string>): string {
    match text
    case Some(t) => t
    case None => "undefined"
  }

  function FetchFailureMessage(res: HttpResponse): string {
    "Failed to fetch remote schema: " + ShowCode(res.statusCode) + " - " + ShowText(res.statusMessage)
  }

  function RestoreWarning(e: Thrown): string {
    RestorePrefix + ThrownText(e)
  }

  function SaveWarning(e: Thrown): string {
    SavePrefix + ThrownText(e)
  }

  /**
   * The position of an effect in the protocol: hash, restore, restore warning,
   * fetch, failure or write, save, save warning. Effects outside the protocol
   * come last.
   */
  function Phase(e: Effect): nat {
    match e
    case Hash(_) => 0
    case RestoreCache(_, _) => 1
    case Warning(m) => if RestorePrefix <= m then 2 else 6
    case HttpGet(_) => 3
    case SetFailed(_) => 4
    case WriteFile(_, _) => 4
    case SaveCache(_, _) => 5
    case _ => 7
  }

  /** Every step strictly after the previous one: each step happens at most once, in protocol order. */
  predicate InProtocolOrder(log: seq<Effect>) {
    forall i, j :: 0 <= i < j < |log| ==> Phase(log[i]) < Phase(log[j])
  }

  /** How the protocol ends, as a function of the schema, the cache option and the oracles. */
  function ResolutionOf(schema: string, cacheRemote: bool, o: RemoteOracle): Resolution {
    if !IsRemote(schema) then Resolved(schema)
    else if CacheHit(cacheRemote, o) then Resolved(LocalSchemaPath(schema, o))
    else DownloadResolution(schema, o)
  }

  /** How the download step ends: the failure report, a thrown value, or the written local path. */
  function DownloadResolution(schema: string, o: RemoteOracle): Resolution {
    match o.get
    case Throws(e) => Raised(e)
    case Returns(res) =>
      if res.statusCode != Some(200) then Stopped(FetchFailureMessage(res))
      else if res.body.Throws? then Raised(res.body.error)
      else if o.write.Throws? then Raised(o.write.error)
      else Resolved(LocalSchemaPath(schema, o))
  }

  /** What the restore step (lines 37-46) does: ask the cache, and warn if it throws. */
  function RestoreSteps(schema: string, cacheRemote: bool, o: RemoteOracle): seq<Effect> {
    if !cacheRemote then []
    else [RestoreCache([LocalSchemaPath(schema, o)], LocalCacheKey(schema, o))] +
         (if o.restore.Throws? then [Warning(RestoreWarning(o.restore.error))] else [])
  }

  /** What the download step (lines 48-71) does on a miss: fetch, then fail or write and save. */
  function DownloadSteps(schema: string, cacheRemote: bool, o: RemoteOracle): seq<Effect> {
    [HttpGet(schema)] +
    match o.get
    case Throws(_) => []
    case Returns(res) =>
      if res.statusCode != Some(200) then [SetFailed(FetchFailureMessage(res))]
      else if res.body.Throws? then []
      else [WriteFile(LocalSchemaPath(schema, o), res.body.value)] +
           (if o.write.Throws? || !cacheRemote then []
            else [SaveCache([LocalSchemaPath(schema, o)], LocalCacheKey(schema, o))] +
                 (if o.save.Throws? then [Warning(SaveWarning(o.save.error))] else []))
  }

  /** The effects of the whole protocol: nothing for a local schema; hash, restore and download otherwise. */
  function ProtocolLog(schema: string, cacheRemote: bool, o: RemoteOracle): seq<Effect> {
    if !IsRemote(schema) then []
    else [Hash(schema)] + RestoreSteps(schema, cacheRemote, o) +
         (if CacheHit(cacheRemote, o) then [] else DownloadSteps(schema, cacheRemote, o))
  }

  /**
   * The cache-or-fetch protocol. `log` is what the protocol does on the outside
   * world; `r` is how it ends.
   */
  method ResolveSchema(schema: string, cacheRemote: bool, o: RemoteOracle) returns (log: seq<Effect>, r: Resolution)
    ensures log == ProtocolLog(schema, cacheRemote, o)
    ensures r == ResolutionOf(schema, cacheRemote, o)
  {
    log := [];
    var schemaPath := schema;
    if IsRemote(schemaPath) {
      var schemaUrl := schemaPath;
      log := log + [Hash(schemaPath)];
      var schemaHash := o.sha256(schemaPath);
      schemaPath := JoinPath(TempDir(o.runnerTemp), SchemaFileName(schemaHash));
      var cacheKey := CacheKey(schemaHash);
      var cacheHit := false;

      if cacheRemote {
        log := log + [RestoreCache([schemaPath], cacheKey)];
        match o.restore
        case Returns(restored) =>
          cacheHit := restored.Some?;
        case Throws(e) =>
          log := log + [Warning(RestoreWarning(e))];
      }

      if !cacheHit {
        var downloadLog;
        downloadLog, r := Download(schemaUrl, schemaPath, cacheKey, cacheRemote, o);
        log := log + downloadLog;
        return;
      }
    }
    r := Resolved(schemaPath);
  }

  /**
   * The download step on a miss (lines 48-71): fetch the URL, stop on a status
   * other than 200, write the body to the local path, and save it to the cache
   * when caching is on, turning a throwing save into a warning.
   */
  method Download(schemaUrl: string, schemaPath: string, cacheKey: string, cacheRemote: bool, o: RemoteOracle)
    returns (log: seq<Effect>, r: Resolution)
    requires schemaPath == LocalSchemaPath(schemaUrl, o) && cacheKey == LocalCacheKey(schemaUrl, o)
    ensures log == DownloadSteps(schemaUrl, cacheRemote, o)
    ensures r == DownloadResolution(schemaUrl, o)
  {
    log := [HttpGet(schemaUrl)];
    if o.get.Throws? {
      return log, Raised(o.get.error);
    }
    var res := o.get.value;
    if res.statusCode != Some(200) {
      var message := FetchFailureMessage(res);
      log := log + [SetFailed(message)];
      return log, Stopped(message);
    }
    if res.body.Throws? {
      return log, Raised(res.body.error);
    }
    log := log + [WriteFile(schemaPath, res.body.value)];
    if o.write.Throws? {
      return log, Raised(o.write.error);
    }
    ghost var written := log;
    if cacheRemote {
      log := log + [SaveCache([schemaPath], cacheKey)];
      if o.save.Throws? {
        log := log + [Warning(SaveWarning(o.save.error))];
      }
    }
    assert log == written + (if !cacheRemote then [] else
      [SaveCache([schemaPath], cacheKey)] + (if o.save.Throws? then [Warning(SaveWarning(o.save.error))] else []));
    r := Resolved(schemaPath);
  }

  /** A local schema is used unchanged: no hash, cache call, fetch or write happens. */
  lemma LocalSchemaIsUsedAsGiven(schema: string, cacheRemote: bool, o: RemoteOracle)
    requires !IsRemote(schema)
    ensures ProtocolLog(schema, cacheRemote, o) == []
    ensures ResolutionOf(schema, cacheRemote, o) == Resolved(schema)
  {
  }

  /** A remote schema is hashed first; after that each step happens at most once, in protocol order. */
  lemma ProtocolStepsInOrder(schema: string, cacheRemote: bool, o: RemoteOracle)
    ensures IsRemote(schema) ==> |ProtocolLog(schema, cacheRemote, o)| > 0 && ProtocolLog(schema, cacheRemote, o)[0] == Hash(schema)
    ensures InProtocolOrder(ProtocolLog(schema, cacheRemote, o))
  {
    if IsRemote(schema) {
      var restore := RestoreSteps(schema, cacheRemote, o);
      var download := if CacheHit(cacheRemote, o) then [] else DownloadSteps(schema, cacheRemote, o);
      if o.restore.Throws? {
        assert Phase(Warning(RestoreWarning(o.restore.error))) == 2 by {
          assert RestoreWarning(o.restore.error)[..|RestorePrefix|] == RestorePrefix;
        }
      }
      assert forall i :: 0 <= i < |restore| ==> 1 <= Phase(restore[i]) <= 2;
      InProtocolOrderConcat([Hash(schema)], restore);
      if !CacheHit(cacheRemote, o) {
        DownloadStepsInOrder(schema, cacheRemote, o);
      }
      InProtocolOrderConcat([Hash(schema)] + restore, download);
    }
  }

  /** The download steps are in order, all after the restore steps. */
  lemma DownloadStepsInOrder(schema: string, cacheRemote: bool, o: RemoteOracle)
    ensures InProtocolOrder(DownloadSteps(schema, cacheRemote, o))
    ensures forall e :: e in DownloadSteps(schema, cacheRemote, o) ==> Phase(e) >= 3
  {
    if o.save.Throws? {
      var w := SaveWarning(o.save.error);
      assert Phase(Warning(w)) == 6 by {
        assert w[22] == 's' != RestorePrefix[22];
      }
    }
  }

  /** Two ordered logs, the second entirely after the first, concatenate to an ordered log. */
  lemma InProtocolOrderConcat(a: seq<Effect>, b: seq<Effect>)
    requires InProtocolOrder(a) && InProtocolOrder(b)
    requires forall i, j :: 0 <= i < |a| && 0 <= j < |b| ==> Phase(a[i]) < Phase(b[j])
    ensures InProtocolOrder(a + b)
  {
    var ab := a + b;
    forall i, j | 0 <= i < j < |ab|
      ensures Phase(ab[i]) < Phase(ab[j])
    {
      if j < |a| {
        assert ab[i] == a[i] && ab[j] == a[j];
      } else if i < |a| {
        assert ab[i] == a[i] && ab[j] == b[j - |a|];
      } else {
        assert ab[i] == b[i - |a|] && ab[j] == b[j - |a|];
      }
    }
  }

  /** Restore and save use the same path list and key, and that path is the one written and returned. */
  lemma CacheCallsShareOnePathAndKey(schema: string, cacheRemote: bool, o: RemoteOracle)
    ensures var log := ProtocolLog(schema, cacheRemote, o);
      forall e :: e in log && e.RestoreCache? ==> e == RestoreCache([LocalSchemaPath(schema, o)], LocalCacheKey(schema, o))
    ensures var log := ProtocolLog(schema, cacheRemote, o);
      forall e :: e in log && e.SaveCache? ==> e == SaveCache([LocalSchemaPath(schema, o)], LocalCacheKey(schema, o))
    ensures var log := ProtocolLog(schema, cacheRemote, o);
      forall e :: e in log && e.WriteFile? ==> e.path == LocalSchemaPath(schema, o)
    ensures IsRemote(schema) && ResolutionOf(schema, cacheRemote, o).Resolved? ==>
      ResolutionOf(schema, cacheRemote, o).path == LocalSchemaPath(schema, o)
  {
    var restore, download := RestoreSteps(schema, cacheRemote, o), DownloadSteps(schema, cacheRemote, o);
    var path, key := LocalSchemaPath(schema, o), LocalCacheKey(schema, o);
    assert forall e :: e in restore ==> e.RestoreCache? ==> e == RestoreCache([path], key);
    assert forall e :: e in restore ==> !e.SaveCache? && !e.WriteFile?;
    assert forall e :: e in download ==> !e.RestoreCache?;
    assert forall e :: e in download && e.SaveCache? ==> e == SaveCache([path], key);
    assert forall e :: e in download && e.WriteFile? ==> e.path == path;
  }

  /** The cache is consulted exactly when caching is on, and saved exactly after a fresh download was written. */
  lemma CacheUsedOnlyWhenEnabled(schema: string, cacheRemote: bool, o: RemoteOracle)
    ensures RestoreCache([LocalSchemaPath(schema, o)], LocalCacheKey(schema, o)) in ProtocolLog(schema, cacheRemote, o) <==>
      IsRemote(schema) && cacheRemote
    ensures SaveCache([LocalSchemaPath(schema, o)], LocalCacheKey(schema, o)) in ProtocolLog(schema, cacheRemote, o) <==>
      IsRemote(schema) && cacheRemote && !CacheHit(cacheRemote, o) && Downloaded(o) && o.write.Returns?
  {
  }

  /** The URL is fetched exactly on a miss; a hit does nothing but hash and restore. */
  lemma FetchExactlyOnMiss(schema: string, cacheRemote: bool, o: RemoteOracle)
    ensures HttpGet(schema) in ProtocolLog(schema, cacheRemote, o) <==> IsRemote(schema) && !CacheHit(cacheRemote, o)
    ensures forall e :: e in ProtocolLog(schema, cacheRemote, o) && e.HttpGet? ==> e.url == schema
    ensures IsRemote(schema) && CacheHit(cacheRemote, o) ==>
      ProtocolLog(schema, cacheRemote, o) == [Hash(schema), RestoreCache([LocalSchemaPath(schema, o)], LocalCacheKey(schema, o))]
    ensures IsRemote(schema) && !cacheRemote ==>
      forall e :: e in ProtocolLog(schema, cacheRemote, o) ==> !e.RestoreCache? && !e.SaveCache?
  {
  }

  /** The downloaded body is written to the local path exactly when the download succeeded. */
  lemma BodyWrittenOnDownload(schema: string, cacheRemote: bool, o: RemoteOracle)
    ensures IsRemote(schema) && !CacheHit(cacheRemote, o) && Downloaded(o) ==>
      WriteFile(LocalSchemaPath(schema, o), o.get.value.body.value) in ProtocolLog(schema, cacheRemote, o)
    ensures !(IsRemote(schema) && !CacheHit(cacheRemote, o) && Downloaded(o)) ==>
      forall e :: e in ProtocolLog(schema, cacheRemote, o) ==> !e.WriteFile?
  {
  }

  /**
   * A throwing restore or save is reported as a warning and changes nothing else:
   * a throwing restore ends like a miss, and the save's outcome never matters.
   */
  lemma CacheErrorsAreWarnings(schema: string, cacheRemote: bool, o: RemoteOracle)
    ensures IsRemote(schema) && cacheRemote && o.restore.Throws? ==>
      Warning(RestoreWarning(o.restore.error)) in ProtocolLog(schema, cacheRemote, o)
    ensures IsRemote(schema) && cacheRemote && !CacheHit(cacheRemote, o) && Downloaded(o) && o.write.Returns? && o.save.Throws? ==>
      Warning(SaveWarning(o.save.error)) in ProtocolLog(schema, cacheRemote, o)
    ensures forall e :: e in ProtocolLog(schema, cacheRemote, o) && e.Warning? ==>
      (o.restore.Throws? && e.message == RestoreWarning(o.restore.error)) ||
      (o.save.Throws? && e.message == SaveWarning(o.save.error))
    ensures o.restore.Throws? ==>
      ResolutionOf(schema, cacheRemote, o) == ResolutionOf(schema, cacheRemote, o.(restore := Returns(None)))
    ensures forall save :: ResolutionOf(schema, cacheRemote, o) == ResolutionOf(schema, cacheRemote, o.(save := save))
  {
  }

  /** A status other than 200 stops the protocol with one failure report, its last step, and nothing is written or saved. */
  lemma FetchFailureStops(schema: string, cacheRemote: bool, o: RemoteOracle)
    requires IsRemote(schema) && !CacheHit(cacheRemote, o)
    requires o.get.Returns? && o.get.value.statusCode != Some(200)
    ensures ResolutionOf(schema, cacheRemote, o) == Stopped(FetchFailureMessage(o.get.value))
    ensures var log := ProtocolLog(schema, cacheRemote, o);
      |log| > 0 && log[|log| - 1] == SetFailed(FetchFailureMessage(o.get.value))
    ensures forall e :: e in ProtocolLog(schema, cacheRemote, o) ==> !e.WriteFile? && !e.SaveCache?
  {
  }

  /** The restore step never ends the run. */
  lemma RestoreStepsQuiet(schema: string, cacheRemote: bool, o: RemoteOracle)
    ensures Quiet(RestoreSteps(schema, cacheRemote, o))
  {
  }

  /** On a miss, the download ends the run exactly when the status is not 200, and then as its last step. */
  lemma DownloadStepsEnd(schema: string, cacheRemote: bool, o: RemoteOracle)
    requires IsRemote(schema) && !CacheHit(cacheRemote, o)
    ensures ResolutionOf(schema, cacheRemote, o).Stopped? ==>
      EndsWith(DownloadSteps(schema, cacheRemote, o), SetFailed(ResolutionOf(schema, cacheRemote, o).message))
    ensures !ResolutionOf(schema, cacheRemote, o).Stopped? ==> Quiet(DownloadSteps(schema, cacheRemote, o))
  {
    var d := DownloadSteps(schema, cacheRemote, o);
    if o.get.Returns? && o.get.value.statusCode != Some(200) {
      assert d == [HttpGet(schema), SetFailed(FetchFailureMessage(o.get.value))];
      assert d[..|d| - 1] == [HttpGet(schema)];
    }
  }

  /**
   * Only a failed fetch ends the run, and as the protocol's last step;
   * otherwise no step of the protocol ends it.
   */
  lemma OnlyFetchFailureReports(schema: string, cacheRemote: bool, o: RemoteOracle)
    ensures ResolutionOf(schema, cacheRemote, o).Stopped? ==>
      EndsWith(ProtocolLog(schema, cacheRemote, o), SetFailed(ResolutionOf(schema, cacheRemote, o).message))
    ensures !ResolutionOf(schema, cacheRemote, o).Stopped? ==> Quiet(ProtocolLog(schema, cacheRemote, o))
  {
    if IsRemote(schema) {
      var front := [Hash(schema)] + RestoreSteps(schema, cacheRemote, o);
      RestoreStepsQuiet(schema, cacheRemote, o);
      QuietConcat([Hash(schema)], RestoreSteps(schema, cacheRemote, o));
      if !CacheHit(cacheRemote, o) {
        var d := DownloadSteps(schema, cacheRemote, o);
        DownloadStepsEnd(schema, cacheRemote, o);
        if ResolutionOf(schema, cacheRemote, o).Stopped? {
          QuietPrefix(front, d, SetFailed(ResolutionOf(schema, cacheRemote, o).message));
        } else {
          QuietConcat(front, d);
        }
      } else {
        assert ProtocolLog(schema, cacheRemote, o) == front + [];
      }
    }
  }

  /** The kinds of call the restore and download steps make. */
  lemma StepKinds(schema: string, cacheRemote: bool, o: RemoteOracle)
    ensures forall e :: e in RestoreSteps(schema, cacheRemote, o) ==> e.RestoreCache? || e.Warning?
    ensures forall e :: e in DownloadSteps(schema, cacheRemote, o) ==>
      e.HttpGet? || e.SetFailed? || e.WriteFile? || e.SaveCache? || e.Warning?
  {
  }

  /** The protocol never reads files, enumerates, logs at debug level or reports validation errors. */
  lemma ProtocolMakesNoLoopCalls(schema: string, cacheRemote: bool, o: RemoteOracle)
    ensures forall e :: e in ProtocolLog(schema, cacheRemote, o) ==>
      !e.ReadFile? && !e.GlobCreate? && !e.Debug? && !e.ErrorRecord?
  {
    StepKinds(schema, cacheRemote, o);
  }

  /** The protocol stops only after a fetch answered with a status other than 200, and with that status in its message. */
  lemma StoppedOnlyByFetchFailure(schema: string, cacheRemote: bool, o: RemoteOracle)
    requires ResolutionOf(schema, cacheRemote, o).Stopped?
    ensures IsRemote(schema) && !CacheHit(cacheRemote, o) && o.get.Returns? && o.get.value.statusCode != Some(200)
    ensures ResolutionOf(schema, cacheRemote, o).message == FetchFailureMessage(o.get.value)
  {
  }

  /** The failure text for a 404 answer, as the action reports it. */
  lemma NotFoundMessage(body: Call<string>)
    ensures FetchFailureMessage(HttpResponse(Some(404), Some("Not Found"), body)) ==
      "Failed to fetch remote schema: 404 - Not Found"
  {
  }
}
