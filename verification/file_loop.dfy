/**
 * The loop over the enumerated instance files (src/main.ts lines 83-104): each
 * file is read and parsed, validated, and reported; `valid` is the conjunction
 * of the verdicts and `filesValidated` says whether any file was enumerated.
 * Reading, parsing and validating are oracles.
 */
module FileLoop {
  import opened Effects

  /**
   * One enumerated file and what its collaborators answer: reading and parsing
   * it (which may throw), the validator's verdict, and the validator's error
   * list (`None` for `null`), each error already serialised as text.
   */
  datatype FileCheck = FileCheck(path: string, load: Call<()>, valid: bool, errors: Option<seq<string>>)

  function ValidLine(path: string): string {
    "\U{2713} " + path + " is valid"
  }

  function InvalidLine(path: string): string {
    "\U{10102} " + path + " is not valid"
  }

  /** The debug line that names a validated file as valid or not valid. */
  function StatusLine(f: FileCheck): string {
    if f.valid then ValidLine(f.path) else InvalidLine(f.path)
  }

  /** The errors reported for a validated file: none if it is valid. */
  function ErrorsOf(f: FileCheck): seq<string> {
    if f.valid then []
    else match f.errors
      case None => []
      case Some(errors) => errors
  }

  /** One `core.error` call per error, in order. */
  function ErrorRecords(errors: seq<string>): (r: seq<Effect>)
    ensures |r| == |errors|
  {
    seq(|errors|, i requires 0 <= i < |errors| => ErrorRecord(errors[i]))
  }

  /** The effects of one iteration: the read, then, if the file loaded, its status line and errors. */
  function FileSteps(f: FileCheck): seq<Effect> {
    [ReadFile(f.path)] +
    (if f.load.Throws? then [] else [Debug(StatusLine(f))] + ErrorRecords(ErrorsOf(f)))
  }

  /** The effects of the iterations over `files`, in order. */
  function FilesLog(files: seq<FileCheck>): seq<Effect>
    decreases |files|
  {
    if files == [] then [] else FilesLog(files[..|files| - 1]) + FileSteps(files[|files| - 1])
  }

  /** Every file in `files` was read and parsed without throwing. */
  predicate Loaded(files: seq<FileCheck>) {
    forall i :: 0 <= i < |files| ==> files[i].load.Returns?
  }

  /** Every file in `files` passed validation. */
  predicate AllValid(files: seq<FileCheck>) {
    forall i :: 0 <= i < |files| ==> files[i].valid
  }

  /** How many files load before the first one that throws. */
  function LoadedCount(files: seq<FileCheck>): (n: nat)
    ensures n <= |files|
    ensures forall i :: 0 <= i < n ==> files[i].load.Returns?
    ensures n < |files| ==> files[n].load.Throws?
    decreases |files|
  {
    if files == [] || files[0].load.Throws? then 0
    else 1 + LoadedCount(files[1..])
  }

  /** The files the loop gets to: all of them, or up to and including the first that throws. */
  function Processed(files: seq<FileCheck>): seq<FileCheck> {
    var n := LoadedCount(files);
    if n < |files| then files[..n + 1] else files
  }

  /** The log of one more file extends the log of the files before it. */
  lemma FilesLogExtend(files: seq<FileCheck>, i: nat)
    requires i < |files|
    ensures FilesLog(files[..i + 1]) == FilesLog(files[..i]) + FileSteps(files[i])
    ensures Loaded(files[..i]) && files[i].load.Returns? ==> Loaded(files[..i + 1])
  {
    assert files[..i + 1][..i] == files[..i];
  }

  /** The verdict over one more file is the verdict over the files before it and that file's. */
  lemma AllValidExtend(files: seq<FileCheck>, i: nat)
    requires i < |files|
    ensures AllValid(files[..i + 1]) == (AllValid(files[..i]) && files[i].valid)
  {
    assert forall j :: 0 <= j < i ==> files[..i + 1][j] == files[..i][j];
  }

  /** The first file that throws, after loaded ones, is where `LoadedCount` stops. */
  lemma LoadedCountAt(files: seq<FileCheck>, i: nat)
    requires i < |files| && Loaded(files[..i]) && files[i].load.Throws?
    ensures LoadedCount(files) == i && Processed(files) == files[..i + 1]
  {
  }

  /** The loop gets through every file exactly when every file loads. */
  lemma LoadedCountAll(files: seq<FileCheck>)
    ensures LoadedCount(files) == |files| <==> Loaded(files)
    ensures Loaded(files) ==> Processed(files) == files
  {
    if LoadedCount(files) == |files| {
      assert files[..|files|] == files;
    }
  }

  /** The errors expected from `files`, file after file. */
  function ExpectedErrors(files: seq<FileCheck>): seq<string>
    decreases |files|
  {
    if files == [] then [] else ErrorsOf(files[0]) + ExpectedErrors(files[1..])
  }

  /** The inner loop over the validator's errors: one `core.error` per error, in order. */
  method ReportErrors(errors: seq<string>) returns (records: seq<Effect>)
    ensures records == ErrorRecords(errors)
  {
    records := [];
    for k := 0 to |errors|
      invariant records == ErrorRecords(errors[..k])
    {
      assert ErrorRecords(errors[..k + 1]) == ErrorRecords(errors[..k]) + [ErrorRecord(errors[k])];
      records := records + [ErrorRecord(errors[k])];
    }
    assert errors[..|errors|] == errors;
  }

  /**
   * One iteration (lines 89-103): read and parse the file, then, if that did
   * not throw, log its status line and report its errors.
   */
  method ValidateFile(file: FileCheck) returns (steps: seq<Effect>)
    ensures steps == FileSteps(file)
  {
    steps := [ReadFile(file.path)];
    if file.load.Throws? {
      return;
    }
    if !file.valid {
      steps := steps + [Debug(InvalidLine(file.path))];
      if file.errors.Some? {
        var records := ReportErrors(file.errors.value);
        steps := steps + records;
      }
    } else {
      steps := steps + [Debug(ValidLine(file.path))];
    }
  }

  /**
   * The loop. `thrown` is the value that escapes it, from a file that fails to
   * load or from the enumeration after its last file; `valid` and
   * `filesValidated` matter only when nothing escapes.
   */
  method ValidateFiles(files: seq<FileCheck>, enumerationError: Option<Thrown>)
    returns (log: seq<Effect>, valid: bool, filesValidated: bool, thrown: Option<Thrown>)
    ensures log == FilesLog(Processed(files))
    ensures LoadedCount(files) < |files| ==> thrown == Some(files[LoadedCount(files)].load.error)
    ensures LoadedCount(files) == |files| ==> thrown == enumerationError
    ensures thrown.None? ==> valid == AllValid(files)
    ensures thrown.None? ==> filesValidated == (|files| > 0)
  {
    log, valid, filesValidated := [], true, false;
    var i := 0;
    while i < |files|
      invariant 0 <= i <= |files|
      invariant Loaded(files[..i])
      invariant log == FilesLog(files[..i])
      invariant valid == AllValid(files[..i])
      invariant filesValidated == (i > 0)
    {
      FilesLogExtend(files, i);
      var file := files[i];
      filesValidated := true;
      var steps := ValidateFile(file);
      log := log + steps;
      if file.load.Throws? {
        LoadedCountAt(files, i);
        return log, valid, filesValidated, Some(file.load.error);
      }
      AllValidExtend(files, i);
      valid := valid && file.valid;
      i := i + 1;
    }
    assert files[..i] == files;
    thrown := enumerationError;
  }

  /** The error records project to exactly their errors, and contribute nothing else. */
  lemma {:induction false} ErrorRecordsTexts(errors: seq<string>, k: Kind)
    ensures Texts(ErrorRecords(errors), k) == if k == Errors then errors else []
    decreases |errors|
  {
    if errors != [] {
      var front := errors[..|errors| - 1];
      assert ErrorRecords(errors)[..|errors| - 1] == ErrorRecords(front);
      ErrorRecordsTexts(front, k);
    }
  }

  /** What one iteration contributes to the projection on `k`. */
  lemma FileStepsKind(f: FileCheck, k: Kind)
    ensures Texts(FileSteps(f), k) == TextOf(ReadFile(f.path), k) +
      (if f.load.Throws? then [] else TextOf(Debug(StatusLine(f)), k) + (if k == Errors then ErrorsOf(f) else []))
  {
    var read, status, rest := ReadFile(f.path), Debug(StatusLine(f)), ErrorRecords(ErrorsOf(f));
    TextsSingleton(read, k);
    if f.load.Returns? {
      TextsSingleton(status, k);
      ErrorRecordsTexts(ErrorsOf(f), k);
      TextsAppend([status], rest, k);
      TextsAppend([read], [status] + rest, k);
    } else {
      assert FileSteps(f) == [read];
    }
  }

  /** What one iteration contributes to each projection. */
  lemma FileStepsTexts(f: FileCheck)
    ensures Texts(FileSteps(f), Reads) == [f.path]
    ensures f.load.Returns? ==> Texts(FileSteps(f), Debugs) == [StatusLine(f)]
    ensures f.load.Returns? ==> Texts(FileSteps(f), Errors) == ErrorsOf(f)
    ensures f.load.Throws? ==> Texts(FileSteps(f), Debugs) == [] && Texts(FileSteps(f), Errors) == []
  {
    var read, status := ReadFile(f.path), Debug(StatusLine(f));
    assert TextOf(read, Reads) == [f.path] && TextOf(status, Reads) == [];
    assert TextOf(read, Debugs) == [] && TextOf(status, Debugs) == [StatusLine(f)];
    assert TextOf(read, Errors) == [] && TextOf(status, Errors) == [];
    FileStepsKind(f, Reads);
    FileStepsKind(f, Debugs);
    FileStepsKind(f, Errors);
  }

  /** The paths of `files`, in order. */
  function Paths(files: seq<FileCheck>): seq<string> {
    seq(|files|, i requires 0 <= i < |files| => files[i].path)
  }

  /** The status lines of `files`, in order. */
  function StatusLines(files: seq<FileCheck>): seq<string> {
    seq(|files|, i requires 0 <= i < |files| => StatusLine(files[i]))
  }

  lemma PathsExtend(files: seq<FileCheck>)
    requires files != []
    ensures Paths(files) == Paths(files[..|files| - 1]) + [files[|files| - 1].path]
  {
    assert forall i :: 0 <= i < |files| - 1 ==> files[..|files| - 1][i] == files[i];
  }

  lemma StatusLinesExtend(files: seq<FileCheck>)
    requires files != []
    ensures StatusLines(files) == StatusLines(files[..|files| - 1]) + [StatusLine(files[|files| - 1])]
  {
    assert forall i :: 0 <= i < |files| - 1 ==> files[..|files| - 1][i] == files[i];
  }

  /** Every enumerated file is read, once each, in enumeration order. */
  lemma {:induction false} ReadsFollowEnumeration(files: seq<FileCheck>)
    ensures Texts(FilesLog(files), Reads) == Paths(files)
    decreases |files|
  {
    if files != [] {
      var front := files[..|files| - 1];
      var last := files[|files| - 1];
      ReadsFollowEnumeration(front);
      assert FilesLog(files) == FilesLog(front) + FileSteps(last);
      TextsAppend(FilesLog(front), FileSteps(last), Reads);
      FileStepsTexts(last);
      PathsExtend(files);
    }
  }

  /** Each loaded file gets exactly one debug line, in order, naming it valid or not valid. */
  lemma {:induction false} StatusLinePerFile(files: seq<FileCheck>)
    requires Loaded(files)
    ensures Texts(FilesLog(files), Debugs) == StatusLines(files)
    decreases |files|
  {
    if files != [] {
      var front := files[..|files| - 1];
      assert Loaded(front) by {
        assert forall i :: 0 <= i < |front| ==> front[i] == files[i];
      }
      var last := files[|files| - 1];
      StatusLinePerFile(front);
      assert FilesLog(files) == FilesLog(front) + FileSteps(last);
      TextsAppend(FilesLog(front), FileSteps(last), Debugs);
      FileStepsTexts(last);
      StatusLinesExtend(files);
    }
  }

  /** Taking the errors file by file from the front or from the back gives the same list. */
  lemma {:induction false} ExpectedErrorsExtend(files: seq<FileCheck>)
    requires files != []
    ensures ExpectedErrors(files) == ExpectedErrors(files[..|files| - 1]) + ErrorsOf(files[|files| - 1])
    decreases |files|
  {
    if |files| > 1 {
      ExpectedErrorsExtend(files[1..]);
      assert files[1..][..|files| - 2] == files[..|files| - 1][1..];
    }
  }

  /**
   * The errors reported over loaded files are exactly the errors of the invalid
   * ones, file after file and, within a file, in the validator's order.
   */
  lemma {:induction false} ErrorsReportedInOrder(files: seq<FileCheck>)
    requires Loaded(files)
    ensures Texts(FilesLog(files), Errors) == ExpectedErrors(files)
    decreases |files|
  {
    if files != [] {
      var front := files[..|files| - 1];
      assert Loaded(front) by {
        assert forall i :: 0 <= i < |front| ==> front[i] == files[i];
      }
      ErrorsReportedInOrder(front);
      TextsAppend(FilesLog(front), FileSteps(files[|files| - 1]), Errors);
      FileStepsTexts(files[|files| - 1]);
      ExpectedErrorsExtend(files);
    }
  }

  /** The files before the first that throws are logged in full; that one is only read. */
  lemma StoppedFilesTexts(files: seq<FileCheck>, n: nat)
    requires n < |files| && files[n].load.Throws?
    requires forall i :: 0 <= i < n ==> files[i].load.Returns?
    ensures Texts(FilesLog(files[..n + 1]), Reads) == Paths(files[..n]) + [files[n].path]
    ensures Texts(FilesLog(files[..n + 1]), Debugs) == StatusLines(files[..n])
    ensures Texts(FilesLog(files[..n + 1]), Errors) == ExpectedErrors(files[..n])
  {
    var loaded, last := files[..n], files[n];
    assert Loaded(loaded) by {
      assert forall i :: 0 <= i < n ==> loaded[i] == files[i];
    }
    FilesLogExtend(files, n);
    var log, steps := FilesLog(loaded), FileSteps(last);
    assert steps == [ReadFile(last.path)];
    ReadsFollowEnumeration(loaded);
    StatusLinePerFile(loaded);
    ErrorsReportedInOrder(loaded);
    FileStepsTexts(last);
    TextsAppend(log, steps, Reads);
    TextsAppend(log, steps, Debugs);
    TextsAppend(log, steps, Errors);
  }

  /** The loop stopped by its first throwing file: the files before it logged in full, that one only read. */
  lemma StoppedAtFirstThrow(files: seq<FileCheck>, n: nat)
    requires n == LoadedCount(files) && n < |files|
    ensures Texts(FilesLog(files[..n + 1]), Reads) == Paths(files[..n]) + [files[n].path]
    ensures Texts(FilesLog(files[..n + 1]), Debugs) == StatusLines(files[..n])
    ensures Texts(FilesLog(files[..n + 1]), Errors) == ExpectedErrors(files[..n])
  {
    StoppedFilesTexts(files, n);
  }

  /**
   * The loop's log up to where it stops: it reads the files it gets to, in
   * order, the last of them the one that throws if one does; it logs the
   * status lines and reports the errors of the files before that one.
   */
  lemma ProcessedFilesTexts(files: seq<FileCheck>)
    ensures Texts(FilesLog(Processed(files)), Reads) == Paths(files[..LoadedCount(files)]) +
      (if LoadedCount(files) < |files| then [files[LoadedCount(files)].path] else [])
    ensures Texts(FilesLog(Processed(files)), Debugs) == StatusLines(files[..LoadedCount(files)])
    ensures Texts(FilesLog(Processed(files)), Errors) == ExpectedErrors(files[..LoadedCount(files)])
  {
    var n := LoadedCount(files);
    if n < |files| {
      assert Processed(files) == files[..n + 1];
      StoppedAtFirstThrow(files, n);
    } else {
      assert files[..n] == files && Processed(files) == files;
      CompletedFilesTexts(files);
    }
  }

  /** When every file loads, the loop reads, logs and reports all of them. */
  lemma CompletedFilesTexts(files: seq<FileCheck>)
    requires LoadedCount(files) == |files|
    ensures Texts(FilesLog(files), Reads) == Paths(files)
    ensures Texts(FilesLog(files), Debugs) == StatusLines(files)
    ensures Texts(FilesLog(files), Errors) == ExpectedErrors(files)
  {
    LoadedCountAll(files);
    ReadsFollowEnumeration(files);
    StatusLinePerFile(files);
    ErrorsReportedInOrder(files);
  }

  /** A run over valid files reports no errors; a reported error means some file was invalid. */
  lemma {:induction false} ValidFilesReportNoErrors(files: seq<FileCheck>)
    ensures AllValid(files) ==> ExpectedErrors(files) == []
    ensures ExpectedErrors(files) != [] ==> exists i :: 0 <= i < |files| && !files[i].valid && files[i].errors.Some?
    decreases |files|
  {
    if files != [] {
      ValidFilesReportNoErrors(files[1..]);
      if ExpectedErrors(files[1..]) != [] {
        var i :| 0 <= i < |files[1..]| && !files[1..][i].valid && files[1..][i].errors.Some?;
        assert files[i + 1] == files[1..][i];
      }
      if AllValid(files) {
        assert AllValid(files[1..]) by {
          assert forall i :: 0 <= i < |files| - 1 ==> files[1..][i] == files[i + 1];
        }
      }
    }
  }

  /** The loop only reads files and logs at debug and error level. */
  lemma {:induction false} FilesLogEffects(files: seq<FileCheck>)
    ensures forall e :: e in FilesLog(files) ==> e.ReadFile? || e.Debug? || e.ErrorRecord?
    decreases |files|
  {
    if files != [] {
      FilesLogEffects(files[..|files| - 1]);
    }
  }
}
