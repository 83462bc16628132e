/** The batch driver `main`: check the input directory, create the output directory
    unless this is a dry run, discover the video files, and either list them or
    process each one, counting successes and failures; the exit code reports whether
    any file failed. */
module Batch {
  import opened Wrappers
  import opened Walk
  import opened Discovery
  import opened ClipWindow
  import opened Proxy

  /** What one run of `main` leaves behind: its return value, whether the output
      directory was created, the discovered files, and the two counters. */
  datatype Report = Report(exitCode: int, outputDirCreated: bool, videoFiles: seq<string>,
                           successful: nat, failed: nat)

  /** Processing `file` in the environment `env` assigns to it writes its proxy. */
  predicate Succeeds(file: string, outputDir: string, env: string -> FileEnv)
  {
    OutcomeOf(file, outputDir, env(file)).Written?
  }

  /** The test `main` applies to each file: whether its processing succeeds. */
  function Succeeding(outputDir: string, env: string -> FileEnv): string -> bool
  {
    file => Succeeds(file, outputDir, env)
  }

  /** How many of `files` pass `ok`. */
  function CountWhere(files: seq<string>, ok: string -> bool): (n: nat)
    ensures n <= |files|
  {
    if files == [] then 0
    else CountWhere(files[..|files| - 1], ok) + (if ok(files[|files| - 1]) then 1 else 0)
  }

  /** The opposite test. */
  function Negated(ok: string -> bool): string -> bool
  {
    file => !ok(file)
  }

  /** How many of `files` are processed successfully. */
  function CountSucceeded(files: seq<string>, outputDir: string, env: string -> FileEnv): (n: nat)
    ensures n <= |files|
  {
    CountWhere(files, Succeeding(outputDir, env))
  }

  /** How many of `files` fail to be processed. */
  function CountFailed(files: seq<string>, outputDir: string, env: string -> FileEnv): (n: nat)
    ensures n <= |files|
  {
    CountWhere(files, Negated(Succeeding(outputDir, env)))
  }

  /** The report of `main`, given whether the input directory exists, the dry-run
      flag, the output directory, the walk of the input directory, and the
      environment of each file. */
  function MainReport(inputIsDir: bool, dryRun: bool, outputDir: string,
                      walk: seq<WalkEntry>, env: string -> FileEnv): Report
  {
    if !inputIsDir then Report(1, false, [], 0, 0)
    else
      var files := VideoFilesOf(walk);
      if files == [] || dryRun then Report(0, !dryRun, files, 0, 0)
      else
        var successful := CountSucceeded(files, outputDir, env);
        var failed := CountFailed(files, outputDir, env);
        Report(if failed == 0 then 0 else 1, true, files, successful, failed)
  }

  /** Counting one more processed file. */
  lemma CountStep(files: seq<string>, ok: string -> bool, i: nat)
    requires i < |files|
    ensures CountWhere(files[..i + 1], ok) == CountWhere(files[..i], ok) + (if ok(files[i]) then 1 else 0)
  {
    assert files[..i + 1][..i] == files[..i];
  }

  /** `main()`. */
  method RunMain(inputIsDir: bool, dryRun: bool, outputDir: string,
                 walk: seq<WalkEntry>, env: string -> FileEnv) returns (report: Report)
    ensures report == MainReport(inputIsDir, dryRun, outputDir, walk, env)
  {
    if !inputIsDir {
      return Report(1, false, [], 0, 0);
    }
    var outputDirCreated := false;
    if !dryRun {
      outputDirCreated := true;
    }
    var videoFiles := FindVideoFiles(walk);
    if videoFiles == [] {
      return Report(0, outputDirCreated, videoFiles, 0, 0);
    }
    if dryRun {
      return Report(0, outputDirCreated, videoFiles, 0, 0);
    }
    var successful: nat, failed: nat := 0, 0;
    for i := 0 to |videoFiles|
      invariant successful == CountSucceeded(videoFiles[..i], outputDir, env)
      invariant failed == CountFailed(videoFiles[..i], outputDir, env)
    {
      var videoFile := videoFiles[i];
      var ok, outcome := ProcessVideoFile(videoFile, outputDir, env(videoFile));
      CountStep(videoFiles, Succeeding(outputDir, env), i);
      CountStep(videoFiles, Negated(Succeeding(outputDir, env)), i);
      if ok {
        successful := successful + 1;
      } else {
        failed := failed + 1;
      }
    }
    assert videoFiles[..|videoFiles|] == videoFiles;
    return Report(if failed == 0 then 0 else 1, outputDirCreated, videoFiles, successful, failed);
  }

  /** Every file is counted as a success exactly when every file succeeds. */
  lemma {:induction false} AllCounted(files: seq<string>, ok: string -> bool)
    ensures CountWhere(files, ok) == |files| <==> forall i :: 0 <= i < |files| ==> ok(files[i])
  {
    if files != [] {
      var front := files[..|files| - 1];
      AllCounted(front, ok);
      assert forall i :: 0 <= i < |front| ==> front[i] == files[i];
    }
  }

  /** Every file passes exactly one of a test and its opposite, so the two counts
      add up to the number of files. */
  lemma {:induction false} CountComplement(files: seq<string>, ok: string -> bool)
    ensures CountWhere(files, ok) + CountWhere(files, Negated(ok)) == |files|
  {
    if files != [] {
      CountComplement(files[..|files| - 1], ok);
    }
  }

  /** No file fails exactly when every file succeeds. */
  lemma NoneFailed(files: seq<string>, ok: string -> bool)
    ensures CountWhere(files, Negated(ok)) == 0 <==> forall i :: 0 <= i < |files| ==> ok(files[i])
  {
    CountComplement(files, ok);
    AllCounted(files, ok);
  }

  /** Each discovered file moves exactly one counter: after the loop the two counters
      add up to the number of files, and the run fails exactly when some file does. */
  lemma Accounting(dryRun: bool, outputDir: string, walk: seq<WalkEntry>, env: string -> FileEnv)
    requires !dryRun && VideoFilesOf(walk) != []
    ensures var r := MainReport(true, dryRun, outputDir, walk, env);
      && r.successful + r.failed == |VideoFilesOf(walk)|
      && r.successful == CountSucceeded(VideoFilesOf(walk), outputDir, env)
      && (r.exitCode == 0 <==> r.failed == 0)
      && (r.failed == 0 <==> forall i :: 0 <= i < |r.videoFiles| ==> Succeeds(r.videoFiles[i], outputDir, env))
  {
    CountComplement(VideoFilesOf(walk), Succeeding(outputDir, env));
    NoneFailed(VideoFilesOf(walk), Succeeding(outputDir, env));
  }

  /** The early returns: a missing input directory gives 1 and does nothing else; an
      empty discovery or a dry run gives 0 without processing any file, and a dry run
      creates no directory. */
  lemma EarlyReturns(inputIsDir: bool, dryRun: bool, outputDir: string, walk: seq<WalkEntry>, env: string -> FileEnv)
    ensures var r := MainReport(inputIsDir, dryRun, outputDir, walk, env);
      && (!inputIsDir ==> r.exitCode == 1 && !r.outputDirCreated && r.videoFiles == [])
      && ((inputIsDir && (VideoFilesOf(walk) == [] || dryRun))
            ==> r.exitCode == 0 && r.successful == 0 && r.failed == 0)
      && (r.outputDirCreated <==> inputIsDir && !dryRun)
  {
  }

  /** The run exits with 0 exactly when the input directory exists and either this is
      a dry run or every discovered file is processed successfully; otherwise with 1. */
  lemma {:induction false} ExitCodeRule(inputIsDir: bool, dryRun: bool, outputDir: string, walk: seq<WalkEntry>, env: string -> FileEnv)
    ensures var r := MainReport(inputIsDir, dryRun, outputDir, walk, env);
      && (r.exitCode == 0 || r.exitCode == 1)
      && (r.exitCode == 0 <==> inputIsDir && (dryRun || forall i :: 0 <= i < |r.videoFiles| ==> Succeeds(r.videoFiles[i], outputDir, env)))
  {
    if inputIsDir {
      NoneFailed(VideoFilesOf(walk), Succeeding(outputDir, env));
    }
  }

  /** Counting over three files, of which only the first passes. */
  lemma CountThree(a: string, b: string, c: string, ok: string -> bool)
    requires ok(a) && !ok(b) && !ok(c)
    ensures CountWhere([a, b, c], ok) == 1
  {
    assert [a][..0] == [];
    assert CountWhere([a], ok) == 1;
    assert [a, b][..1] == [a];
    assert CountWhere([a, b], ok) == 1;
    assert [a, b, c][..2] == [a, b];
  }

  /** Three files: one that renders, one of three seconds, one whose render fails.
      One success and two failures, so the run exits with 1. */
  lemma ThreeFiles(outputDir: string, walk: seq<WalkEntry>, env: string -> FileEnv,
                   a: string, b: string, c: string)
    requires VideoFilesOf(walk) == [a, b, c]
    requires env(a).duration == Some(12.0) && env(a).renderOk
    requires env(b).duration == Some(3.0)
    requires env(c).duration == Some(60.0) && !env(c).renderOk
    ensures MainReport(true, false, outputDir, walk, env) == Report(1, true, [a, b, c], 1, 2)
  {
    SucceedsIff(a, outputDir, env(a));
    SucceedsIff(b, outputDir, env(b));
    SucceedsIff(c, outputDir, env(c));
    assert Succeeds(a, outputDir, env) && !Succeeds(b, outputDir, env) && !Succeeds(c, outputDir, env);
    CountThree(a, b, c, Succeeding(outputDir, env));
    CountComplement([a, b, c], Succeeding(outputDir, env));
  }
}
