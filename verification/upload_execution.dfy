/**
  The fileset/file loop of `execute`, with the transfer manager's
  `uploadDirectory` call replaced by an oracle and the console output and
  `shutdownNow` calls recorded as a trace of events.
 */
module UploadExecution {
  import opened JavaLang
  import opened UploadTask

  /**
    What waiting for one `uploadDirectory` transfer ends in: completion, or
    an exception whose `toString()` is `cause` (its class name, followed by
    ": " and its message when it has one).
   */
  datatype UploadResult = Completed | Failed(cause: string)

  /**
    The observable steps of `execute`:
    - `Attempt`: `uploadDirectory(bucket, keyBase, directory, true, …)` with the
      public-read ACL, made while the loop is at included file `file` of
      fileset `fileset`;
    - `Reported`: the "failed to upload. Continuing..." line naming a file;
    - `Shutdown`: `transferManager.shutdownNow(false)`.
   */
  datatype Event =
    | Attempt(fileset: nat, file: nat, bucket: string, keyBase: string, directory: string)
    | Reported(fileName: string)
    | Shutdown

  /** The events `execute` produces, in order, and how it ends. */
  datatype Run = Run(trace: seq<Event>, outcome: Outcome)

  /**
    What the loop reads: the validated bucket name, the normalised prefix,
    the filesets, the failure policy, and the outcome of the upload made for
    included file `j` of fileset `i`, as `upload(i, j)`.
   */
  datatype Batch = Batch(
    bucket: string,
    prefix: string,
    filesets: seq<FileSet>,
    continueOnFail: bool,
    upload: (nat, nat) -> UploadResult)

  const FailurePrefix: string := "Error. The file that failed to upload was: "

  /** The `BuildException` message for a failed upload when failures are not tolerated. */
  function FailureMessage(fileName: string, cause: string): string {
    FailurePrefix + fileName + ": " + cause
  }

  /** The upload the loop makes at included file `j` of fileset `i`: always the whole base directory. */
  function AttemptAt(b: Batch, i: nat, j: nat): Event
    requires i < |b.filesets|
  {
    Attempt(i, j, b.bucket, KeyBase(b.prefix, b.filesets[i]), b.filesets[i].basedir)
  }

  /**
    The inner loop over fileset `i`'s included files from index `j` on: a
    completed upload breaks out; a failed one throws, or is reported and the
    loop moves to the next included file.
   */
  function FileLoop(b: Batch, i: nat, j: nat): Run
    requires i < |b.filesets| && j <= |b.filesets[i].includedFiles|
    decreases |b.filesets[i].includedFiles| - j
  {
    var files := b.filesets[i].includedFiles;
    if j == |files| then Run([], Ok)
    else
      var name := FileName(files[j]);
      match b.upload(i, j)
      case Completed => Run([AttemptAt(b, i, j)], Ok)
      case Failed(cause) =>
        if !b.continueOnFail then Run([AttemptAt(b, i, j)], BuildError(FailureMessage(name, cause)))
        else
          var rest := FileLoop(b, i, j + 1);
          Run([AttemptAt(b, i, j), Reported(name)] + rest.trace, rest.outcome)
  }

  /**
    The outer loop over the filesets from index `i` on: each fileset's inner
    loop is followed, in its `finally`, by a shutdown of the transfer manager.
   */
  function FilesetLoop(b: Batch, i: nat): Run
    requires i <= |b.filesets|
    decreases |b.filesets| - i
  {
    if i == |b.filesets| then Run([], Ok)
    else
      var inner := FileLoop(b, i, 0);
      var entered := inner.trace + [Shutdown];
      if inner.outcome.BuildError? then Run(entered, inner.outcome)
      else
        var rest := FilesetLoop(b, i + 1);
        Run(entered + rest.trace, rest.outcome)
  }

  /** The loop's view of a task whose parameters passed the check. */
  function BatchOf(t: Task, upload: (nat, nat) -> UploadResult): Batch
    requires t.bucketName.NonNull?
  {
    Batch(t.bucketName.value, EffectivePrefix(t), t.filesets, t.continueOnFail, upload)
  }

  /**
    `execute`: the parameter check, then the loop. A run that does nothing
    observable is exactly one the check stopped.
   */
  function Execution(t: Task, upload: (nat, nat) -> UploadResult): (r: Run)
    ensures r.trace == [] <==> CheckParameters(t).BuildError?
    ensures r.trace == [] ==> r.outcome == CheckParameters(t)
  {
    match CheckParameters(t)
    case BuildError(message) => Run([], BuildError(message))
    case Ok => FilesetLoop(BatchOf(t, upload), 0)
  }

  /**
    One pass of `execute`'s inner loop over fileset `i`, written as the
    Java loop: `break` on a completed upload, and on a failure either the
    exception or the report and the next included file. The per-file key is
    computed and, as in the Java code, never used.
   */
  method UploadFileset(b: Batch, i: nat) returns (segment: seq<Event>, failure: Outcome)
    requires i < |b.filesets|
    ensures Run(segment, failure) == FileLoop(b, i, 0)
  {
    var fileSet := b.filesets[i];
    var includedFiles := fileSet.includedFiles;
    segment, failure := [], Ok;
    var j := 0;
    while j < |includedFiles|
      invariant 0 <= j <= |includedFiles|
      invariant segment + FileLoop(b, i, j).trace == FileLoop(b, i, 0).trace
      invariant FileLoop(b, i, j).outcome == FileLoop(b, i, 0).outcome
      invariant failure == Ok
    {
      var key := FileKey(b.prefix, includedFiles[j]);
      var keyBase := b.prefix + FileName(fileSet.basedir);
      var name := FileName(includedFiles[j]);
      var attempt := Attempt(i, j, b.bucket, keyBase, fileSet.basedir);
      assert attempt == AttemptAt(b, i, j);
      match b.upload(i, j)
      case Completed =>
        assert FileLoop(b, i, j) == Run([attempt], Ok);
        segment := segment + [attempt];
        break;
      case Failed(cause) =>
        if !b.continueOnFail {
          assert FileLoop(b, i, j) == Run([attempt], BuildError(FailureMessage(name, cause)));
          segment, failure := segment + [attempt], BuildError(FailureMessage(name, cause));
          break;
        }
        assert FileLoop(b, i, j).trace == [attempt, Reported(name)] + FileLoop(b, i, j + 1).trace;
        segment := segment + [attempt, Reported(name)];
      j := j + 1;
    }
  }

  /**
    `execute` written as the Java outer loop: the parameter check, then
    each fileset's inner loop followed, in its `finally`, by
    `shutdownNow(false)`, whether or not the loop threw. The loop reads the
    task through `BatchOf`, where a prefix that was never set becomes "".
    It produces exactly the run `Execution` describes.
   */
  method Execute(t: Task, upload: (nat, nat) -> UploadResult) returns (trace: seq<Event>, outcome: Outcome)
    ensures Run(trace, outcome) == Execution(t, upload)
  {
    var check := CheckParameters(t);
    if check.BuildError? {
      return [], check;
    }
    var b := BatchOf(t, upload);
    trace, outcome := [], Ok;
    var i := 0;
    while i < |t.filesets|
      invariant 0 <= i <= |t.filesets|
      invariant trace + FilesetLoop(b, i).trace == FilesetLoop(b, 0).trace
      invariant FilesetLoop(b, i).outcome == FilesetLoop(b, 0).outcome
      invariant outcome == Ok
    {
      var segment, failure := UploadFileset(b, i);
      assert FilesetLoop(b, i) == if failure.BuildError? then Run(segment + [Shutdown], failure)
        else Run(segment + [Shutdown] + FilesetLoop(b, i + 1).trace, FilesetLoop(b, i + 1).outcome);
      trace := trace + segment + [Shutdown];
      if failure.BuildError? {
        return trace, failure;
      }
      i := i + 1;
    }
  }
}
