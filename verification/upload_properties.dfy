/**
  What `execute` of the S3 upload task promises, proved about the model:
  the check before any upload, the keys, break-on-success, the two failure
  policies, the per-fileset shutdown, and the settings it ignores.
 */
module UploadProperties {
  import opened JavaLang
  import opened UploadTask
  import opened UploadExecution

  // ---------------------------------------------------------------------
  // Counting and projecting traces
  // ---------------------------------------------------------------------

  /** The number of `shutdownNow` calls in a trace. */
  function Shutdowns(tr: seq<Event>): nat {
    if |tr| == 0 then 0
    else Shutdowns(tr[..|tr| - 1]) + (if tr[|tr| - 1] == Shutdown then 1 else 0)
  }

  /** The calls a trace makes on the transfer manager: its uploads and shutdowns, without the console reports. */
  function ManagerCalls(tr: seq<Event>): seq<Event> {
    if |tr| == 0 then []
    else (if tr[0].Reported? then [] else [tr[0]]) + ManagerCalls(tr[1..])
  }

  lemma {:induction false} ShutdownsAppend(a: seq<Event>, c: seq<Event>)
    ensures Shutdowns(a + c) == Shutdowns(a) + Shutdowns(c)
    decreases |c|
  {
    if |c| > 0 {
      assert (a + c)[..|a + c| - 1] == a + c[..|c| - 1];
      ShutdownsAppend(a, c[..|c| - 1]);
    } else {
      assert a + c == a;
    }
  }

  lemma {:induction false} NoShutdowns(tr: seq<Event>)
    requires forall k :: 0 <= k < |tr| ==> tr[k] != Shutdown
    ensures Shutdowns(tr) == 0
    decreases |tr|
  {
    if |tr| > 0 {
      NoShutdowns(tr[..|tr| - 1]);
    }
  }

  lemma ShutdownsMonotone(tr: seq<Event>, k1: nat, k2: nat)
    requires k1 <= k2 <= |tr|
    ensures Shutdowns(tr[..k1]) <= Shutdowns(tr[..k2])
  {
    assert tr[..k2] == tr[..k1] + tr[k1..k2];
    ShutdownsAppend(tr[..k1], tr[k1..k2]);
  }

  lemma {:induction false} ManagerCallsAppend(a: seq<Event>, c: seq<Event>)
    ensures ManagerCalls(a + c) == ManagerCalls(a) + ManagerCalls(c)
    decreases |a|
  {
    if |a| == 0 {
      assert a + c == c;
    } else {
      assert (a + c)[1..] == a[1..] + c;
      ManagerCallsAppend(a[1..], c);
    }
  }

  /** An attempt whose indices name an included file of the batch. */
  ghost predicate InRange(b: Batch, e: Event) {
    e.Attempt? && e.fileset < |b.filesets| && e.file < |b.filesets[e.fileset].includedFiles|
  }

  /** The file name the loop reports, or puts in the exception, for attempt `e`. */
  function NameOf(b: Batch, e: Event): string
    requires InRange(b, e)
  {
    FileName(b.filesets[e.fileset].includedFiles[e.file])
  }

  // ---------------------------------------------------------------------
  // The inner loop over one fileset's included files
  // ---------------------------------------------------------------------

  /** What follows attempt `k` inside one fileset's inner loop, `r` being that loop's run. */
  ghost predicate FollowedInFileset(b: Batch, r: Run, k: nat)
    requires k < |r.trace| && InRange(b, r.trace[k])
  {
    var e := r.trace[k];
    var files := b.filesets[e.fileset].includedFiles;
    match b.upload(e.fileset, e.file)
    case Completed => k + 1 == |r.trace| && r.outcome.Ok?
    case Failed(cause) =>
      if b.continueOnFail then
        && k + 1 < |r.trace|
        && r.trace[k + 1] == Reported(NameOf(b, e))
        && (if e.file + 1 < |files|
            then k + 2 < |r.trace| && r.trace[k + 2] == AttemptAt(b, e.fileset, e.file + 1)
            else k + 2 == |r.trace|)
      else
        k + 1 == |r.trace| && r.outcome == BuildError(FailureMessage(NameOf(b, e), cause))
  }

  /** A report names the file of the failed attempt just before it. */
  ghost predicate ReportsFailure(b: Batch, tr: seq<Event>, k: nat)
    requires k < |tr|
  {
    tr[k].Reported? ==>
      && 0 < k
      && InRange(b, tr[k - 1])
      && b.continueOnFail
      && b.upload(tr[k - 1].fileset, tr[k - 1].file).Failed?
      && tr[k].fileName == NameOf(b, tr[k - 1])
  }

  /** The shape of the inner loop's run from included file `j` on. */
  lemma {:induction false} FileLoopShape(b: Batch, i: nat, j: nat)
    requires i < |b.filesets| && j <= |b.filesets[i].includedFiles|
    ensures var r := FileLoop(b, i, j);
      && (forall k :: 0 <= k < |r.trace| ==> r.trace[k] != Shutdown)
      && (forall k :: 0 <= k < |r.trace| && r.trace[k].Attempt? ==>
            j <= r.trace[k].file < |b.filesets[i].includedFiles| && r.trace[k] == AttemptAt(b, i, r.trace[k].file))
      && (forall k :: 0 <= k < |r.trace| ==> ReportsFailure(b, r.trace, k))
      && (j < |b.filesets[i].includedFiles| ==> |r.trace| > 0 && r.trace[0] == AttemptAt(b, i, j))
      && (j == |b.filesets[i].includedFiles| ==> r == Run([], Ok))
      && (r.outcome.BuildError? ==> |r.trace| > 0 && r.trace[|r.trace| - 1].Attempt?)
      && (b.continueOnFail ==> r.outcome.Ok?)
    decreases |b.filesets[i].includedFiles| - j
  {
    var files := b.filesets[i].includedFiles;
    if j < |files| && b.upload(i, j).Failed? && b.continueOnFail {
      FileLoopShape(b, i, j + 1);
      var rest := FileLoop(b, i, j + 1);
      var tr := FileLoop(b, i, j).trace;
      assert tr == [AttemptAt(b, i, j), Reported(FileName(files[j]))] + rest.trace;
      forall k | 0 <= k < |tr|
        ensures tr[k] != Shutdown
        ensures tr[k].Attempt? ==> j <= tr[k].file < |files| && tr[k] == AttemptAt(b, i, tr[k].file)
        ensures ReportsFailure(b, tr, k)
      {
        if k >= 2 {
          assert tr[k] == rest.trace[k - 2];
          assert ReportsFailure(b, rest.trace, k - 2);
          if k > 2 {
            assert tr[k - 1] == rest.trace[k - 3];
          }
        }
      }
    }
  }

  /** What follows each attempt inside one fileset's inner loop. */
  lemma {:induction false} FileLoopSteps(b: Batch, i: nat, j: nat, k: nat)
    requires i < |b.filesets| && j <= |b.filesets[i].includedFiles|
    requires k < |FileLoop(b, i, j).trace| && FileLoop(b, i, j).trace[k].Attempt?
    ensures InRange(b, FileLoop(b, i, j).trace[k])
    ensures FollowedInFileset(b, FileLoop(b, i, j), k)
    decreases |b.filesets[i].includedFiles| - j
  {
    var files := b.filesets[i].includedFiles;
    FileLoopShape(b, i, j);
    var r := FileLoop(b, i, j);
    if k == 0 {
      assert r.trace[0] == AttemptAt(b, i, j);
      if b.upload(i, j).Failed? && b.continueOnFail {
        FileLoopShape(b, i, j + 1);
      }
    } else {
      var rest := FileLoop(b, i, j + 1);
      assert r.trace == [AttemptAt(b, i, j), Reported(FileName(files[j]))] + rest.trace;
      assert r.trace[k] == rest.trace[k - 2];
      FileLoopSteps(b, i, j + 1, k - 2);
      assert r.trace[k + 1..] == rest.trace[k - 1..];
    }
  }

  // ---------------------------------------------------------------------
  // The outer loop over the filesets
  // ---------------------------------------------------------------------

  /** What follows attempt `k` in a whole run `r` of the loop. */
  ghost predicate Followed(b: Batch, r: Run, k: nat)
    requires k < |r.trace| && InRange(b, r.trace[k])
  {
    var e := r.trace[k];
    var files := b.filesets[e.fileset].includedFiles;
    match b.upload(e.fileset, e.file)
    case Completed => k + 1 < |r.trace| && r.trace[k + 1] == Shutdown
    case Failed(cause) =>
      if b.continueOnFail then
        && k + 2 < |r.trace|
        && r.trace[k + 1] == Reported(NameOf(b, e))
        && r.trace[k + 2] == (if e.file + 1 < |files| then AttemptAt(b, e.fileset, e.file + 1) else Shutdown)
      else
        && k + 2 == |r.trace|
        && r.trace[k + 1] == Shutdown
        && r.outcome == BuildError(FailureMessage(NameOf(b, e), cause))
  }

  /** One fileset's part of the run, its inner loop and the shutdown after it, holds exactly one shutdown. */
  lemma EnteredFilesetShutsDownOnce(b: Batch, i: nat)
    requires i < |b.filesets|
    ensures Shutdowns(FileLoop(b, i, 0).trace) == 0
    ensures Shutdowns(FileLoop(b, i, 0).trace + [Shutdown]) == 1
  {
    var seg := FileLoop(b, i, 0).trace;
    FileLoopShape(b, i, 0);
    NoShutdowns(seg);
    ShutdownsAppend(seg, [Shutdown]);
    assert [Shutdown][..0] == [];
  }

  /** Each upload of the outer loop's run from fileset `i` on, and the number of shutdowns before it. */
  lemma {:induction false} FilesetLoopAttempt(b: Batch, i: nat, k: nat)
    requires i <= |b.filesets|
    requires k < |FilesetLoop(b, i).trace| && FilesetLoop(b, i).trace[k].Attempt?
    ensures var e := FilesetLoop(b, i).trace[k];
      && InRange(b, e)
      && i <= e.fileset
      && e == AttemptAt(b, e.fileset, e.file)
      && Shutdowns(FilesetLoop(b, i).trace[..k]) == e.fileset - i
    decreases |b.filesets| - i
  {
    var inner := FileLoop(b, i, 0);
    var seg := inner.trace;
    var r := FilesetLoop(b, i);
    var rest := FilesetLoop(b, i + 1);
    FileLoopShape(b, i, 0);
    assert r.trace == seg + [Shutdown] + (if inner.outcome.Ok? then rest.trace else []);
    if k < |seg| {
      assert r.trace[k] == seg[k];
      assert r.trace[..k] == seg[..k];
      NoShutdowns(seg[..k]);
    } else {
      var k' := k - |seg| - 1;
      assert r.trace[k] == rest.trace[k'];
      FilesetLoopAttempt(b, i + 1, k');
      assert r.trace[..k] == (seg + [Shutdown]) + rest.trace[..k'];
      ShutdownsAppend(seg + [Shutdown], rest.trace[..k']);
      EnteredFilesetShutsDownOnce(b, i);
    }
  }

  /** Each report of the outer loop's run follows the failed upload it names. */
  lemma {:induction false} FilesetLoopReport(b: Batch, i: nat, k: nat)
    requires i <= |b.filesets| && k < |FilesetLoop(b, i).trace|
    ensures ReportsFailure(b, FilesetLoop(b, i).trace, k)
    decreases |b.filesets| - i
  {
    var inner := FileLoop(b, i, 0);
    var seg := inner.trace;
    var r := FilesetLoop(b, i);
    var rest := FilesetLoop(b, i + 1);
    FileLoopShape(b, i, 0);
    assert r.trace == seg + [Shutdown] + (if inner.outcome.Ok? then rest.trace else []);
    if k < |seg| {
      assert r.trace[k] == seg[k];
      assert ReportsFailure(b, seg, k);
      if 0 < k {
        assert r.trace[k - 1] == seg[k - 1];
      }
    } else if k > |seg| {
      var k' := k - |seg| - 1;
      assert r.trace[k] == rest.trace[k'];
      FilesetLoopReport(b, i + 1, k');
      if 0 < k' {
        assert r.trace[k - 1] == rest.trace[k' - 1];
      }
    }
  }

  /** With `continueOnFail` set, no fileset's inner loop throws, so the outer loop ends normally. */
  lemma {:induction false} FilesetLoopTolerates(b: Batch, i: nat)
    requires i <= |b.filesets| && b.continueOnFail
    ensures FilesetLoop(b, i).outcome.Ok?
    decreases |b.filesets| - i
  {
    if i < |b.filesets| {
      FileLoopShape(b, i, 0);
      FilesetLoopTolerates(b, i + 1);
    }
  }

  /**
    With `continueOnFail` set the inner loop reaches included file `j2`
    once every upload from `j` up to it has failed.
   */
  lemma {:induction false} FileLoopReaches(b: Batch, i: nat, j: nat, j2: nat)
    requires i < |b.filesets| && j <= j2 < |b.filesets[i].includedFiles| && b.continueOnFail
    requires forall j' :: j <= j' < j2 ==> b.upload(i, j').Failed?
    ensures AttemptAt(b, i, j2) in FileLoop(b, i, j).trace
    decreases j2 - j
  {
    var files := b.filesets[i].includedFiles;
    if j < j2 {
      FileLoopReaches(b, i, j + 1, j2);
      assert FileLoop(b, i, j).trace == [AttemptAt(b, i, j), Reported(FileName(files[j]))] + FileLoop(b, i, j + 1).trace;
    } else {
      assert FileLoop(b, i, j).trace[0] == AttemptAt(b, i, j);
    }
  }

  /** The inner loop uploads at included file `j2` only after every upload from `j` up to it has failed. */
  lemma {:induction false} FileLoopReachedAfterFailures(b: Batch, i: nat, j: nat, j2: nat)
    requires i < |b.filesets| && j <= |b.filesets[i].includedFiles| && j2 < |b.filesets[i].includedFiles|
    requires AttemptAt(b, i, j2) in FileLoop(b, i, j).trace
    ensures j <= j2
    ensures forall j' :: j <= j' < j2 ==> b.upload(i, j').Failed?
    decreases |b.filesets[i].includedFiles| - j
  {
    var files := b.filesets[i].includedFiles;
    if j != j2 && b.upload(i, j).Failed? && b.continueOnFail {
      assert FileLoop(b, i, j).trace == [AttemptAt(b, i, j), Reported(FileName(files[j]))] + FileLoop(b, i, j + 1).trace;
      FileLoopReachedAfterFailures(b, i, j + 1, j2);
    }
  }

  /** With `continueOnFail` set the outer loop from fileset `i` on contains every upload that fileset `f`'s own inner loop makes. */
  lemma {:induction false} FilesetLoopReaches(b: Batch, i: nat, f: nat, e: Event)
    requires i <= f < |b.filesets| && b.continueOnFail
    requires e in FileLoop(b, f, 0).trace
    ensures e in FilesetLoop(b, i).trace
    decreases f - i
  {
    FileLoopShape(b, i, 0);
    assert FilesetLoop(b, i).trace == FileLoop(b, i, 0).trace + [Shutdown] + FilesetLoop(b, i + 1).trace;
    if i < f {
      FilesetLoopReaches(b, i + 1, f, e);
    }
  }

  /** Every upload of the outer loop's run from fileset `i` on was made by its own fileset's inner loop. */
  lemma {:induction false} FilesetLoopAttemptFrom(b: Batch, i: nat, k: nat)
    requires i <= |b.filesets|
    requires k < |FilesetLoop(b, i).trace| && FilesetLoop(b, i).trace[k].Attempt?
    ensures var e := FilesetLoop(b, i).trace[k];
      e.fileset < |b.filesets| && e in FileLoop(b, e.fileset, 0).trace
    decreases |b.filesets| - i
  {
    var inner := FileLoop(b, i, 0);
    var seg := inner.trace;
    var r := FilesetLoop(b, i);
    var rest := FilesetLoop(b, i + 1);
    FileLoopShape(b, i, 0);
    assert r.trace == seg + [Shutdown] + (if inner.outcome.Ok? then rest.trace else []);
    if k < |seg| {
      assert r.trace[k] == seg[k];
    } else {
      var k' := k - |seg| - 1;
      assert r.trace[k] == rest.trace[k'];
      FilesetLoopAttemptFrom(b, i + 1, k');
    }
  }

  /** A normal end of the outer loop from fileset `i` on has shut down once per fileset. */
  lemma {:induction false} FilesetLoopShutdowns(b: Batch, i: nat)
    requires i <= |b.filesets| && FilesetLoop(b, i).outcome.Ok?
    ensures Shutdowns(FilesetLoop(b, i).trace) == |b.filesets| - i
    decreases |b.filesets| - i
  {
    if i < |b.filesets| {
      var seg := FileLoop(b, i, 0).trace;
      var rest := FilesetLoop(b, i + 1).trace;
      EnteredFilesetShutsDownOnce(b, i);
      FilesetLoopShutdowns(b, i + 1);
      assert FilesetLoop(b, i).trace == (seg + [Shutdown]) + rest;
      ShutdownsAppend(seg + [Shutdown], rest);
    }
  }

  /**
    An exception leaves the outer loop right after the shutdown of the
    fileset whose upload failed, that upload being the event before it, and
    after one shutdown per fileset entered.
   */
  lemma {:induction false} FilesetLoopThrows(b: Batch, i: nat)
    requires i <= |b.filesets| && FilesetLoop(b, i).outcome.BuildError?
    ensures var tr := FilesetLoop(b, i).trace;
      && |tr| >= 2
      && tr[|tr| - 1] == Shutdown
      && tr[|tr| - 2].Attempt?
      && Shutdowns(tr) == tr[|tr| - 2].fileset - i + 1
    decreases |b.filesets| - i
  {
    var inner := FileLoop(b, i, 0);
    var seg := inner.trace;
    var tr := FilesetLoop(b, i).trace;
    EnteredFilesetShutsDownOnce(b, i);
    if inner.outcome.Ok? {
      var rest := FilesetLoop(b, i + 1).trace;
      FilesetLoopThrows(b, i + 1);
      ShutdownsAppend(seg + [Shutdown], rest);
      assert tr == (seg + [Shutdown]) + rest;
      assert tr[|tr| - 1] == rest[|rest| - 1];
      assert tr[|tr| - 2] == rest[|rest| - 2];
      FilesetLoopAttempt(b, i + 1, |rest| - 2);
    } else {
      FileLoopShape(b, i, 0);
      assert tr == seg + [Shutdown];
      assert tr[|tr| - 2] == seg[|seg| - 1];
      assert seg[|seg| - 1] == AttemptAt(b, i, seg[|seg| - 1].file);
    }
  }

  /** What follows each attempt of the outer loop's run. */
  lemma {:induction false} FilesetLoopSteps(b: Batch, i: nat, k: nat)
    requires i <= |b.filesets|
    requires k < |FilesetLoop(b, i).trace| && FilesetLoop(b, i).trace[k].Attempt?
    ensures InRange(b, FilesetLoop(b, i).trace[k])
    ensures Followed(b, FilesetLoop(b, i), k)
    decreases |b.filesets| - i
  {
    var inner := FileLoop(b, i, 0);
    var seg := inner.trace;
    var r := FilesetLoop(b, i);
    var rest := FilesetLoop(b, i + 1);
    FileLoopShape(b, i, 0);
    assert r.trace == seg + [Shutdown] + (if inner.outcome.Ok? then rest.trace else []);
    if k < |seg| {
      assert r.trace[k] == seg[k];
      FileLoopSteps(b, i, 0, k);
      if k + 1 < |seg| {
        assert r.trace[k + 1] == seg[k + 1];
      }
      if k + 2 < |seg| {
        assert r.trace[k + 2] == seg[k + 2];
      }
    } else {
      var k' := k - |seg| - 1;
      assert r.trace[k] == rest.trace[k'];
      FilesetLoopSteps(b, i + 1, k');
      assert r.trace[k + 1..] == rest.trace[k' + 1..];
    }
  }

  /** The outer loop's uploads and shutdowns do not depend on the included files' names, only on how many there are. */
  ghost predicate SameScan(a: seq<FileSet>, c: seq<FileSet>) {
    && |a| == |c|
    && forall i :: 0 <= i < |a| ==>
         a[i].basedir == c[i].basedir && |a[i].includedFiles| == |c[i].includedFiles|
  }

  lemma {:induction false} FileLoopIgnoresNames(b: Batch, filesets: seq<FileSet>, i: nat, j: nat)
    requires SameScan(b.filesets, filesets)
    requires i < |b.filesets| && j <= |b.filesets[i].includedFiles|
    ensures ManagerCalls(FileLoop(b.(filesets := filesets), i, j).trace) == ManagerCalls(FileLoop(b, i, j).trace)
    ensures FileLoop(b.(filesets := filesets), i, j).outcome.Ok? == FileLoop(b, i, j).outcome.Ok?
    decreases |b.filesets[i].includedFiles| - j
  {
    var b' := b.(filesets := filesets);
    assert AttemptAt(b', i, j) == AttemptAt(b, i, j);
    if j < |b.filesets[i].includedFiles| && b.upload(i, j).Failed? && b.continueOnFail {
      FileLoopIgnoresNames(b, filesets, i, j + 1);
      var name := FileName(b.filesets[i].includedFiles[j]);
      var name' := FileName(filesets[i].includedFiles[j]);
      ManagerCallsAppend([AttemptAt(b, i, j), Reported(name)], FileLoop(b, i, j + 1).trace);
      ManagerCallsAppend([AttemptAt(b, i, j), Reported(name')], FileLoop(b', i, j + 1).trace);
      assert ManagerCalls([AttemptAt(b, i, j), Reported(name)]) == [AttemptAt(b, i, j)];
      assert ManagerCalls([AttemptAt(b, i, j), Reported(name')]) == [AttemptAt(b, i, j)];
    }
  }

  lemma {:induction false} FilesetLoopIgnoresNames(b: Batch, filesets: seq<FileSet>, i: nat)
    requires SameScan(b.filesets, filesets)
    requires i <= |b.filesets|
    ensures ManagerCalls(FilesetLoop(b.(filesets := filesets), i).trace) == ManagerCalls(FilesetLoop(b, i).trace)
    ensures FilesetLoop(b.(filesets := filesets), i).outcome.Ok? == FilesetLoop(b, i).outcome.Ok?
    decreases |b.filesets| - i
  {
    if i < |b.filesets| {
      var b' := b.(filesets := filesets);
      FileLoopIgnoresNames(b, filesets, i, 0);
      var seg := FileLoop(b, i, 0).trace;
      var seg' := FileLoop(b', i, 0).trace;
      ManagerCallsAppend(seg, [Shutdown]);
      ManagerCallsAppend(seg', [Shutdown]);
      if FileLoop(b, i, 0).outcome.Ok? {
        FilesetLoopIgnoresNames(b, filesets, i + 1);
        ManagerCallsAppend(seg + [Shutdown], FilesetLoop(b, i + 1).trace);
        ManagerCallsAppend(seg' + [Shutdown], FilesetLoop(b', i + 1).trace);
      }
    }
  }

  /** The inner loop over fileset `i` reads only that fileset. */
  lemma {:induction false} FileLoopReadsOwnFileset(b: Batch, filesets: seq<FileSet>, i: nat, j: nat)
    requires i < |b.filesets| && i < |filesets| && filesets[i] == b.filesets[i]
    requires j <= |b.filesets[i].includedFiles|
    ensures FileLoop(b.(filesets := filesets), i, j) == FileLoop(b, i, j)
    decreases |b.filesets[i].includedFiles| - j
  {
    if j < |b.filesets[i].includedFiles| {
      FileLoopReadsOwnFileset(b, filesets, i, j + 1);
    }
  }

  /** Appending a fileset leaves the run over the earlier ones alone and, if it ended normally, continues it with the new fileset. */
  lemma {:induction false} FilesetLoopAppend(b: Batch, fs: FileSet, i: nat)
    requires i <= |b.filesets|
    ensures var b' := b.(filesets := b.filesets + [fs]);
      var before := FilesetLoop(b, i);
      var after := FilesetLoop(b', i);
      var added := FileLoop(b', |b.filesets|, 0);
      && (before.outcome.BuildError? ==> after == before)
      && (before.outcome.Ok? ==> after == Run(before.trace + added.trace + [Shutdown], added.outcome))
    decreases |b.filesets| - i
  {
    var b' := b.(filesets := b.filesets + [fs]);
    if i < |b.filesets| {
      FileLoopReadsOwnFileset(b, b'.filesets, i, 0);
      FilesetLoopAppend(b, fs, i + 1);
      var seg := FileLoop(b, i, 0).trace;
      if FileLoop(b, i, 0).outcome.Ok? {
        var added := FileLoop(b', |b.filesets|, 0);
        assert seg + [Shutdown] + (FilesetLoop(b, i + 1).trace + added.trace + [Shutdown])
            == seg + [Shutdown] + FilesetLoop(b, i + 1).trace + added.trace + [Shutdown];
      }
    } else {
      assert FilesetLoop(b', i + 1) == Run([], Ok);
    }
  }

  /**
    With `continueOnFail` false, the loop ends normally exactly when every
    non-empty fileset's first upload completes, and it never gets past a
    fileset's first included file.
   */
  lemma {:induction false} FailFastOutcome(b: Batch, i: nat)
    requires !b.continueOnFail && i <= |b.filesets|
    ensures FilesetLoop(b, i).outcome.Ok? <==>
      forall f :: i <= f < |b.filesets| && |b.filesets[f].includedFiles| > 0 ==> b.upload(f, 0).Completed?
    ensures forall k :: 0 <= k < |FilesetLoop(b, i).trace| && FilesetLoop(b, i).trace[k].Attempt? ==>
      FilesetLoop(b, i).trace[k].file == 0
    decreases |b.filesets| - i
  {
    if i < |b.filesets| {
      FailFastOutcome(b, i + 1);
      var seg := FileLoop(b, i, 0).trace;
      var tr := FilesetLoop(b, i).trace;
      var rest := FilesetLoop(b, i + 1).trace;
      assert |seg| <= 1 && (|seg| == 1 ==> seg[0] == AttemptAt(b, i, 0));
      assert tr == seg + [Shutdown] + (if FileLoop(b, i, 0).outcome.Ok? then rest else []);
      forall k | 0 <= k < |tr| && tr[k].Attempt?
        ensures tr[k].file == 0
      {
        if k > |seg| {
          assert tr[k] == rest[k - |seg| - 1];
        }
      }
    }
  }

  /**
    With `continueOnFail` false, the loop from fileset `i` on uploads a
    non-empty fileset `f` exactly when the first upload of every non-empty
    fileset between them completed.
   */
  lemma {:induction false} FailFastReachesFrom(b: Batch, i: nat, f: nat)
    requires !b.continueOnFail && i <= f < |b.filesets| && |b.filesets[f].includedFiles| > 0
    ensures AttemptAt(b, f, 0) in FilesetLoop(b, i).trace <==>
      forall f' :: i <= f' < f && |b.filesets[f'].includedFiles| > 0 ==> b.upload(f', 0).Completed?
    decreases f - i
  {
    var seg := FileLoop(b, i, 0).trace;
    var tr := FilesetLoop(b, i).trace;
    var rest := FilesetLoop(b, i + 1).trace;
    FileLoopShape(b, i, 0);
    assert |seg| <= 1 && (|seg| == 1 ==> seg[0] == AttemptAt(b, i, 0));
    assert tr == seg + [Shutdown] + (if FileLoop(b, i, 0).outcome.Ok? then rest else []);
    if i == f {
      assert tr[0] == AttemptAt(b, f, 0);
    } else {
      FailFastReachesFrom(b, i + 1, f);
      assert AttemptAt(b, f, 0) !in seg + [Shutdown];
      if FileLoop(b, i, 0).outcome.Ok? {
        assert AttemptAt(b, f, 0) in tr <==> AttemptAt(b, f, 0) in rest;
      } else {
        assert b.upload(i, 0).Failed? && |b.filesets[i].includedFiles| > 0;
      }
    }
  }

  // ---------------------------------------------------------------------
  // The properties, stated for `execute` on a task
  // ---------------------------------------------------------------------

  /**
    `checkParameters` reports every missing parameter, one line each,
    each ending in " \n", the bucket line before the fileset line.
   */
  lemma CheckParametersMessages(t: Task)
    ensures t.bucketName.Null? && |t.filesets| == 0 ==>
      CheckParameters(t) == BuildError(MissingBucketLine + MissingFilesetLine)
    ensures t.bucketName.Null? && |t.filesets| > 0 ==>
      CheckParameters(t) == BuildError(MissingBucketLine)
    ensures t.bucketName.NonNull? && |t.filesets| == 0 ==>
      CheckParameters(t) == BuildError(MissingFilesetLine)
    ensures t.bucketName.NonNull? && |t.filesets| > 0 ==> CheckParameters(t) == Ok
  {
  }

  /** The prefix in keys is never null: the one passed to `setKeyPrefix`, or "" when that was null or never called. */
  lemma PrefixNeverNull(t: Task, keyPrefix: Nullable<string>)
    ensures EffectivePrefix(SetKeyPrefix(t, keyPrefix)) == keyPrefix.OrElse("")
    ensures EffectivePrefix(Initial) == ""
    ensures t.keyPrefix.NonNull? ==> EffectivePrefix(t) == t.keyPrefix.value
  {
  }

  /**
    Every upload goes to the task's bucket under `keyPrefix + base.getName()`
    and sends the whole base directory of a fileset; it is made at one of
    that fileset's included files, so an empty fileset is never uploaded.
   */
  lemma AttemptsUploadWholeBaseDirectory(t: Task, upload: (nat, nat) -> UploadResult, k: nat)
    requires k < |Execution(t, upload).trace| && Execution(t, upload).trace[k].Attempt?
    ensures var e := Execution(t, upload).trace[k];
      && t.bucketName.NonNull?
      && e.fileset < |t.filesets|
      && e.file < |t.filesets[e.fileset].includedFiles|
      && e.bucket == t.bucketName.value
      && e.keyBase == EffectivePrefix(t) + FileName(t.filesets[e.fileset].basedir)
      && e.directory == t.filesets[e.fileset].basedir
  {
    FilesetLoopAttempt(BatchOf(t, upload), 0, k);
  }

  /** A fileset without included files is entered and shut down but never uploaded. */
  lemma EmptyFilesetNotUploaded(t: Task, upload: (nat, nat) -> UploadResult, f: nat)
    requires f < |t.filesets| && |t.filesets[f].includedFiles| == 0
    ensures forall k :: 0 <= k < |Execution(t, upload).trace| && Execution(t, upload).trace[k].Attempt? ==>
      Execution(t, upload).trace[k].fileset != f
  {
    forall k | 0 <= k < |Execution(t, upload).trace| && Execution(t, upload).trace[k].Attempt?
      ensures Execution(t, upload).trace[k].fileset != f
    {
      AttemptsUploadWholeBaseDirectory(t, upload, k);
    }
  }

  /**
    The per-file key never reaches the transfer manager: tasks whose
    filesets differ only in the names of their included files make the same
    uploads and shutdowns and end the same way.
   */
  lemma FileNamesNeverReachUploads(t: Task, filesets: seq<FileSet>, upload: (nat, nat) -> UploadResult)
    requires SameScan(t.filesets, filesets)
    ensures ManagerCalls(Execution(t.(filesets := filesets), upload).trace) == ManagerCalls(Execution(t, upload).trace)
    ensures Execution(t.(filesets := filesets), upload).outcome.Ok? == Execution(t, upload).outcome.Ok?
  {
    if CheckParameters(t).Ok? {
      FilesetLoopIgnoresNames(BatchOf(t, upload), filesets, 0);
      assert BatchOf(t.(filesets := filesets), upload) == BatchOf(t, upload).(filesets := filesets);
    }
  }

  /**
    What follows each upload: a completed one breaks out of its fileset (the
    next event is the shutdown); a failed one with `continueOnFail` is
    reported by file name and followed by another upload of the same
    directory for the next included file, or by the shutdown after the last;
    a failed one without it is followed only by the shutdown, and the
    exception names the file and the cause.
   */
  lemma AfterEachAttempt(t: Task, upload: (nat, nat) -> UploadResult, k: nat)
    requires k < |Execution(t, upload).trace| && Execution(t, upload).trace[k].Attempt?
    ensures t.bucketName.NonNull?
    ensures InRange(BatchOf(t, upload), Execution(t, upload).trace[k])
    ensures Followed(BatchOf(t, upload), Execution(t, upload), k)
  {
    FilesetLoopSteps(BatchOf(t, upload), 0, k);
  }

  /** Every report follows a failed upload, with `continueOnFail` set, and names the file that upload was made for. */
  lemma ReportsNameFailedFiles(t: Task, upload: (nat, nat) -> UploadResult, k: nat)
    requires k < |Execution(t, upload).trace|
    ensures t.bucketName.NonNull?
    ensures ReportsFailure(BatchOf(t, upload), Execution(t, upload).trace, k)
  {
    FilesetLoopReport(BatchOf(t, upload), 0, k);
  }

  /**
    `shutdownNow(false)` runs once per fileset the loop enters: each upload
    of fileset `f` has exactly `f` shutdowns before it; a normal end has one
    per fileset; an exception comes right after the shutdown of the fileset
    whose upload failed, that fileset's shutdown included.
   */
  lemma ShutdownOncePerFileset(t: Task, upload: (nat, nat) -> UploadResult)
    requires CheckParameters(t).Ok?
    ensures var tr := Execution(t, upload).trace;
      forall k :: 0 <= k < |tr| && tr[k].Attempt? ==> Shutdowns(tr[..k]) == tr[k].fileset
    ensures var r := Execution(t, upload);
      r.outcome.Ok? ==> Shutdowns(r.trace) == |t.filesets|
    ensures var tr := Execution(t, upload).trace;
      Execution(t, upload).outcome.BuildError? ==>
        && |tr| >= 2
        && tr[|tr| - 1] == Shutdown
        && tr[|tr| - 2].Attempt?
        && Shutdowns(tr) == tr[|tr| - 2].fileset + 1
  {
    var tr := Execution(t, upload).trace;
    forall k | 0 <= k < |tr| && tr[k].Attempt?
      ensures Shutdowns(tr[..k]) == tr[k].fileset
    {
      FilesetLoopAttempt(BatchOf(t, upload), 0, k);
    }
    if Execution(t, upload).outcome.Ok? {
      FilesetLoopShutdowns(BatchOf(t, upload), 0);
    } else {
      FilesetLoopThrows(BatchOf(t, upload), 0);
    }
  }

  /** Filesets are uploaded in the order they were added: an upload of an earlier fileset never comes after one of a later fileset. */
  lemma FilesetsInInsertionOrder(t: Task, upload: (nat, nat) -> UploadResult, k1: nat, k2: nat)
    requires k1 <= k2 < |Execution(t, upload).trace|
    requires Execution(t, upload).trace[k1].Attempt? && Execution(t, upload).trace[k2].Attempt?
    ensures Execution(t, upload).trace[k1].fileset <= Execution(t, upload).trace[k2].fileset
  {
    ShutdownOncePerFileset(t, upload);
    ShutdownsMonotone(Execution(t, upload).trace, k1, k2);
  }

  /** Within a fileset at most one upload completes, and it is the fileset's last: every earlier upload of it failed. */
  lemma AtMostOneCompletedPerFileset(t: Task, upload: (nat, nat) -> UploadResult, k1: nat, k2: nat)
    requires k1 < k2 < |Execution(t, upload).trace|
    requires Execution(t, upload).trace[k1].Attempt? && Execution(t, upload).trace[k2].Attempt?
    requires Execution(t, upload).trace[k1].fileset == Execution(t, upload).trace[k2].fileset
    ensures upload(Execution(t, upload).trace[k1].fileset, Execution(t, upload).trace[k1].file).Failed?
  {
    CompletedEndsFileset(BatchOf(t, upload), k1, k2);
  }

  lemma ShutdownsSnoc(tr: seq<Event>, k: nat)
    requires k < |tr|
    ensures Shutdowns(tr[..k + 1]) == Shutdowns(tr[..k]) + (if tr[k] == Shutdown then 1 else 0)
  {
    assert tr[..k + 1][..k] == tr[..k];
  }

  lemma CompletedEndsFileset(b: Batch, k1: nat, k2: nat)
    requires k1 < k2 < |FilesetLoop(b, 0).trace|
    requires FilesetLoop(b, 0).trace[k1].Attempt? && FilesetLoop(b, 0).trace[k2].Attempt?
    requires FilesetLoop(b, 0).trace[k1].fileset == FilesetLoop(b, 0).trace[k2].fileset
    ensures b.upload(FilesetLoop(b, 0).trace[k1].fileset, FilesetLoop(b, 0).trace[k1].file).Failed?
  {
    var tr := FilesetLoop(b, 0).trace;
    var e := tr[k1];
    FilesetLoopSteps(b, 0, k1);
    if b.upload(e.fileset, e.file).Completed? {
      FilesetLoopAttempt(b, 0, k1);
      FilesetLoopAttempt(b, 0, k2);
      ShutdownsSnoc(tr, k1);
      ShutdownsSnoc(tr, k1 + 1);
      ShutdownsMonotone(tr, k1 + 2, k2);
      assert false;
    }
  }

  /**
    With `continueOnFail` false the task ends normally exactly when the
    first included file's upload completes in every non-empty fileset; each
    fileset is uploaded at most once, at its first included file; and a
    non-empty fileset is uploaded exactly when every earlier non-empty
    fileset's upload completed.
   */
  lemma FailFast(t: Task, upload: (nat, nat) -> UploadResult)
    requires CheckParameters(t).Ok? && !t.continueOnFail
    ensures Execution(t, upload).outcome.Ok? <==>
      forall f :: 0 <= f < |t.filesets| && |t.filesets[f].includedFiles| > 0 ==> upload(f, 0).Completed?
    ensures forall k :: 0 <= k < |Execution(t, upload).trace| && Execution(t, upload).trace[k].Attempt? ==>
      Execution(t, upload).trace[k].file == 0
    ensures forall f :: 0 <= f < |t.filesets| && |t.filesets[f].includedFiles| > 0 ==>
      (AttemptAt(BatchOf(t, upload), f, 0) in Execution(t, upload).trace <==>
       forall f' :: 0 <= f' < f && |t.filesets[f'].includedFiles| > 0 ==> upload(f', 0).Completed?)
  {
    FailFastOutcome(BatchOf(t, upload), 0);
    forall f | 0 <= f < |t.filesets| && |t.filesets[f].includedFiles| > 0
      ensures AttemptAt(BatchOf(t, upload), f, 0) in Execution(t, upload).trace <==>
        forall f' :: 0 <= f' < f && |t.filesets[f'].includedFiles| > 0 ==> upload(f', 0).Completed?
    {
      FailFastReachesFrom(BatchOf(t, upload), 0, f);
    }
  }

  /**
    With `continueOnFail` set the task never throws once its parameters
    pass, however many uploads fail: every fileset is entered and shut
    down, and every non-empty one is uploaded.
   */
  lemma ContinueOnFailNeverThrows(t: Task, upload: (nat, nat) -> UploadResult)
    requires CheckParameters(t).Ok? && t.continueOnFail
    ensures Execution(t, upload).outcome == Ok
    ensures Shutdowns(Execution(t, upload).trace) == |t.filesets|
    ensures forall f :: 0 <= f < |t.filesets| && |t.filesets[f].includedFiles| > 0 ==>
      AttemptAt(BatchOf(t, upload), f, 0) in Execution(t, upload).trace
  {
    FilesetLoopTolerates(BatchOf(t, upload), 0);
    FilesetLoopShutdowns(BatchOf(t, upload), 0);
    forall f | 0 <= f < |t.filesets| && |t.filesets[f].includedFiles| > 0
      ensures AttemptAt(BatchOf(t, upload), f, 0) in Execution(t, upload).trace
    {
      ContinueOnFailReachesEveryFileset(t, upload, f, 0);
    }
  }

  /**
    With `continueOnFail` set a failure never stops the walk: in every
    fileset, whatever happened in the earlier ones, the base directory is
    uploaded at included file `j` exactly when the uploads at all its
    earlier included files failed.
   */
  lemma ContinueOnFailReachesEveryFileset(t: Task, upload: (nat, nat) -> UploadResult, f: nat, j: nat)
    requires CheckParameters(t).Ok? && t.continueOnFail
    requires f < |t.filesets| && j < |t.filesets[f].includedFiles|
    ensures AttemptAt(BatchOf(t, upload), f, j) in Execution(t, upload).trace
      <==> forall j' :: 0 <= j' < j ==> upload(f, j').Failed?
  {
    var b := BatchOf(t, upload);
    var e := AttemptAt(b, f, j);
    var tr := Execution(t, upload).trace;
    assert tr == FilesetLoop(b, 0).trace;
    if forall j' :: 0 <= j' < j ==> upload(f, j').Failed? {
      FileLoopReaches(b, f, 0, j);
      FilesetLoopReaches(b, 0, f, e);
    }
    if e in tr {
      var k :| 0 <= k < |tr| && tr[k] == e;
      FilesetLoopAttemptFrom(b, 0, k);
      FileLoopReachedAfterFailures(b, f, 0, j);
    }
  }

  /**
    `addFileset` order is upload order: adding a fileset leaves the run over
    the earlier filesets as it was and, if that run ended normally, appends
    the new fileset's inner loop and its shutdown.
   */
  lemma AddFilesetRunsLast(t: Task, fs: FileSet, upload: (nat, nat) -> UploadResult)
    requires CheckParameters(t).Ok?
    ensures var before := Execution(t, upload);
      var after := Execution(AddFileset(t, fs), upload);
      var added := FileLoop(BatchOf(AddFileset(t, fs), upload), |t.filesets|, 0);
      && (before.outcome.BuildError? ==> after == before)
      && (before.outcome.Ok? ==> after == Run(before.trace + added.trace + [Shutdown], added.outcome))
  {
    var b := BatchOf(t, upload);
    FilesetLoopAppend(b, fs, 0);
    assert BatchOf(AddFileset(t, fs), upload) == b.(filesets := b.filesets + [fs]);
  }

  /** `printStatusUpdates` and `statusUpdatePeriodInMs` have no effect on what `execute` does. */
  lemma StatusSettingsIgnored(t: Task, printStatusUpdates: bool, statusUpdatePeriodInMs: int32, upload: (nat, nat) -> UploadResult)
    ensures Execution(SetStatusUpdatePeriodInMs(SetPrintStatusUpdates(t, printStatusUpdates), statusUpdatePeriodInMs), upload)
         == Execution(t, upload)
  {
  }

  /** A task with two filesets, the first holding a file in a sub-directory, and `continueOnFail` set to "TRUE". */
  const ScenarioTask: Task := SetContinueOnFail(
    SetKeyPrefix(SetBucketName(
      AddFileset(AddFileset(Initial, FileSet("/w/site", ["a.txt", "css/b.css"])), FileSet("/w/docs", ["c.txt"])),
      NonNull("bucket")), NonNull("builds/")),
    NonNull("TRUE"))

  /** The `toString()` of the exception every failing upload in the scenarios throws. */
  const DeniedCause: string := "com.amazonaws.AmazonClientException: denied"

  /** Every upload of the first fileset fails; every other upload completes. */
  function ScenarioUpload(i: nat, j: nat): UploadResult {
    if i == 0 then Failed(DeniedCause) else Completed
  }

  /** The scenario's fields, its keys and its file names, spelled out. */
  lemma ScenarioSetup()
    ensures ScenarioTask == Task([FileSet("/w/site", ["a.txt", "css/b.css"]), FileSet("/w/docs", ["c.txt"])],
                                 NonNull("bucket"), NonNull("builds/"), false, true, 500)
    ensures FileName("/w/site") == "site" && FileName("/w/docs") == "docs"
    ensures FileName("a.txt") == "a.txt" && FileName("css/b.css") == "b.css"
  {
    assert "TRUE" in TrueSpellings;
    assert "/w/site" == "/w" + [Separator] + "site";
    assert "/w/docs" == "/w" + [Separator] + "docs";
    assert "css/b.css" == "css" + [Separator] + "b.css";
    FileNameOfChild("/w", "site");
    FileNameOfChild("/w", "docs");
    FileNameOfChild("css", "b.css");
    FileNameOfChild("", "a.txt");
  }

  /**
    In the scenario the first directory is uploaded once per included file,
    each failure reported by its file's last name, then the second directory
    is uploaded, and the task ends normally.
   */
  lemma ContinueScenario()
    ensures Execution(ScenarioTask, ScenarioUpload) == Run([
        Attempt(0, 0, "bucket", "builds/site", "/w/site"), Reported("a.txt"),
        Attempt(0, 1, "bucket", "builds/site", "/w/site"), Reported("b.css"),
        Shutdown,
        Attempt(1, 0, "bucket", "builds/docs", "/w/docs"),
        Shutdown], Ok)
  {
    ScenarioSetup();
    var b := BatchOf(ScenarioTask, ScenarioUpload);
    assert AttemptAt(b, 0, 0) == Attempt(0, 0, "bucket", "builds/site", "/w/site");
    assert AttemptAt(b, 0, 1) == Attempt(0, 1, "bucket", "builds/site", "/w/site");
    assert AttemptAt(b, 1, 0) == Attempt(1, 0, "bucket", "builds/docs", "/w/docs");
    assert FileLoop(b, 0, 2) == Run([], Ok);
    assert FileLoop(b, 0, 1).trace == [AttemptAt(b, 0, 1), Reported("b.css")];
    assert FileLoop(b, 0, 0).trace == [AttemptAt(b, 0, 0), Reported("a.txt"), AttemptAt(b, 0, 1), Reported("b.css")];
    assert FileLoop(b, 1, 0) == Run([AttemptAt(b, 1, 0)], Ok);
    assert FilesetLoop(b, 2) == Run([], Ok);
    assert FilesetLoop(b, 1) == Run([AttemptAt(b, 1, 0), Shutdown], Ok);
  }

  /**
    The same scenario with `continueOnFail` set to "yes", which reads as
    false: the first upload fails, the first fileset is shut down, the
    exception names its first file and the cause, and the second fileset is
    never reached.
   */
  lemma FailFastScenario()
    ensures Execution(SetContinueOnFail(ScenarioTask, NonNull("yes")), ScenarioUpload) == Run([
        Attempt(0, 0, "bucket", "builds/site", "/w/site"),
        Shutdown],
        BuildError("Error. The file that failed to upload was: a.txt: " + DeniedCause))
  {
    assert "yes" !in TrueSpellings;
    var t := SetContinueOnFail(ScenarioTask, NonNull("yes"));
    assert t == Task([FileSet("/w/site", ["a.txt", "css/b.css"]), FileSet("/w/docs", ["c.txt"])],
                     NonNull("bucket"), NonNull("builds/"), false, false, 500);
    assert "/w/site" == "/w" + [Separator] + "site";
    FileNameOfChild("/w", "site");
    FileNameOfChild("", "a.txt");
    var b := BatchOf(t, ScenarioUpload);
    assert AttemptAt(b, 0, 0) == Attempt(0, 0, "bucket", "builds/site", "/w/site");
    assert FileLoop(b, 0, 0) == Run([AttemptAt(b, 0, 0)], BuildError(FailureMessage("a.txt", DeniedCause)));
    assert FailurePrefix + "a.txt" == "Error. The file that failed to upload was: a.txt";
    assert FailurePrefix + "a.txt" + ": " == "Error. The file that failed to upload was: a.txt: ";
  }
}
