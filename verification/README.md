# S3 fileset upload task, modelled in Dafny

This project models the live logic of the Ant task `UploadFileSetToS3Task`.
The task uploads one or more Ant filesets to an S3 bucket through the AWS
SDK's `TransferManager`. Four parts are modelled:

- **Configuration.** The attribute setters are pure functions on an immutable
  `Task` record (`UploadTask`). `setKeyPrefix` maps null to `""`.
  `setContinueOnFail` reads its string with Java's `new Boolean(String)`.
- **Parameter check.** `checkParameters` collects one error line per missing
  parameter and then throws them together.
- **Key derivation.** `execute` computes `keyPrefix + base.getName()` and
  `keyPrefix + file.getName()`. `java.io.File.getName()` is modelled in
  `JavaLang`.
- **The upload loop of `execute`.** It walks the filesets in the order they
  were added, and inside each fileset the included files in scanner order.
  At every included file it uploads the whole base directory. A completed
  upload `break`s out of the fileset. A failed upload either throws a
  `BuildException` naming the file, or, with `continueOnFail`, reports the
  file and moves on to the next included file. That next file uploads the
  same directory again. `shutdownNow(false)` runs in a `finally` after every
  fileset.

The SDK upload is an oracle `upload(i, j)`: the result of the upload made at
included file `j` of fileset `i`. The directory scanner's result is an input:
each `FileSet` is a base-directory path plus its included relative paths.
`Execution` (in `UploadExecution`) is a pure function from a task and an oracle
to a `Run`. A `Run` is a trace of events plus an outcome. The events are
`Attempt` (one `uploadDirectory` call), `Reported` (the "failed to upload.
Continuing..." line) and `Shutdown`. The outcome is `Ok` or `BuildError(message)`.
`UploadFileset` and `Execute` restate `execute`'s two nested `for` loops as
`while` loops, with `break` and the `finally`. They are proved to produce
exactly `Execution`'s run. `UploadProperties` holds the properties.

Modules: `JavaLang` (java_lang.dfy), `UploadTask` (upload_task.dfy),
`UploadExecution` (upload_execution.dfy), `UploadProperties`
(upload_properties.dfy).

Four behaviours of the code are worth knowing before reading the lemmas:

- With `continueOnFail` true, `execute` returns normally however many uploads
  failed (`ContinueOnFailNeverThrows`).
- With `continueOnFail` true, the whole base directory is uploaded again at
  each included file until one upload completes, and every non-empty fileset
  is uploaded whatever failed before it (`ContinueOnFailReachesEveryFileset`).
  Without it, the first failure throws (`FailFast`).
- The transfer manager is shut down after every fileset
  (`ShutdownOncePerFileset`).
- The per-file key is computed but never passed to any upload
  (`FileNamesNeverReachUploads`).

## Model

| member | source | states |
|---|---|---|
| JavaLang.ParseBoolean | src/main/java/com/amazonaws/ant/s3/UploadFileSetToS3Task.java:101-103 | `new Boolean(s)` is true exactly when `s` is non-null and is one of the sixteen upper/lower-case spellings of "true"; null and every other string give false |
| JavaLang.EqualsTrueIgnoringCase | src/main/java/com/amazonaws/ant/s3/UploadFileSetToS3Task.java:102 | the character-wise case-insensitive comparison with "true" accepts exactly the sixteen spellings of "true" |
| JavaLang.FileNameIsLastName | src/main/java/com/amazonaws/ant/s3/UploadFileSetToS3Task.java:256-260 | `getName()` returns a separator-free tail of the path; when that tail is not the whole path, a separator comes right before it |
| JavaLang.FileNameOfChild | src/main/java/com/amazonaws/ant/s3/UploadFileSetToS3Task.java:256-258 | for `new File(dir, name)` with a plain, non-empty `name`, `getName()` gives `name` back; such a name is its own name |
| UploadTask.SetKeyPrefix | src/main/java/com/amazonaws/ant/s3/UploadFileSetToS3Task.java:85-90 | after `setKeyPrefix` the stored prefix is non-null: `""` for a null argument, the argument itself otherwise; no other field changes |
| UploadTask.SetContinueOnFail | src/main/java/com/amazonaws/ant/s3/UploadFileSetToS3Task.java:101-103 | the flag becomes true exactly for a non-null case-insensitive "true"; no other field changes |
| UploadTask.CheckParameters | src/main/java/com/amazonaws/ant/s3/UploadFileSetToS3Task.java:134-148 | the check throws exactly when the bucket name is null or no fileset was added, and then with a non-empty message; otherwise it has no effect |
| UploadTask.KeysAreSingleNames | src/main/java/com/amazonaws/ant/s3/UploadFileSetToS3Task.java:258-260 | both keys are the prefix followed by one separator-free name that is the path's tail after its last separator (or the whole path when it has none): the base directory's for the key base, the included file's for the per-file key; by `FileNameUnique` these facts fix each key |
| UploadTask.FileKeyOfNestedFile | src/main/java/com/amazonaws/ant/s3/UploadFileSetToS3Task.java:258 | the per-file key drops the sub-directories: a file `d/…/name` gets key `prefix + name` |
| UploadExecution.Execution | src/main/java/com/amazonaws/ant/s3/UploadFileSetToS3Task.java:154-155 | `execute` makes no upload and no shutdown exactly when `checkParameters` throws, and then ends with that exception, so the check runs before any transfer |
| UploadExecution.UploadFileset | src/main/java/com/amazonaws/ant/s3/UploadFileSetToS3Task.java:254-352 | the inner `for` loop with `break` and the try/catch produces exactly one fileset's part of the reference run |
| UploadExecution.Execute | src/main/java/com/amazonaws/ant/s3/UploadFileSetToS3Task.java:154-357 | `execute`'s outer loop with its per-fileset `finally` produces exactly the reference run `Execution` |
| UploadProperties.CheckParametersMessages | src/main/java/com/amazonaws/ant/s3/UploadFileSetToS3Task.java:134-148 | with both parameters missing the message is the bucket line followed by the fileset line, each ending in " \n"; with one missing it is that line alone |
| UploadProperties.PrefixNeverNull | src/main/java/com/amazonaws/ant/s3/UploadFileSetToS3Task.java:206-208 | the prefix used in keys is never null: the `setKeyPrefix` argument, or `""` when that was null or the setter never ran |
| UploadProperties.AttemptsUploadWholeBaseDirectory | src/main/java/com/amazonaws/ant/s3/UploadFileSetToS3Task.java:255-306 | every upload goes to the task's bucket, uses key base `prefix + base.getName()`, and sends the whole base directory of its fileset; it is made at one of that fileset's included files |
| UploadProperties.EmptyFilesetNotUploaded | src/main/java/com/amazonaws/ant/s3/UploadFileSetToS3Task.java:250-255 | a fileset with no included files is never uploaded |
| UploadProperties.FileNamesNeverReachUploads | src/main/java/com/amazonaws/ant/s3/UploadFileSetToS3Task.java:258-306 | the per-file key is never used: filesets that differ only in their files' names lead to the same uploads and shutdowns, and to the same kind of end |
| UploadProperties.AfterEachAttempt | src/main/java/com/amazonaws/ant/s3/UploadFileSetToS3Task.java:306-351 | after a completed upload comes the fileset's shutdown. After a failed one with `continueOnFail`, the file is reported, then the same directory is uploaded for the next included file, or the shutdown follows the last file. After a failed one without it, only the shutdown follows, and the exception names the file and the cause |
| UploadProperties.ReportsNameFailedFiles | src/main/java/com/amazonaws/ant/s3/UploadFileSetToS3Task.java:347-349 | every report follows a failed upload, happens only with `continueOnFail`, and names that upload's file |
| UploadProperties.ShutdownOncePerFileset | src/main/java/com/amazonaws/ant/s3/UploadFileSetToS3Task.java:250-355 | each upload of fileset `f` has exactly `f` shutdowns before it. A normal end has one shutdown per fileset. An exception follows the failing fileset's own shutdown, after one shutdown per fileset entered |
| UploadProperties.FilesetsInInsertionOrder | src/main/java/com/amazonaws/ant/s3/UploadFileSetToS3Task.java:250 | an upload of an earlier fileset never comes after an upload of a later one |
| UploadProperties.AtMostOneCompletedPerFileset | src/main/java/com/amazonaws/ant/s3/UploadFileSetToS3Task.java:336-341 | within one fileset, every upload followed by another upload of the same fileset failed, so at most one upload per fileset completes, and only its last |
| UploadProperties.FailFast | src/main/java/com/amazonaws/ant/s3/UploadFileSetToS3Task.java:250-346 | without `continueOnFail`, the task ends normally exactly when the first included file's upload completes in every non-empty fileset; no upload is made past a fileset's first included file; a non-empty fileset is uploaded, at its first included file, if and only if the first upload of every earlier non-empty fileset completed |
| UploadProperties.ContinueOnFailNeverThrows | src/main/java/com/amazonaws/ant/s3/UploadFileSetToS3Task.java:347-350 | with `continueOnFail`, a task that passed the check always ends normally, shuts down once per fileset, and uploads every non-empty fileset |
| UploadProperties.ContinueOnFailReachesEveryFileset | src/main/java/com/amazonaws/ant/s3/UploadFileSetToS3Task.java:250-350 | with `continueOnFail`, whatever happened in earlier filesets, fileset `f`'s directory is uploaded at included file `j` if and only if the uploads at all of `f`'s earlier included files failed |
| UploadProperties.AddFilesetRunsLast | src/main/java/com/amazonaws/ant/s3/UploadFileSetToS3Task.java:61-63 | adding a fileset leaves the run over the earlier filesets unchanged. If that run ended normally, the new fileset's loop and its shutdown are appended |
| UploadProperties.StatusSettingsIgnored | src/main/java/com/amazonaws/ant/s3/UploadFileSetToS3Task.java:114-129 | `printStatusUpdates` and `statusUpdatePeriodInMs` have no effect on the run |
| UploadProperties.ContinueScenario | src/main/java/com/amazonaws/ant/s3/UploadFileSetToS3Task.java:250-355 | with two filesets, all uploads of the first failing and "TRUE" for `continueOnFail`: two uploads of the first directory, each followed by a report of its file's last name, then a shutdown; one upload of the second directory, a shutdown, and a normal end |
| UploadProperties.FailFastScenario | src/main/java/com/amazonaws/ant/s3/UploadFileSetToS3Task.java:342-355 | the same task with "yes" for `continueOnFail`: one failed upload and one shutdown, then the exception "Error. The file that failed to upload was: a.txt: " followed by the failing exception's `toString()`; the second fileset is never reached |

## Left out

- `src/main/java/com/amazonaws/ant/opsworks/CreateAppTask.java` is commented out from top to bottom, so it has no live behaviour to model.
- Credentials, building the S3 client and choosing a `TransferManager` constructor (lines 167-198) are network-client plumbing and are not modelled. A failure there is not modelled either.
- The ACL provider (lines 211-216) always answers public-read. `Attempt` does not carry it, because it never varies.
- The progress listener and the `XferMgrProgress` helper (lines 307-311, 336-338) are callbacks on SDK threads and a class that is not part of this model. An exception they throw inside the `try` counts as a failed upload, so the oracle covers it.
- The "Upload succesful" line on standard output is console output and is not recorded in the trace.
- Ant's `DirectoryScanner` (lines 251-252) is a library. Its glob matching, file ordering and errors are not modelled. The included files and the base directory are inputs.
- What the SDK does when asked to upload through a `TransferManager` that has already been shut down is not modelled. On the second and later filesets that question stays with the oracle.
- The text of the exception that caused a failure (`e` in the message, that is `e.toString()`: its class name, then ": " and its message when it has one) is an input, the oracle's `cause`.
- `printStatusUpdates` and `statusUpdatePeriodInMs` are stored but never read by live code. The model stores them too, and `StatusSettingsIgnored` shows they change nothing.
- The commented-out lines (158-164, 170, 173-183, 186-193, 200-204, 226-243, 270-304 and 312-335) are not behaviour.
- JavaLang.FileName: `java.io.File` path normalisation is not modelled. Doubled or trailing separators are left as they are. Only '/' is treated as the separator, as on Unix.
- JavaLang.ParseBoolean: case folding is modelled for ASCII letters only. Java's full Unicode `toUpperCase`/`toLowerCase` tables are not modelled.
