/**
  The configuration of the Ant task that uploads filesets to S3: the
  attribute setters Ant calls, the parameter check that opens `execute`,
  and the two object keys `execute` derives.
 */
module UploadTask {
  import opened JavaLang

  /**
    A fileset as its directory scanner resolves it: the path of the base
    directory and the included files, relative to that base, in the order
    the scanner lists them.
   */
  datatype FileSet = FileSet(basedir: string, includedFiles: seq<string>)

  /** The task's fields; a null `bucketName` or `keyPrefix` is `Null`. */
  datatype Task = Task(
    filesets: seq<FileSet>,
    bucketName: Nullable<string>,
    keyPrefix: Nullable<string>,
    printStatusUpdates: bool,
    continueOnFail: bool,
    statusUpdatePeriodInMs: int32)

  /** A freshly constructed task, with the field initialisers' values. */
  const Initial: Task := Task([], Null, Null, false, false, 500)

  /** How `execute` ends: normally, or by throwing a `BuildException` with a message. */
  datatype Outcome = Ok | BuildError(message: string)

  const MissingBucketLine: string := "Missing parameter: bucketName is required \n"
  const MissingFilesetLine: string := "Missing parameter: you must specify at least one fileset \n"

  /** `addFileset`: filesets are kept in the order they were added. */
  function AddFileset(t: Task, fs: FileSet): Task {
    t.(filesets := t.filesets + [fs])
  }

  /** `setBucketName`. */
  function SetBucketName(t: Task, bucketName: Nullable<string>): Task {
    t.(bucketName := bucketName)
  }

  /** `setKeyPrefix`: a null prefix is stored as the empty string. */
  function SetKeyPrefix(t: Task, keyPrefix: Nullable<string>): (r: Task)
    ensures r.keyPrefix.NonNull?
    ensures keyPrefix.NonNull? ==> r.keyPrefix == keyPrefix
    ensures keyPrefix.Null? ==> r.keyPrefix.value == ""
    ensures r.(keyPrefix := t.keyPrefix) == t
  {
    if keyPrefix == Null then t.(keyPrefix := NonNull("")) else t.(keyPrefix := keyPrefix)
  }

  /** `setContinueOnFail`: the string attribute is read with `new Boolean(String)`. */
  function SetContinueOnFail(t: Task, continueOnFail: Nullable<string>): (r: Task)
    ensures r.continueOnFail <==> continueOnFail.NonNull? && continueOnFail.value in TrueSpellings
    ensures r.(continueOnFail := t.continueOnFail) == t
  {
    t.(continueOnFail := ParseBoolean(continueOnFail))
  }

  /** `setPrintStatusUpdates`: stored, never read by `execute`. */
  function SetPrintStatusUpdates(t: Task, printStatusUpdates: bool): Task {
    t.(printStatusUpdates := printStatusUpdates)
  }

  /** `setStatusUpdatePeriodInMs`: stored, never read by `execute`. */
  function SetStatusUpdatePeriodInMs(t: Task, statusUpdatePeriodInMs: int32): Task {
    t.(statusUpdatePeriodInMs := statusUpdatePeriodInMs)
  }

  /**
    `checkParameters`: collects one line per missing parameter, the bucket
    line first, and throws them all at once; otherwise does nothing.
   */
  function CheckParameters(t: Task): (r: Outcome)
    ensures r.BuildError? <==> t.bucketName.Null? || |t.filesets| < 1
    ensures r.BuildError? ==> |r.message| > 0
  {
    var errors :=
      (if t.bucketName.Null? then MissingBucketLine else "")
      + (if |t.filesets| < 1 then MissingFilesetLine else "");
    var areMalformedParams := t.bucketName.Null? || |t.filesets| < 1;
    if areMalformedParams then BuildError(errors) else Ok
  }

  /** The prefix `execute` puts in keys: a prefix that was never set is read as "". */
  function EffectivePrefix(t: Task): string {
    t.keyPrefix.OrElse("")
  }

  /**
    The key base of a whole-directory upload, `keyPrefix + base.getName()`:
    the prefix followed by the last name of the base directory.
   */
  function KeyBase(prefix: string, fs: FileSet): string
  {
    prefix + FileName(fs.basedir)
  }

  /**
    The per-file key, `keyPrefix + file.getName()`: the prefix followed by
    the file's last name, dropping the directories between base and file.
   */
  function FileKey(prefix: string, includedFile: string): string
  {
    prefix + FileName(includedFile)
  }

  /**
    A key made of a prefix and a path's name: the prefix followed by the
    path's tail after its last separator.
   */
  predicate IsPrefixedName(key: string, prefix: string, path: string) {
    && prefix <= key
    && Separator !in key[|prefix|..]
    && |key| - |prefix| <= |path|
    && path[|path| - (|key| - |prefix|)..] == key[|prefix|..]
    && (|key| - |prefix| < |path| ==> path[|path| - (|key| - |prefix|) - 1] == Separator)
  }

  /** `prefix + getName()` is the prefix followed by the path's last name. */
  lemma PrefixedFileName(prefix: string, path: string)
    ensures IsPrefixedName(prefix + FileName(path), prefix, path)
  {
    FileNameIsLastName(path);
    assert (prefix + FileName(path))[|prefix|..] == FileName(path);
  }

  /**
    Both keys are the prefix followed by one plain name: the tail of the
    base directory or of the included file after its last separator (by
    `FileNameUnique`, these facts fix the key). A file's key keeps no trace
    of the sub-directories between the base and the file.
   */
  lemma KeysAreSingleNames(prefix: string, fs: FileSet, includedFile: string)
    ensures IsPrefixedName(KeyBase(prefix, fs), prefix, fs.basedir)
    ensures IsPrefixedName(FileKey(prefix, includedFile), prefix, includedFile)
  {
    PrefixedFileName(prefix, fs.basedir);
    PrefixedFileName(prefix, includedFile);
  }

  /** Removing the prefix from a file's key gives back the file's own name, whatever directories lie above it. */
  lemma FileKeyOfNestedFile(prefix: string, directories: string, name: string)
    requires Separator !in name && name != ""
    ensures FileKey(prefix, directories + [Separator] + name) == prefix + name
    ensures FileKey(prefix, name) == prefix + name
  {
    FileNameOfChild(directories, name);
  }
}
