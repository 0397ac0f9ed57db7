/** The worker of src/upload.worker.ts: it uploads its batch in order, retries
    each file, and reports one message per file and one `COMPLETE` at the end.
    The uploader is an oracle `uploads(i, a)`: whether attempt `a` on the
    batch's file `i` succeeds. */
module UploadWorker {
  import opened Wrappers
  import opened Types

  /** The effective retry limit: `retryTimes` when it is an integer above
      zero, otherwise 0 (src/upload.worker.ts:35). */
  function MaxRetry(retryTimes: Option<JsNumber>): (r: nat)
    ensures r > 0 <==> retryTimes.Some? && retryTimes.value.Integer? && retryTimes.value.value > 0
    ensures r > 0 ==> r == retryTimes.value.value
  {
    match retryTimes
    case Some(Integer(k)) => if k > 0 then k else 0
    case _ => 0
  }

  /** What the worker does, in order, besides sending messages. */
  datatype LogEntry =
    | Attempt(file: nat, attempt: nat, uploaded: bool)  // one call of `uploader.uploadFile`
    | Delay(file: nat)                                   // the 100 ms pause before a retry
    | Remove(file: nat)                                  // `fs.rmSync` of the local file

  /** The uploader as seen from a worker: `createUploader` either threw or
      returned an uploader whose outcomes are given by the oracle. */
  datatype Uploader =
    | Unavailable(reason: string)
    | Available(uploads: (nat, nat) -> bool)

  /** All `maxRetry + 1` attempts on file `i` fail. */
  predicate Exhausted(i: nat, maxRetry: nat, uploads: (nat, nat) -> bool)
  {
    forall a :: 0 <= a <= maxRetry ==> !uploads(i, a)
  }

  /** The log of file `i` from attempt `k` on: attempt; on success the optional
      removal and stop; on failure either the last attempt or a delay and the
      next attempt. */
  function FileLog(i: nat, k: nat, maxRetry: nat, uploads: (nat, nat) -> bool, remove: bool): seq<LogEntry>
    requires k <= maxRetry
    decreases maxRetry - k
  {
    if uploads(i, k) then [Attempt(i, k, true)] + (if remove then [Remove(i)] else [])
    else if k == maxRetry then [Attempt(i, k, false)]
    else [Attempt(i, k, false), Delay(i)] + FileLog(i, k + 1, maxRetry, uploads, remove)
  }

  /** The log of the first `n` files of the batch, in batch order. */
  function WorkerLog(n: nat, maxRetry: nat, uploads: (nat, nat) -> bool, remove: bool): seq<LogEntry>
  {
    if n == 0 then [] else WorkerLog(n - 1, maxRetry, uploads, remove) + FileLog(n - 1, 0, maxRetry, uploads, remove)
  }

  /** The files whose attempts were all exhausted, in batch order (the
      worker's `failFiles`). */
  function FailedFiles(files: seq<OSSFile>, maxRetry: nat, uploads: (nat, nat) -> bool): (failed: seq<OSSFile>)
    ensures |failed| <= |files|
    ensures forall f :: f in failed ==> f in files
  {
    if |files| == 0 then []
    else
      var i := |files| - 1;
      FailedFiles(files[..i], maxRetry, uploads) + (if Exhausted(i, maxRetry, uploads) then [files[i]] else [])
  }

  /** The message sent after file `i`: `ERROR` when its last attempt failed. */
  function FileMessage(workerId: int, files: seq<OSSFile>, i: nat, failed: bool): WorkerMessage
    requires i < |files|
  {
    WorkerMessage(if failed then ERROR else PROGRESS, Some(workerId), None,
                  Some(WorkerProgress(|files|, i + 1, files[i])), None)
  }

  function CompleteMessage(workerId: int, total: int, succeeded: int): WorkerMessage
  {
    WorkerMessage(COMPLETE, Some(workerId), None, None, Some(TaskResult(total, succeeded)))
  }

  /** Everything a worker that could create its uploader sends, in order. */
  function WorkerMessages(workerId: int, files: seq<OSSFile>, maxRetry: nat, uploads: (nat, nat) -> bool): seq<WorkerMessage>
  {
    seq(|files|, i requires 0 <= i < |files| => FileMessage(workerId, files, i, Exhausted(i, maxRetry, uploads)))
    + [CompleteMessage(workerId, |files|, |files| - |FailedFiles(files, maxRetry, uploads)|)]
  }

  /** The retry loop for one file (src/upload.worker.ts:36-70): attempt until
      the first success or until `maxRetry + 1` attempts have failed, pushing
      the file onto `failFiles` after the last failed attempt. */
  method UploadOne(i: nat, file: OSSFile, maxRetry: nat, uploads: (nat, nat) -> bool, remove: bool,
                   failFiles: seq<OSSFile>)
    returns (fileLog: seq<LogEntry>, uploadError: bool, failFiles': seq<OSSFile>)
    ensures fileLog == FileLog(i, 0, maxRetry, uploads, remove)
    ensures uploadError <==> Exhausted(i, maxRetry, uploads)
    ensures failFiles' == failFiles + (if uploadError then [file] else [])
  {
    var attempt := 0;
    uploadError := false;
    fileLog := [];
    failFiles' := failFiles;
    while attempt <= maxRetry
      invariant attempt <= maxRetry + 1
      invariant uploadError <==> attempt > 0
      invariant forall a :: 0 <= a < attempt ==> !uploads(i, a)
      invariant attempt <= maxRetry ==>
        fileLog + FileLog(i, attempt, maxRetry, uploads, remove) == FileLog(i, 0, maxRetry, uploads, remove)
      invariant attempt > maxRetry ==> fileLog == FileLog(i, 0, maxRetry, uploads, remove)
      invariant failFiles' == failFiles + (if attempt > maxRetry then [file] else [])
      decreases maxRetry + 1 - attempt
    {
      if uploads(i, attempt) {
        fileLog := fileLog + [Attempt(i, attempt, true)];
        if remove {
          fileLog := fileLog + [Remove(i)];
        }
        uploadError := false;
        break;
      }
      fileLog := fileLog + [Attempt(i, attempt, false)];
      uploadError := true;
      if attempt == maxRetry {
        failFiles' := failFiles' + [file];
      } else {
        fileLog := fileLog + [Delay(i)];
      }
      attempt := attempt + 1;
    }
  }

  /** `UploadWorker.start` (src/upload.worker.ts:24-91) once the uploader
      exists: the per-file loop, with the retry loop of each file. */
  method Start(workerId: int, files: seq<OSSFile>, options: UploadOptions, uploads: (nat, nat) -> bool)
    returns (messages: seq<WorkerMessage>, log: seq<LogEntry>, failFiles: seq<OSSFile>)
    ensures messages == WorkerMessages(workerId, files, MaxRetry(options.retryTimes), uploads)
    ensures log == WorkerLog(|files|, MaxRetry(options.retryTimes), uploads, options.removeWhenUploaded)
    ensures failFiles == FailedFiles(files, MaxRetry(options.retryTimes), uploads)
  {
    var remove := options.removeWhenUploaded;
    var maxRetry := MaxRetry(options.retryTimes);
    failFiles, messages, log := [], [], [];
    for i := 0 to |files|
      invariant |messages| == i
      invariant forall k :: 0 <= k < i ==> messages[k] == FileMessage(workerId, files, k, Exhausted(k, maxRetry, uploads))
      invariant failFiles == FailedFiles(files[..i], maxRetry, uploads)
      invariant log == WorkerLog(i, maxRetry, uploads, remove)
    {
      var file := files[i];
      var fileLog, uploadError;
      FailedFilesStep(files, i, maxRetry, uploads);
      fileLog, uploadError, failFiles := UploadOne(i, file, maxRetry, uploads, remove, failFiles);
      log := log + fileLog;
      messages := messages + [WorkerMessage(if uploadError then ERROR else PROGRESS, Some(workerId), None,
                                            Some(WorkerProgress(|files|, i + 1, file)), None)];
    }
    assert files[..|files|] == files;
    MessagesOfLoop(workerId, files, maxRetry, uploads, messages);
    messages := messages + [WorkerMessage(COMPLETE, Some(workerId), None, None,
                                          Some(TaskResult(|files|, |files| - |failFiles|)))];
  }

  /** `FailedFiles` grows by file `i` exactly when that file is exhausted. */
  lemma FailedFilesStep(files: seq<OSSFile>, i: nat, maxRetry: nat, uploads: (nat, nat) -> bool)
    requires i < |files|
    ensures FailedFiles(files[..i + 1], maxRetry, uploads)
         == FailedFiles(files[..i], maxRetry, uploads) + (if Exhausted(i, maxRetry, uploads) then [files[i]] else [])
  {
    assert files[..i + 1][..i] == files[..i];
  }

  /** The per-file messages followed by the final `COMPLETE` are `WorkerMessages`. */
  lemma MessagesOfLoop(workerId: int, files: seq<OSSFile>, maxRetry: nat, uploads: (nat, nat) -> bool,
                       messages: seq<WorkerMessage>)
    requires |messages| == |files|
    requires forall k :: 0 <= k < |files| ==> messages[k] == FileMessage(workerId, files, k, Exhausted(k, maxRetry, uploads))
    ensures messages + [CompleteMessage(workerId, |files|, |files| - |FailedFiles(files, maxRetry, uploads)|)]
         == WorkerMessages(workerId, files, maxRetry, uploads)
  {
  }

  /** The worker script's entry (src/upload.worker.ts:100-109): run `start`;
      if it throws (here: `createUploader` rejected the provider), send one
      `ERROR` and exit with code 1. A finished batch ends the thread with code 0. */
  method RunWorker(workerId: int, files: seq<OSSFile>, options: UploadOptions, uploader: Uploader)
    returns (messages: seq<WorkerMessage>, log: seq<LogEntry>, exitCode: int)
    ensures uploader.Unavailable? ==>
      && messages == [WorkerMessage(ERROR, Some(workerId), Some(uploader.reason), None, None)]
      && log == [] && exitCode == 1
    ensures uploader.Available? ==>
      && messages == WorkerMessages(workerId, files, MaxRetry(options.retryTimes), uploader.uploads)
      && log == WorkerLog(|files|, MaxRetry(options.retryTimes), uploader.uploads, options.removeWhenUploaded)
      && exitCode == 0
    ensures exitCode != 0 <==> forall k :: 0 <= k < |messages| ==> messages[k].kind != COMPLETE
  {
    match uploader
    case Unavailable(reason) =>
      messages := [WorkerMessage(ERROR, Some(workerId), Some(reason), None, None)];
      log := [];
      exitCode := 1;
    case Available(uploads) =>
      var failFiles;
      messages, log, failFiles := Start(workerId, files, options, uploads);
      exitCode := 0;
      assert messages[|files|].kind == COMPLETE;
  }

  // ---------------------------------------------------------------------
  // Properties of one file's attempts

  /** How many attempts file `i` gets when attempt `k` is the next one: they
      stop at the first success, and there are at most `maxRetry + 1` in all. */
  function AttemptsMade(i: nat, k: nat, maxRetry: nat, uploads: (nat, nat) -> bool): (n: nat)
    requires k <= maxRetry
    ensures k < n <= maxRetry + 1
    ensures forall a :: k <= a < n - 1 ==> !uploads(i, a)
    ensures uploads(i, n - 1) || n == maxRetry + 1
    decreases maxRetry - k
  {
    if uploads(i, k) || k == maxRetry then k + 1 else AttemptsMade(i, k + 1, maxRetry, uploads)
  }

  /** Failed attempts `k .. c-1` of file `i`, each followed by a delay. */
  function FailedTries(i: nat, k: nat, c: nat): seq<LogEntry>
    decreases c - k
  {
    if k >= c then [] else [Attempt(i, k, false), Delay(i)] + FailedTries(i, k + 1, c)
  }

  /** A file's log is: its failed attempts, each followed by a delay; then the
      last attempt; then, only if that attempt succeeded and removal is
      configured, the removal of the local file. */
  lemma {:induction false} FileLogShape(i: nat, k: nat, maxRetry: nat, uploads: (nat, nat) -> bool, remove: bool)
    requires k <= maxRetry
    ensures FileLog(i, k, maxRetry, uploads, remove)
         == FailedTries(i, k, AttemptsMade(i, k, maxRetry, uploads) - 1) + LastTry(i, AttemptsMade(i, k, maxRetry, uploads) - 1, uploads, remove)
    decreases maxRetry - k
  {
    if !uploads(i, k) && k < maxRetry {
      FileLogShape(i, k + 1, maxRetry, uploads, remove);
      var n := AttemptsMade(i, k + 1, maxRetry, uploads);
      assert AttemptsMade(i, k, maxRetry, uploads) == n;
      var tail := LastTry(i, n - 1, uploads, remove);
      calc {
        FileLog(i, k, maxRetry, uploads, remove);
        [Attempt(i, k, false), Delay(i)] + (FailedTries(i, k + 1, n - 1) + tail);
        ([Attempt(i, k, false), Delay(i)] + FailedTries(i, k + 1, n - 1)) + tail;
        FailedTries(i, k, n - 1) + tail;
      }
    }
  }

  /** The last attempt on file `i`, then the removal of the local file if that
      attempt succeeded and removal is configured. */
  function LastTry(i: nat, a: nat, uploads: (nat, nat) -> bool, remove: bool): seq<LogEntry>
  {
    [Attempt(i, a, uploads(i, a))] + (if uploads(i, a) && remove then [Remove(i)] else [])
  }

  /** A file counts as failed exactly when its last attempt failed. */
  lemma ExhaustedIffLastAttemptFails(i: nat, maxRetry: nat, uploads: (nat, nat) -> bool)
    ensures Exhausted(i, maxRetry, uploads) <==> !uploads(i, AttemptsMade(i, 0, maxRetry, uploads) - 1)
    ensures Exhausted(i, maxRetry, uploads) ==> AttemptsMade(i, 0, maxRetry, uploads) == maxRetry + 1
  {
    var n := AttemptsMade(i, 0, maxRetry, uploads);
    if !uploads(i, n - 1) {
      assert forall a :: 0 <= a <= maxRetry ==> !uploads(i, a) by {
        forall a | 0 <= a <= maxRetry ensures !uploads(i, a) {
          if a < n - 1 {} else { assert a == n - 1; }
        }
      }
    }
  }

  /** A delay only ever separates a failed attempt from the next attempt on
      the same file: never after a success, never after the last attempt. */
  lemma {:induction false} DelayBetweenAttempts(i: nat, k: nat, maxRetry: nat, uploads: (nat, nat) -> bool, remove: bool, p: nat)
    requires k <= maxRetry
    requires p < |FileLog(i, k, maxRetry, uploads, remove)| && FileLog(i, k, maxRetry, uploads, remove)[p].Delay?
    ensures var log := FileLog(i, k, maxRetry, uploads, remove);
      && 0 < p < |log| - 1
      && log[p - 1].Attempt? && !log[p - 1].uploaded && log[p - 1].file == i
      && log[p + 1].Attempt? && log[p + 1].attempt == log[p - 1].attempt + 1 && log[p + 1].file == i
    decreases maxRetry - k
  {
    var log := FileLog(i, k, maxRetry, uploads, remove);
    var rest := FileLog(i, k + 1, maxRetry, uploads, remove);
    assert !uploads(i, k) && k < maxRetry;
    assert log == [Attempt(i, k, false), Delay(i)] + rest;
    if p == 1 {
      assert rest[0] == Attempt(i, k + 1, uploads(i, k + 1));
    } else {
      DelayBetweenAttempts(i, k + 1, maxRetry, uploads, remove, p - 2);
      assert log[p - 1] == rest[p - 3] && log[p + 1] == rest[p - 1];
    }
  }

  // ---------------------------------------------------------------------
  // Properties of the whole batch

  /** The number of `ERROR` messages in a sequence. */
  function ErrorCount(messages: seq<WorkerMessage>): nat
  {
    if |messages| == 0 then 0
    else ErrorCount(messages[..|messages| - 1]) + (if messages[|messages| - 1].kind == ERROR then 1 else 0)
  }

  lemma {:induction false} FailedFilesCountErrors(workerId: int, files: seq<OSSFile>, maxRetry: nat, uploads: (nat, nat) -> bool, k: nat)
    requires k <= |files|
    ensures |FailedFiles(files[..k], maxRetry, uploads)| == ErrorCount(WorkerMessages(workerId, files, maxRetry, uploads)[..k])
  {
    if k > 0 {
      FailedFilesCountErrors(workerId, files, maxRetry, uploads, k - 1);
      var messages := WorkerMessages(workerId, files, maxRetry, uploads);
      assert messages[..k][..k - 1] == messages[..k - 1];
      assert files[..k][..k - 1] == files[..k - 1];
    }
  }

  /** The message protocol of one worker: exactly one message per file, in
      batch order, with `current = i + 1` and `total` the batch length, of type
      `ERROR` exactly when the file exhausted its attempts; then exactly one
      `COMPLETE` whose `succeeded` is the batch length minus the failed files,
      so between 0 and `total`, and equal to the number of non-`ERROR` messages. */
  lemma WorkerProtocol(workerId: int, files: seq<OSSFile>, maxRetry: nat, uploads: (nat, nat) -> bool)
    ensures var messages := WorkerMessages(workerId, files, maxRetry, uploads);
      && |messages| == |files| + 1
      && (forall i :: 0 <= i < |files| ==>
            && messages[i].kind != COMPLETE
            && messages[i].workerId == Some(workerId)
            && messages[i].progress == Some(WorkerProgress(|files|, i + 1, files[i]))
            && (messages[i].kind == ERROR <==> Exhausted(i, maxRetry, uploads)))
      && messages[|files|].kind == COMPLETE
      && messages[|files|].result == Some(TaskResult(|files|, |files| - ErrorCount(messages[..|files|])))
      && 0 <= |files| - ErrorCount(messages[..|files|]) <= |files|
  {
    FailedFilesCountErrors(workerId, files, maxRetry, uploads, |files|);
    assert files[..|files|] == files;
  }

  /** With an uploader that always fails, every file is attempted
      `maxRetry + 1` times and the batch reports no success. */
  lemma AlwaysFailingUploader(workerId: int, files: seq<OSSFile>, maxRetry: nat, remove: bool)
    ensures var never := (i: nat, a: nat) => false;
      && WorkerMessages(workerId, files, maxRetry, never)[|files|].result == Some(TaskResult(|files|, 0))
      && forall i: nat :: FileLog(i, 0, maxRetry, never, remove)
           == FailedTries(i, 0, maxRetry) + [Attempt(i, maxRetry, false)]
  {
    var never := (i: nat, a: nat) => false;
    AllFail(files, maxRetry, never);
    forall i: nat ensures FileLog(i, 0, maxRetry, never, remove) == FailedTries(i, 0, maxRetry) + [Attempt(i, maxRetry, false)] {
      FileLogShape(i, 0, maxRetry, never, remove);
    }
  }

  lemma {:induction false} AllFail(files: seq<OSSFile>, maxRetry: nat, uploads: (nat, nat) -> bool)
    requires forall i, a :: !uploads(i, a)
    ensures FailedFiles(files, maxRetry, uploads) == files
  {
    if |files| > 0 {
      AllFail(files[..|files| - 1], maxRetry, uploads);
      assert files[..|files| - 1] + [files[|files| - 1]] == files;
    }
  }

  // ---------------------------------------------------------------------
  // The message type as written, for rejections with a falsy reason

  /** How an upload promise settles; JavaScript lets a rejection carry a
      falsy reason (`undefined`, `null`, `0`, `''`). */
  datatype Settlement = Fulfilled | Rejected(truthyReason: bool)

  function Outcomes(settle: (nat, nat) -> Settlement): (uploads: (nat, nat) -> bool)
    ensures forall i, a :: uploads(i, a) <==> settle(i, a).Fulfilled?
  {
    (i: nat, a: nat) => settle(i, a).Fulfilled?
  }

  /** The type of the per-file message as src/upload.worker.ts:73 chooses it:
      from the truthiness of the last caught error, which is `undefined` after
      a success and the last rejection reason after exhaustion. */
  function FileMessageTypeAsWritten(i: nat, maxRetry: nat, settle: (nat, nat) -> Settlement): (kind: WorkerMessageType)
    ensures kind == ERROR ==> Exhausted(i, maxRetry, Outcomes(settle))
  {
    if Exhausted(i, maxRetry, Outcomes(settle)) && settle(i, maxRetry).truthyReason then ERROR else PROGRESS
  }

  /** A one-file batch whose only attempt is rejected with `undefined`: the
      file is pushed onto `failFiles` (so `COMPLETE` reports 0 successes) but
      the message sent for it is `PROGRESS`, so `abortOnFailure` never fires. */
  lemma FalsyRejectionReportedAsProgress(workerId: int, file: OSSFile)
    ensures var settle := (i: nat, a: nat) => Rejected(false);
      && FailedFiles([file], 0, Outcomes(settle)) == [file]
      && WorkerMessages(workerId, [file], 0, Outcomes(settle))[1].result == Some(TaskResult(1, 0))
      && FileMessageTypeAsWritten(0, 0, settle) == PROGRESS
  {
    var settle := (i: nat, a: nat) => Rejected(false);
    assert Exhausted(0, 0, Outcomes(settle));
    assert [file][..0] == [];
  }

  /** The two choices agree whenever every rejection reason is truthy. */
  lemma AsWrittenAgreesWithTruthyReasons(i: nat, maxRetry: nat, settle: (nat, nat) -> Settlement)
    requires forall a :: 0 <= a <= maxRetry && settle(i, a).Rejected? ==> settle(i, a).truthyReason
    ensures FileMessageTypeAsWritten(i, maxRetry, settle) == ERROR <==> Exhausted(i, maxRetry, Outcomes(settle))
  {
    if Exhausted(i, maxRetry, Outcomes(settle)) {
      assert !Outcomes(settle)(i, maxRetry);
    }
  }
}
