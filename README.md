# ossx-cli upload engine, modelled in Dafny

ossx-cli uploads the files of a local directory to an object-storage
provider. Its `upload` command does four things:

1. It chooses a provider from the configuration. That is a single
   `provider`, or a `providers` list picked by the `OSSX_CI_PROVIDER_TAG`
   tag or by interactive prompts.
2. It checks the target directory, globs its files and maps each file to a
   remote path that always uses `/`.
3. It hands the files to an `UploadMaster`. The master splits them
   round-robin into one queue per worker and starts one worker thread per
   queue.
4. Each worker uploads its queue in order and retries each file up to
   `retryTimes` times. It sends one `PROGRESS` or `ERROR` message per file,
   then one `COMPLETE` message carrying its tally. The master keeps one
   "dead" flag and one result per worker. It can end the process on the
   first error when `abortOnFailure` is set. Once every worker has exited,
   it reports a summary: total, succeeded and failed.

The model is split into these modules:

- `Types` holds the records the source shares between its files: the file
  record, the options, the worker messages and the task result.
- `Partition` holds the round-robin split and its properties.
- `Coordinator` states the master's bookkeeping on values, as one `Step`
  per event a worker can raise (`message`, `error`, `exit`). It proves
  properties of every sequence of events, so of every interleaving of the
  workers' streams.
- `Master` holds the class `UploadMaster`. Its fields are the ones the
  source mutates, and each of its methods is proved to leave the object
  in the state the `Coordinator` functions give.
- `UploadWorker` holds the worker. Its nested per-file and retry loops are
  proved against the functions `WorkerMessages`, `WorkerLog` and
  `FailedFiles`. The uploader is an oracle `uploads(i, a)`: does attempt
  `a` on file `i` succeed?
- `Pipeline` joins the two sides. When every worker sends what
  `UploadWorker` says it sends, the summary counts as failed exactly the
  files that exhausted their attempts.
- `Upload` covers what `upload()` does before any worker exists. The file
  system, the glob, the MIME lookup, `path`, the environment variable and
  the prompts are inputs: a `Host` value, a `ciTag` and a `choice`.

## Model

| member | source | states |
|---|---|---|
| Master.WorkerCount | src/upload.ts:164-166 | The worker count is the positive `maxWorkers` option, else the CPU count, capped by the number of files. It is at most both and equal to one of them, and it is positive when there is a file and a CPU. |
| Partition.RoundRobinPlacement | src/upload.ts:187-190 | File `i` is entry `i / W` of queue `i mod W`. |
| Partition.RoundRobinEntry | src/upload.ts:187-190 | Entry `j` of queue `q` is `files[q + j*W]`, so every queue keeps the files in their original order. |
| Partition.RoundRobinLength | src/upload.ts:185-190 | Queue `q` holds `n / W` files, plus one for the first `n mod W` queues. |
| Partition.RoundRobinBalanced | src/upload.ts:185-190 | Any two queues differ in length by at most one. |
| Partition.RoundRobinIsPermutation | src/upload.ts:185-190 | The queues together hold exactly the input files, as a multiset, and their lengths add up to the file count. |
| Master.UploadMaster.constructor | src/upload.ts:159-173 | Keeps the files and options, and sets `maxWorkers` to `WorkerCount` of the option, the CPU count and the file count. It starts with no workers, no queues, empty records, no progress, no abort and no summary. |
| Master.UploadMaster.Initialize | src/upload.ts:183-191 | The loop leaves `taskQueues` equal to the round-robin split of `files` into `maxWorkers` queues. |
| Master.UploadMaster.CreateWorker | src/upload.ts:203-216 | Adds a worker started with its own queue and the options. Its record is alive, with result `{total: queue length, succeeded: 0}`. |
| Master.UploadMaster.StartWorkers | src/upload.ts:193-201 | Worker `w` is started on queue `w` for every `w < maxWorkers`. The records are exactly those of `Coordinator.Spawned`. |
| Master.UploadMaster.Start | src/upload.ts:175-181 | After splitting and spawning, the queues are the round-robin split, worker `w` runs queue `w`, every record is alive and unreported, and there is one record per worker. |
| Coordinator.Spawned | src/upload.ts:215-216 | Workers `0..n-1` each have a record that is alive, with result `{queue length, 0}`. Progress, abort and reports are empty. |
| Master.UploadMaster.HandleWorkerMessage | src/upload.ts:285-302 | The new state is `HandleMessage` of the old one. `ERROR` ends the process only under `abortOnFailure`, `PROGRESS` advances the count, and a `COMPLETE` with a result replaces the sender's result. |
| Master.UploadMaster.MarkWorkerDead | src/upload.ts:248-283 | Both loops (the all-dead test and the success sum) give `MarkDead`. The worker is marked dead. Once every record is dead, one summary is appended with `failed = total - sum(succeeded)`. |
| Master.UploadMaster.OnMessage | src/upload.ts:219-221 | The new state is `Step` of the old state and the message event. |
| Master.UploadMaster.OnError | src/upload.ts:223-228 | The new state is `Step` of the old state and the error event, which is handled as an `ERROR` message. |
| Master.UploadMaster.OnExit | src/upload.ts:230-240 | The new state is `Step` of the exit event. By `Step`'s contract, a non-zero code under `abortOnFailure` ends the process and nothing else changes. Any other exit, code 0 included, leaves exactly `MarkDead` of the worker. |
| Master.UploadMaster.DeliverAll | src/upload.ts:219-240 | Delivering any event sequence leaves the object in `Coordinator.Run` of those events, with one record per worker kept throughout. |
| Coordinator.MarkDead | src/upload.ts:248-264 | Only the worker's dead flag (now set) and the reports change, and one record per worker is kept. A summary of the records is appended exactly when no record is left alive. |
| Coordinator.Step | src/upload.ts:219-240 | Only the sender's records change. A dead worker stays dead. Only an exit marks a worker dead or reports, and only a `COMPLETE` changes a result. Each event has its exact effect. `PROGRESS` adds one to the count. `ERROR` and the `error` event end the process exactly under `abortOnFailure`. A `COMPLETE` with a result replaces the sender's result, and one without a result changes nothing. An exit with a non-zero code under `abortOnFailure` ends the process, and any other exit gives `MarkDead`. A report is the tally of the results, made only when the last record turns dead. Once the process has exited, nothing changes. |
| Coordinator.Aggregate | src/upload.ts:256-264 | The summary's total is the number of files, and `succeeded + failed` equals it. |
| Coordinator.ExitFaultMessage | src/upload.ts:231-236 | A non-zero exit is passed on as an `ERROR` carrying an error text. |
| Coordinator.Decimal | src/upload.ts:234 | The exit code's text has a minus sign exactly for negative codes, followed by decimal digits. The digits denote the code's magnitude and have no leading zero. |
| Coordinator.Digits | src/upload.ts:234 | Decimal digits with no leading zero, whose value (`DigitsValue`) is the number itself. |
| Coordinator.AbortIsFinal | src/upload.ts:289-292 | After `process.exit(1)` no event has any effect. |
| Coordinator.PrefixIsKept | src/upload.ts:249 | An exit, a dead flag or a reported summary produced by a prefix of the events survives the rest. |
| Coordinator.ReportOnlyWhenAllDead | src/upload.ts:252-254 | Summaries are only appended, and a new one implies that every record is dead. |
| Coordinator.ResultFromOwnComplete | src/upload.ts:297-300 | Unless the process exited, a worker's record holds the result of its own latest `COMPLETE`, or its initial result if it sent none. |
| Coordinator.ExitBookkeeping | src/upload.ts:230-254 | When no worker exits twice and the run does not abort, a worker is dead exactly when it has exited, the dead count equals the exit count, and one summary exists exactly when all have exited. |
| Coordinator.ExactlyOneReport | src/upload.ts:248-264 | When each worker exits exactly once and the run does not abort, every record ends dead and exactly one summary is reported, with `succeeded + failed` equal to the number of files. |
| Coordinator.ReportsAreTallies | src/upload.ts:256-264 | Every summary ever reported has `succeeded + failed` equal to the number of files. |
| Coordinator.FinalReport | src/upload.ts:248-264 | When each worker exits once, sends nothing after its exit and the run does not abort, the only summary is the aggregate of the records as they end. |
| Coordinator.NeverAbortsWithoutAbortOnFailure | src/upload.ts:286-292 | Without `abortOnFailure`, no sequence of events ends the process. |
| Coordinator.SummaryWithoutAbort | src/upload.ts:230-264 | Without `abortOnFailure`, when each worker exits exactly once and sends nothing after, there is exactly one summary. It is the aggregate of the final records and counts every file once. No-abort is derived here, not assumed. |
| Coordinator.ExitCountIsSum | src/upload.ts:230-240 | The number of exits is the sum of the per-worker exit counts. |
| Coordinator.DeadCount | src/upload.ts:252 | The dead count is at most the worker count, and it equals it exactly when every record is dead. |
| Pipeline.LastResultOfSent | src/upload.ts:297-300 | The record of a worker depends only on the messages that worker sent, not on how they were interleaved with the others. |
| Pipeline.NoneFailed | src/upload.worker.ts:58-63 | No failed file in any queue exactly when no file exhausted its attempts. |
| Pipeline.HonestRunSummary | src/upload.ts:248-270 | Suppose every worker sends exactly the messages of `UploadWorker.Start` for its round-robin queue, exits once and the run does not abort. Then exactly one summary is reported: `failed` counts the files that exhausted their attempts and `succeeded` the rest. "All files uploaded" holds exactly when no file exhausted them. |
| Pipeline.HonestRunSummaryWithoutAbort | src/upload.ts:248-270 | The conclusion of `HonestRunSummary` for every configuration without `abortOnFailure`. The absence of an abort is derived, not assumed. |
| UploadWorker.MaxRetry | src/upload.worker.ts:35 | The retry limit is `retryTimes` exactly when that is an integer above zero, otherwise 0. |
| UploadWorker.Start | src/upload.worker.ts:24-91 | The loops send `WorkerMessages`, perform `WorkerLog` (attempts, delays, removals) and collect `FailedFiles` as `failFiles`. |
| UploadWorker.UploadOne | src/upload.worker.ts:36-70 | The retry loop leaves exactly the log `FileLog` of the file. `uploadError` is set exactly when every attempt failed, and the file is pushed onto `failFiles` exactly then. |
| UploadWorker.RunWorker | src/upload.worker.ts:100-109 | If the uploader cannot be created, exactly one `ERROR` with the reason is sent and the exit code is 1. Otherwise the messages are those of `Start` and the code is 0. A non-zero code comes exactly when no `COMPLETE` was sent. |
| UploadWorker.FailedFiles | src/upload.worker.ts:61-63 | The failed files are among the batch's files and no more than them. |
| UploadWorker.AttemptsMade | src/upload.worker.ts:39-70 | Attempts stop at the first success, every earlier attempt failed, and at most `maxRetry + 1` are made. |
| UploadWorker.FileLogShape | src/upload.worker.ts:39-70 | A file's log is its failed attempts, each followed by a delay, then the last attempt, then the removal only if that attempt succeeded and removal is configured. |
| UploadWorker.ExhaustedIffLastAttemptFails | src/upload.worker.ts:58-63 | A file is pushed onto `failFiles` exactly when its last attempt failed, and then all `maxRetry + 1` attempts were made. |
| UploadWorker.DelayBetweenAttempts | src/upload.worker.ts:61-67 | A delay only ever separates a failed attempt from the next attempt on the same file: never after a success or after the last attempt. |
| UploadWorker.FailedFilesCountErrors | src/upload.worker.ts:58-73 | The number of failed files among the first `k` equals the number of `ERROR` messages among the first `k` sent. |
| UploadWorker.WorkerProtocol | src/upload.worker.ts:31-90 | One message per file, in order, with `current = i + 1` and `total` the batch length. Each is `ERROR` exactly when the file exhausted its attempts. Then one `COMPLETE` whose `succeeded` is the batch length minus the `ERROR` count, between 0 and the total. |
| UploadWorker.AlwaysFailingUploader | src/upload.worker.ts:39-70 | With an uploader that always fails, each file gets `maxRetry + 1` attempts separated by delays, and `COMPLETE` reports no success. |
| UploadWorker.FileMessageTypeAsWritten | src/upload.worker.ts:73 | With the type chosen from the error's truthiness, an `ERROR` is only ever sent for an exhausted file. |
| UploadWorker.FalsyRejectionReportedAsProgress | src/upload.worker.ts:58-73 | A file whose only attempt is rejected with a falsy reason is counted as failed but reported as `PROGRESS`. |
| UploadWorker.AsWrittenAgreesWithTruthyReasons | src/upload.worker.ts:73 | When every rejection reason is truthy, the as-written type is `ERROR` exactly for exhausted files. |
| Upload.FirstTagged | src/upload.ts:43 | Finds the first item with an equal tag, or reports that none has it. |
| Upload.SelectProvider | src/upload.ts:32-87 | A single `provider` is used if present. A one-item list is used regardless of tags, and an empty list or no key cancels with "No provider configured". With more items, a truthy CI tag selects the first item with that tag or cancels with "No provider matched", and without it a cancelled prompt cancels the operation, a confirmed choice selects the first item carrying the chosen tag, and a choice no item carries cancels with "No provider configured". A selection is always one of the configured providers. |
| Upload.Split | src/upload.ts:123 | `split(sep)` yields at least one piece, and no piece contains the separator. |
| Upload.Replace | src/upload.ts:123 | Pointwise: each separator becomes the new character, and everything else is unchanged. |
| Upload.SplitJoin | src/upload.ts:123 | Splitting at one character and joining with another replaces that character. |
| Upload.NormalizedPath | src/upload.ts:121-123 | `split(path.sep).join('/')` turns every separator into `/` and changes nothing else. Joining with the separator again restores the path, and no separator remains when it is not `/`. |
| Upload.RemotePath | src/upload.ts:123-124 | Without a truthy destination, the remote path is the glob path with `/` for every separator. With one, it is `combineURLs(destination, normalized path)`. |
| Upload.FilesFor | src/upload.ts:114-133 | One file record per glob path, in order. |
| Upload.Prepare | src/upload.ts:84-138 | The run starts exactly when a provider is selected, `target` is truthy, the resolved directory exists and the glob finds a file. The checks come in that order. It cancels with the directory-missing reason when the resolved target does not exist, and with "no files" when the glob is empty. On success, the files are exactly `FilesFor` of the glob paths: one record per path, in order, with its local and remote path. The options are the configuration's `maxWorkers`, `retryTimes`, `removeWhenUploaded` and `abortOnFailure`, with the selected provider. |
| Upload.Upload | src/upload.ts:135-141 | A master is built and started only when every check passes. It is then fresh, holds the prepared files and options, and uses `WorkerCount` of the `maxWorkers` option, the CPU count and the file count as its worker count, which is at least one. Its queues and records are the round-robin split and `Spawned`, and worker `w` is started on queue `w` with the options. Otherwise the cancel reason is returned and no master exists. |

## Left out

- Worker threads, `Promise.all` and the `online` event are not modelled.
  The master sees a worker only through its `message`, `error` and
  `exit` events. Any sequence of those events is allowed, which covers
  every interleaving. The 100 ms retry delay is a `Delay` log entry, not
  a clock.
- Logging is not modelled: the `Logger`, the progress bar text, `log.*`,
  the `cancel` text and the `cause` string of an `ERROR`. Progress is a
  counter, and a cancel is a `CancelReason`.
- `process.exit(1)` is the `aborted` flag: from then on no event has any
  effect.
- The file system, `glob`, `mime`, `path`, `os.cpus()` and the prompts
  are inputs. `Upload.Upload` takes `cpuCount >= 1`, so the case of
  `os.cpus()` returning an empty list is not modelled.
  `fs.rmSync` is a `Remove` log entry, and its failure is ignored, as in
  the source.
- `combineURLs` is an uninterpreted function of the `Host`. src/utils is
  not part of this model.
- Loading the configuration file (src/config.ts) is not part of this
  model. `UserConfig` starts from the loaded object.
- `createUploader` and the provider implementations (src/providers) are
  not part of this model. An uploader is either `Unavailable(reason)` or
  an oracle of attempt outcomes. A rejected `uploadFile` is a failed
  attempt, and its error value is only modelled for its truthiness
  (see Findings).
- A `PROGRESS` message without a `progress` payload makes the source
  throw inside `handleWorkerMessage`. The model only counts it.
- `maxWorkers` is an integer. A fractional `maxWorkers` would make
  `Math.min` and `%` non-integral, which is not modelled. `retryTimes`
  that is not an integer is `NonInteger`, which gives 0 retries, as
  `Number.isInteger` does.
- Pipeline.HonestRunSummary: assumes every worker's stream is exactly
  what `UploadWorker.Start` sends, and that the run does not abort.
  `Pipeline.HonestRunSummaryWithoutAbort` derives the no-abort hypothesis
  from `abortOnFailure` being off. With `abortOnFailure` on, an `ERROR`
  ends the process (`Coordinator.Step`). Nothing is reported after that
  (`Coordinator.AbortIsFinal`, `Coordinator.PrefixIsKept`). No lemma
  states which summary, if any, such a run has reported before it ends.
- UploadWorker.Start: types each file's message `ERROR` exactly when the
  file exhausted its attempts. That is the corrected rule of the Finding
  below, not the truthiness test of src/upload.worker.ts:73. Start,
  `UploadWorker.WorkerMessages`, `UploadWorker.RunWorker` and everything
  in `Pipeline` therefore behave as the source does only when every
  rejection reason is truthy. `UploadWorker.AsWrittenAgreesWithTruthyReasons`
  proves the two rules agree under that condition.
- Upload.SelectProvider: the prompt offers only configured tags, so a
  confirmed choice missing from the list is not reachable through the
  prompt. The model follows the code anyway and gives
  "No provider configured".

## Findings

| source | as written | input that shows it | evidently intended | confidence | as-written member | corrected member |
|---|---|---|---|---|---|---|
| src/upload.worker.ts:73 | The per-file message type is `uploadError ? 'ERROR' : 'PROGRESS'`. It depends on the truthiness of the last caught rejection value, while `failFiles` (line 62) counts every exhausted file. | An uploader whose `uploadFile` rejects with `undefined` (or `null`, `0`, `''`) on every attempt of a file. The file is pushed onto `failFiles`, so `COMPLETE` reports it as failed, but the message sent is `PROGRESS`. `abortOnFailure` therefore never fires for it. | `ERROR` for every file that exhausted its attempts. | medium, not executed | UploadWorker.FalsyRejectionReportedAsProgress | UploadWorker.WorkerProtocol |
