/** The coordinator and its workers together: when every worker runs
    `UploadWorker.start` on the queue it was given, reports everything and
    exits once, the one summary the coordinator prints counts as failed
    exactly the files that exhausted their attempts. */
module Pipeline {
  import opened Wrappers
  import opened Types
  import Partition
  import opened Coordinator
  import UploadWorker
  import Master

  /** The messages worker `w` sent, in the order they arrived. */
  function Sent(events: seq<Event>, w: nat): seq<WorkerMessage>
  {
    if |events| == 0 then []
    else
      var e := events[|events| - 1];
      Sent(events[..|events| - 1], w) + (if e.Message? && e.workerId == w then [e.message] else [])
  }

  /** The result of the last `COMPLETE` that carries one, or `init`. */
  function LastReported(messages: seq<WorkerMessage>, init: TaskResult): TaskResult
  {
    if |messages| == 0 then init
    else
      var m := messages[|messages| - 1];
      if m.kind == COMPLETE && m.result.Some? then m.result.value else LastReported(messages[..|messages| - 1], init)
  }

  /** The record of a worker depends only on the messages that worker sent. */
  lemma {:induction false} LastResultOfSent(events: seq<Event>, w: nat, init: TaskResult)
    ensures LastResult(events, w, init) == LastReported(Sent(events, w), init)
  {
    if |events| > 0 {
      var prefix, e := events[..|events| - 1], events[|events| - 1];
      LastResultOfSent(prefix, w, init);
      if e.Message? && e.workerId == w {
        assert (Sent(prefix, w) + [e.message])[..|Sent(prefix, w)|] == Sent(prefix, w);
      } else {
        assert Sent(events, w) == Sent(prefix, w);
      }
    }
  }

  /** A worker's stream ends with its `COMPLETE`, so that is what it reports. */
  lemma WorkerReports(workerId: int, files: seq<OSSFile>, maxRetry: nat, uploads: (nat, nat) -> bool, init: TaskResult)
    ensures LastReported(UploadWorker.WorkerMessages(workerId, files, maxRetry, uploads), init)
         == TaskResult(|files|, |files| - |UploadWorker.FailedFiles(files, maxRetry, uploads)|)
  {
  }

  /** The lengths of queues `0 .. n-1`, added up. */
  function QueuedCount(queues: seq<seq<OSSFile>>, n: nat): nat
    requires n <= |queues|
  {
    if n == 0 then 0 else QueuedCount(queues, n - 1) + |queues[n - 1]|
  }

  /** The failed files of workers `0 .. n-1`, added up. */
  function FailedCount(queues: seq<seq<OSSFile>>, n: nat, maxRetry: nat, uploads: nat -> (nat, nat) -> bool): nat
    requires n <= |queues|
  {
    if n == 0 then 0
    else FailedCount(queues, n - 1, maxRetry, uploads) + |UploadWorker.FailedFiles(queues[n - 1], maxRetry, uploads(n - 1))|
  }

  lemma {:induction false} QueuedCountTail(queues: seq<seq<OSSFile>>, n: nat)
    requires 0 < n <= |queues|
    ensures QueuedCount(queues, n) == |queues[0]| + QueuedCount(queues[1..], n - 1)
  {
    if n > 1 { QueuedCountTail(queues, n - 1); }
  }

  /** The queues hold `QueuedCount` files between them. */
  lemma {:induction false} FlattenLength(queues: seq<seq<OSSFile>>)
    ensures |Partition.Flatten(queues)| == QueuedCount(queues, |queues|)
  {
    if |queues| > 0 {
      FlattenLength(queues[1..]);
      QueuedCountTail(queues, |queues|);
    }
  }

  /** The records of workers `0 .. n-1` each hold that worker's own tally:
      its queue length, and that length minus its failed files. */
  predicate OwnTallies(results: map<nat, TaskResult>, queues: seq<seq<OSSFile>>, n: nat,
                       maxRetry: nat, uploads: nat -> (nat, nat) -> bool)
    requires n <= |queues|
  {
    forall v: nat :: v < n ==>
      (v in results && results[v] == TaskResult(|queues[v]|, |queues[v]| - |UploadWorker.FailedFiles(queues[v], maxRetry, uploads(v))|))
  }

  /** Workers `0 .. n-1` each sent exactly the messages of `UploadWorker.Start`
      for their queue. */
  predicate HonestSenders(events: seq<Event>, queues: seq<seq<OSSFile>>, n: nat,
                          maxRetry: nat, uploads: nat -> (nat, nat) -> bool)
    requires n <= |queues|
  {
    forall v: nat :: v < n ==> Sent(events, v) == UploadWorker.WorkerMessages(v, queues[v], maxRetry, uploads(v))
  }

  /** Records holding each worker's own tally add up to the queued files
      minus the failed ones. */
  lemma {:induction false} SumOfTallies(results: map<nat, TaskResult>, queues: seq<seq<OSSFile>>, n: nat,
                                        maxRetry: nat, uploads: nat -> (nat, nat) -> bool)
    requires n <= |queues| && OwnTallies(results, queues, n, maxRetry, uploads)
    ensures SumSucceeded(results, n) == QueuedCount(queues, n) - FailedCount(queues, n, maxRetry, uploads)
  {
    if n > 0 { SumOfTallies(results, queues, n - 1, maxRetry, uploads); }
  }

  /** No failed file in any queue exactly when no file exhausted its attempts. */
  lemma {:induction false} NoneFailed(queues: seq<seq<OSSFile>>, n: nat, maxRetry: nat, uploads: nat -> (nat, nat) -> bool)
    requires n <= |queues|
    ensures FailedCount(queues, n, maxRetry, uploads) == 0 <==>
      forall w, i :: 0 <= w < n && 0 <= i < |queues[w]| ==> !UploadWorker.Exhausted(i, maxRetry, uploads(w))
  {
    if n > 0 {
      NoneFailed(queues, n - 1, maxRetry, uploads);
      NoneFailedInBatch(queues[n - 1], maxRetry, uploads(n - 1));
    }
  }

  lemma {:induction false} NoneFailedInBatch(files: seq<OSSFile>, maxRetry: nat, uploads: (nat, nat) -> bool)
    ensures |UploadWorker.FailedFiles(files, maxRetry, uploads)| == 0 <==>
      forall i :: 0 <= i < |files| ==> !UploadWorker.Exhausted(i, maxRetry, uploads)
  {
    if |files| > 0 {
      NoneFailedInBatch(files[..|files| - 1], maxRetry, uploads);
    }
  }

  /** A worker that sent exactly its `WorkerMessages` ends with its own tally
      in its record. */
  lemma HonestRecord(st: Setting, queues: seq<seq<OSSFile>>, maxRetry: nat,
                     uploads: (nat, nat) -> bool, events: seq<Event>, v: nat)
    requires st.workers == |queues| && ForWorkers(st, events) && v < st.workers
    requires Sent(events, v) == UploadWorker.WorkerMessages(v, queues[v], maxRetry, uploads)
    requires !Run(st, Spawned(queues, st.workers), events).aborted
    ensures Run(st, Spawned(queues, st.workers), events).results[v]
         == TaskResult(|queues[v]|, |queues[v]| - |UploadWorker.FailedFiles(queues[v], maxRetry, uploads)|)
  {
    var s := Spawned(queues, st.workers);
    ResultFromOwnComplete(st, s, events, v);
    LastResultOfSent(events, v, s.results[v]);
    WorkerReports(v, queues[v], maxRetry, uploads, s.results[v]);
  }

  /** Under honest workers, each record ends holding its worker's own tally. */
  lemma HonestRecords(st: Setting, queues: seq<seq<OSSFile>>, maxRetry: nat,
                      uploads: nat -> (nat, nat) -> bool, events: seq<Event>)
    requires st.workers == |queues| && ForWorkers(st, events)
    requires HonestSenders(events, queues, st.workers, maxRetry, uploads)
    requires !Run(st, Spawned(queues, st.workers), events).aborted
    ensures OwnTallies(Run(st, Spawned(queues, st.workers), events).results, queues, st.workers, maxRetry, uploads)
  {
    forall v: nat | v < st.workers {
      HonestRecord(st, queues, maxRetry, uploads(v), events, v);
    }
  }

  /** Under honest workers that each exit once, the one summary counts the
      failed files of all queues. */
  lemma HonestTally(files: seq<OSSFile>, w: nat, abort: bool, maxRetry: nat,
                    uploads: nat -> (nat, nat) -> bool, events: seq<Event>)
    requires w > 0
    requires ForWorkers(Setting(|files|, w, abort), events)
    requires HonestSenders(events, Partition.RoundRobin(files, w), w, maxRetry, uploads)
    requires forall v: nat :: v < w ==> ExitsOf(events, v) == 1
    requires SilentAfterExit(events)
    requires !Run(Setting(|files|, w, abort), Spawned(Partition.RoundRobin(files, w), w), events).aborted
    ensures Run(Setting(|files|, w, abort), Spawned(Partition.RoundRobin(files, w), w), events).reports
         == [Expected(files, w, maxRetry, uploads)]
  {
    var st, queues := Setting(|files|, w, abort), Partition.RoundRobin(files, w);
    SpawnedStart(st, queues);
    HonestRecords(st, queues, maxRetry, uploads, events);
    TalliedRun(files, st, Spawned(queues, w), queues, maxRetry, uploads, events);
  }

  /** The summary of an honest run: `failed` is the number of files of all
      queues that exhausted their attempts. */
  function Expected(files: seq<OSSFile>, w: nat, maxRetry: nat, uploads: nat -> (nat, nat) -> bool): Summary
    requires w > 0
  {
    var failed := FailedCount(Partition.RoundRobin(files, w), w, maxRetry, uploads);
    Summary(|files|, |files| - failed, failed)
  }

  /** Freshly spawned records are well formed, all alive, and unreported. */
  lemma SpawnedStart(st: Setting, queues: seq<seq<OSSFile>>)
    requires st.workers == |queues|
    ensures WellFormed(st, Spawned(queues, st.workers))
    ensures Spawned(queues, st.workers).reports == []
    ensures forall v: nat :: v < st.workers ==> !Spawned(queues, st.workers).dead[v]
  {
  }

  /** When every worker exits once after its record got its own tally, the
      one summary is `Expected`. */
  lemma TalliedRun(files: seq<OSSFile>, st: Setting, s: MasterState, queues: seq<seq<OSSFile>>, maxRetry: nat,
                   uploads: nat -> (nat, nat) -> bool, events: seq<Event>)
    requires st.workers > 0 && st.totalFiles == |files| && queues == Partition.RoundRobin(files, st.workers)
    requires WellFormed(st, s) && s.reports == [] && forall v: nat :: v < st.workers ==> !s.dead[v]
    requires ForWorkers(st, events) && SilentAfterExit(events)
    requires forall v: nat :: v < st.workers ==> ExitsOf(events, v) == 1
    requires !Run(st, s, events).aborted
    requires OwnTallies(Run(st, s, events).results, queues, st.workers, maxRetry, uploads)
    ensures Run(st, s, events).reports == [Expected(files, st.workers, maxRetry, uploads)]
  {
    FinalReport(st, s, events);
    TallyOfRecords(files, st, Run(st, s, events).results, maxRetry, uploads);
  }

  /** Records holding each worker's own tally aggregate to the failed files
      of all queues. */
  lemma TallyOfRecords(files: seq<OSSFile>, st: Setting, results: map<nat, TaskResult>, maxRetry: nat,
                       uploads: nat -> (nat, nat) -> bool)
    requires st.workers > 0 && st.totalFiles == |files|
    requires OwnTallies(results, Partition.RoundRobin(files, st.workers), st.workers, maxRetry, uploads)
    ensures Aggregate(st, results) == Expected(files, st.workers, maxRetry, uploads)
  {
    var queues := Partition.RoundRobin(files, st.workers);
    SumOfTallies(results, queues, st.workers, maxRetry, uploads);
    Partition.RoundRobinIsPermutation(files, st.workers);
    FlattenLength(queues);
  }

  /** A run of the whole engine. The coordinator for `options` starts `w`
      workers (the `WorkerCount` it computes) on the round-robin queues;
      worker `v` sends exactly the messages `UploadWorker.Start` produces for
      queue `v` with uploader `uploads(v)`, interleaved in any way with the
      others, exits once and sends nothing after; and the process does not
      abort. Then the coordinator reports exactly one summary, `Expected`:
      `failed` is the number of files that exhausted their attempts and
      `succeeded` the rest, and the "all files uploaded" outcome is reported
      exactly when no file exhausted them. */
  lemma HonestRunSummary(files: seq<OSSFile>, options: UploadOptions, cpuCount: nat, w: nat,
                         uploads: nat -> (nat, nat) -> bool, events: seq<Event>)
    requires |files| > 0 && cpuCount > 0 && w == Master.WorkerCount(options.maxWorkers, cpuCount, |files|)
    requires ForWorkers(Setting(|files|, w, options.abortOnFailure), events)
    requires forall v: nat :: v < w ==>
      && Sent(events, v) == UploadWorker.WorkerMessages(v, Partition.RoundRobin(files, w)[v],
                                                        UploadWorker.MaxRetry(options.retryTimes), uploads(v))
      && ExitsOf(events, v) == 1
    requires SilentAfterExit(events)
    requires !Run(Setting(|files|, w, options.abortOnFailure), Spawned(Partition.RoundRobin(files, w), w), events).aborted
    ensures Run(Setting(|files|, w, options.abortOnFailure), Spawned(Partition.RoundRobin(files, w), w), events).reports
         == [Expected(files, w, UploadWorker.MaxRetry(options.retryTimes), uploads)]
    ensures Expected(files, w, UploadWorker.MaxRetry(options.retryTimes), uploads).AllUploaded() <==>
      forall v, i :: 0 <= v < w && 0 <= i < |Partition.RoundRobin(files, w)[v]| ==>
        !UploadWorker.Exhausted(i, UploadWorker.MaxRetry(options.retryTimes), uploads(v))
  {
    var maxRetry := UploadWorker.MaxRetry(options.retryTimes);
    assert HonestSenders(events, Partition.RoundRobin(files, w), w, maxRetry, uploads);
    HonestTally(files, w, options.abortOnFailure, maxRetry, uploads, events);
    NoneFailed(Partition.RoundRobin(files, w), w, maxRetry, uploads);
  }

  /** `HonestRunSummary` for a configuration without `abortOnFailure`, where
      the process is never ended early. */
  lemma HonestRunSummaryWithoutAbort(files: seq<OSSFile>, options: UploadOptions, cpuCount: nat, w: nat,
                                     uploads: nat -> (nat, nat) -> bool, events: seq<Event>)
    requires |files| > 0 && cpuCount > 0 && w == Master.WorkerCount(options.maxWorkers, cpuCount, |files|)
    requires !options.abortOnFailure
    requires ForWorkers(Setting(|files|, w, false), events)
    requires forall v: nat :: v < w ==>
      && Sent(events, v) == UploadWorker.WorkerMessages(v, Partition.RoundRobin(files, w)[v],
                                                        UploadWorker.MaxRetry(options.retryTimes), uploads(v))
      && ExitsOf(events, v) == 1
    requires SilentAfterExit(events)
    ensures Run(Setting(|files|, w, false), Spawned(Partition.RoundRobin(files, w), w), events).reports
         == [Expected(files, w, UploadWorker.MaxRetry(options.retryTimes), uploads)]
    ensures Expected(files, w, UploadWorker.MaxRetry(options.retryTimes), uploads).AllUploaded() <==>
      forall v, i :: 0 <= v < w && 0 <= i < |Partition.RoundRobin(files, w)[v]| ==>
        !UploadWorker.Exhausted(i, UploadWorker.MaxRetry(options.retryTimes), uploads(v))
  {
    var st := Setting(|files|, w, false);
    SpawnedStart(st, Partition.RoundRobin(files, w));
    NeverAbortsWithoutAbortOnFailure(st, Spawned(Partition.RoundRobin(files, w), w), events);
    HonestRunSummary(files, options, cpuCount, w, uploads, events);
  }
}
