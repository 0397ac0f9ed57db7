/** The coordinator object of src/upload.ts (`class UploadMaster`): it splits
    the files into one queue per worker, spawns the workers and updates its
    per-worker records as their events arrive. Each method is proved to do
    what the functions of module Coordinator say, so the lemmas proved there
    hold of the object. */
module Master {
  import opened Wrappers
  import opened Types
  import Partition
  import opened Coordinator

  /** How many workers run: a positive `maxWorkers` option, otherwise the
      number of CPUs, and never more than there are files
      (src/upload.ts:164-166). */
  function WorkerCount(maxWorkers: Option<int>, cpuCount: nat, fileCount: nat): (r: nat)
    ensures var cap := if maxWorkers.Some? && maxWorkers.value > 0 then maxWorkers.value else cpuCount;
      && r <= cap && r <= fileCount
      && (r == cap || r == fileCount)
    // with at least one file and at least one CPU, at least one worker runs
    ensures fileCount > 0 && cpuCount > 0 ==> r > 0
  {
    var cap := if maxWorkers.Some? && maxWorkers.value > 0 then maxWorkers.value as nat else cpuCount;
    if cap < fileCount then cap else fileCount
  }

  /** The `workerData` a worker thread is started with (src/upload.ts:206-210). */
  datatype WorkerData = WorkerData(workerId: nat, files: seq<OSSFile>, options: UploadOptions)

  /** Records that hold exactly what `Spawned` gives are its records. */
  lemma SpawnedRecords(queues: seq<seq<OSSFile>>, n: nat, dead: map<nat, bool>, results: map<nat, TaskResult>)
    requires n <= |queues|
    requires forall w: nat :: w in dead <==> w < n
    requires forall w: nat :: w in results <==> w < n
    requires forall w: nat :: w < n ==> !dead[w] && results[w] == TaskResult(|queues[w]|, 0)
    ensures dead == Spawned(queues, n).dead && results == Spawned(queues, n).results
  {
  }

  class UploadMaster {
    const files: seq<OSSFile>
    const options: UploadOptions
    const maxWorkers: nat

    /** The workers spawned, by the data each was started with. */
    var workers: seq<WorkerData>
    var taskQueues: seq<seq<OSSFile>>
    var workerDeadlineMap: map<nat, bool>
    var workerResultMap: map<nat, TaskResult>
    /** How far the progress bar has advanced. */
    var progress: nat
    /** Whether `process.exit(1)` has been called. */
    var aborted: bool
    /** The summaries `markWorkerDead` has reported. */
    var reports: seq<Summary>

    function Setting(): Setting
    {
      Coordinator.Setting(|files|, maxWorkers, options.abortOnFailure)
    }

    function State(): MasterState
      reads this
    {
      MasterState(workerDeadlineMap, workerResultMap, progress, aborted, reports)
    }

    ghost predicate Valid()
      reads this
    {
      WellFormed(Setting(), State())
    }

    /** src/upload.ts:159-173, with `os.cpus().length` passed in as `cpuCount`. */
    constructor (files: seq<OSSFile>, options: UploadOptions, cpuCount: nat)
      ensures this.files == files && this.options == options
      ensures maxWorkers == WorkerCount(options.maxWorkers, cpuCount, |files|)
      ensures workers == [] && taskQueues == []
      ensures State() == MasterState(map[], map[], 0, false, [])
    {
      this.files := files;
      this.options := options;
      this.maxWorkers := WorkerCount(options.maxWorkers, cpuCount, |files|);
      workers := [];
      taskQueues := [];
      workerDeadlineMap := map[];
      workerResultMap := map[];
      progress := 0;
      aborted := false;
      reports := [];
    }

    /** `initialize` (src/upload.ts:183-191): file `i` goes to queue `i mod maxWorkers`. */
    method Initialize()
      requires maxWorkers > 0
      modifies this`taskQueues
      ensures taskQueues == Partition.RoundRobin(files, maxWorkers)
    {
      taskQueues := Partition.EmptyQueues(maxWorkers);
      for i := 0 to |files|
        invariant taskQueues == Partition.RoundRobin(files[..i], maxWorkers)
      {
        var batchIndex := i % maxWorkers;
        taskQueues := taskQueues[batchIndex := taskQueues[batchIndex] + [files[i]]];
        assert files[..i + 1][..i] == files[..i];
      }
      assert files[..|files|] == files;
    }

    /** `createWorker` (src/upload.ts:203-216): start a worker on its queue and
        record it as alive with nothing yet succeeded. */
    method CreateWorker(workerId: nat)
      requires workerId < |taskQueues|
      modifies this`workers, this`workerDeadlineMap, this`workerResultMap
      ensures workers == old(workers) + [WorkerData(workerId, taskQueues[workerId], options)]
      ensures workerDeadlineMap == old(workerDeadlineMap)[workerId := false]
      ensures workerResultMap == old(workerResultMap)[workerId := TaskResult(|taskQueues[workerId]|, 0)]
    {
      workers := workers + [WorkerData(workerId, taskQueues[workerId], options)];
      workerDeadlineMap := workerDeadlineMap[workerId := false];
      workerResultMap := workerResultMap[workerId := TaskResult(|taskQueues[workerId]|, 0)];
    }

    /** `startWorkers` (src/upload.ts:193-201): one worker per queue. */
    method StartWorkers()
      requires |taskQueues| == maxWorkers
      requires workers == [] && workerDeadlineMap == map[] && workerResultMap == map[]
      modifies this`workers, this`workerDeadlineMap, this`workerResultMap
      ensures |workers| == maxWorkers
      ensures forall w :: 0 <= w < maxWorkers ==> workers[w] == WorkerData(w, taskQueues[w], options)
      ensures workerDeadlineMap == Spawned(taskQueues, maxWorkers).dead
      ensures workerResultMap == Spawned(taskQueues, maxWorkers).results
    {
      for i := 0 to maxWorkers
        invariant |workers| == i
        invariant forall w :: 0 <= w < i ==> workers[w] == WorkerData(w, taskQueues[w], options)
        invariant forall w: nat :: w in workerDeadlineMap <==> w < i
        invariant forall w: nat :: w in workerResultMap <==> w < i
        invariant forall w: nat :: w < i ==> !workerDeadlineMap[w] && workerResultMap[w] == TaskResult(|taskQueues[w]|, 0)
      {
        CreateWorker(i);
      }
      SpawnedRecords(taskQueues, maxWorkers, workerDeadlineMap, workerResultMap);
    }

    /** `start` (src/upload.ts:175-181): split the files, then spawn the
        workers. Afterwards each worker `w` runs on queue `w` of the
        round-robin split and every record is alive. */
    method Start()
      requires maxWorkers > 0
      requires workers == [] && State() == MasterState(map[], map[], 0, false, [])
      modifies this`taskQueues, this`workers, this`workerDeadlineMap, this`workerResultMap
      ensures taskQueues == Partition.RoundRobin(files, maxWorkers)
      ensures |workers| == maxWorkers
      ensures forall w :: 0 <= w < maxWorkers ==> workers[w] == WorkerData(w, taskQueues[w], options)
      ensures State() == Spawned(taskQueues, maxWorkers)
      ensures Valid()
    {
      Initialize();
      StartWorkers();
    }

    /** `handleWorkerMessage` (src/upload.ts:285-302). */
    method HandleWorkerMessage(workerId: nat, message: WorkerMessage)
      modifies this`progress, this`workerResultMap, this`aborted
      ensures State() == HandleMessage(Setting(), old(State()), workerId, message)
    {
      match message.kind
      case ERROR =>
        if options.abortOnFailure {
          aborted := true;
        }
      case PROGRESS =>
        progress := progress + 1;
      case COMPLETE =>
        if message.result.Some? {
          workerResultMap := workerResultMap[workerId := message.result.value];
        }
    }

    /** `markWorkerDead` (src/upload.ts:248-282): mark the record dead; once
        every record is dead, tally the results and report. */
    method MarkWorkerDead(workerId: nat)
      requires Valid() && workerId < maxWorkers
      modifies this`workerDeadlineMap, this`reports
      ensures State() == MarkDead(Setting(), old(State()), workerId)
    {
      workerDeadlineMap := workerDeadlineMap[workerId := true];
      var allDead := true;
      for w := 0 to maxWorkers
        invariant allDead <==> forall v: nat :: v < w ==> workerDeadlineMap[v]
      {
        allDead := allDead && workerDeadlineMap[w];
      }
      if allDead {
        var totalFiles := |files|;
        var successCount := 0;
        for w := 0 to maxWorkers
          invariant successCount == SumSucceeded(workerResultMap, w)
        {
          successCount := successCount + workerResultMap[w].succeeded;
        }
        var failCount := totalFiles - successCount;
        reports := reports + [Summary(totalFiles, successCount, failCount)];
      }
    }

    /** The `message` listener (src/upload.ts:219-221). */
    method OnMessage(workerId: nat, message: WorkerMessage)
      requires Valid() && workerId < maxWorkers
      modifies this`progress, this`workerResultMap, this`aborted
      ensures State() == Step(Setting(), old(State()), Message(workerId, message))
    {
      if !aborted {
        HandleWorkerMessage(workerId, message);
      }
    }

    /** The `error` listener (src/upload.ts:223-228). */
    method OnError(workerId: nat, error: string)
      requires Valid() && workerId < maxWorkers
      modifies this`progress, this`workerResultMap, this`aborted
      ensures State() == Step(Setting(), old(State()), Fault(workerId, error))
    {
      if !aborted {
        HandleWorkerMessage(workerId, FaultMessage(error));
      }
    }

    /** The `exit` listener (src/upload.ts:230-240): a non-zero code is first
        handled as an error, which may end the process; then the worker is
        marked dead. */
    method OnExit(workerId: nat, code: int)
      requires Valid() && workerId < maxWorkers
      modifies this`progress, this`workerResultMap, this`aborted, this`workerDeadlineMap, this`reports
      ensures State() == Step(Setting(), old(State()), Exit(workerId, code))
    {
      if aborted {
        return;
      }
      if code != 0 {
        HandleWorkerMessage(workerId, ExitFaultMessage(code));
        if aborted {
          return;
        }
      }
      MarkWorkerDead(workerId);
    }

    /** Deliver one event to the listener it is for. */
    method Deliver(e: Event)
      requires Valid() && e.workerId < maxWorkers
      modifies this`progress, this`workerResultMap, this`aborted, this`workerDeadlineMap, this`reports
      ensures State() == Step(Setting(), old(State()), e)
      ensures Valid()
    {
      match e
      case Message(w, message) => OnMessage(w, message);
      case Fault(w, error) => OnError(w, error);
      case Exit(w, code) => OnExit(w, code);
    }

    /** Deliver the events in order: the coordinator ends in the state
        `Coordinator.Run` gives. */
    method DeliverAll(events: seq<Event>)
      requires Valid() && ForWorkers(Setting(), events)
      modifies this`progress, this`workerResultMap, this`aborted, this`workerDeadlineMap, this`reports
      ensures Valid()
      ensures State() == Run(Setting(), old(State()), events)
    {
      for i := 0 to |events|
        invariant Valid()
        invariant State() == Run(Setting(), old(State()), events[..i])
      {
        Deliver(events[i]);
        assert events[..i + 1][..i] == events[..i];
      }
      assert events[..|events|] == events;
    }
  }
}
