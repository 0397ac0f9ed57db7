/** The coordinator's bookkeeping of src/upload.ts (`UploadMaster`), stated
    on values: the records it keeps per worker and how each event from a
    worker changes them. The class in UploadMaster.dfy is proved to follow
    these functions; the lemmas here are about every sequence of events, which
    covers every interleaving of the workers' message streams. */
module Coordinator {
  import opened Wrappers
  import opened Types

  /** What the coordinator can receive from worker `workerId`. */
  datatype Event =
    | Message(workerId: nat, message: WorkerMessage)  // `worker.on('message')`
    | Fault(workerId: nat, error: string)             // `worker.on('error')`
    | Exit(workerId: nat, code: int)                  // `worker.on('exit')`

  /** The final tally reported once every worker is dead. */
  datatype Summary = Summary(totalFiles: nat, succeeded: int, failed: int)
  {
    /** `failCount <= 0` selects the "all files uploaded" outcome. */
    predicate AllUploaded() { failed <= 0 }
  }

  /** What the coordinator's handlers read of its configuration. */
  datatype Setting = Setting(totalFiles: nat, workers: nat, abortOnFailure: bool)

  /** The coordinator's mutable state after spawning: the dead flags
      (`workerDeadlineMap`), the results (`workerResultMap`), the progress
      count, whether the process has exited, and the summaries reported. */
  datatype MasterState = MasterState(
    dead: map<nat, bool>,
    results: map<nat, TaskResult>,
    progress: nat,
    aborted: bool,
    reports: seq<Summary>)

  /** Both maps hold exactly one record per worker. */
  ghost predicate WellFormed(st: Setting, s: MasterState)
  {
    && (forall w: nat :: w in s.dead <==> w < st.workers)
    && (forall w: nat :: w in s.results <==> w < st.workers)
  }

  /** The records after workers `0 .. n-1` have been created
      (src/upload.ts:215-216): each alive, with result
      `{total: queue length, succeeded: 0}`. */
  function Spawned(queues: seq<seq<OSSFile>>, n: nat): (s: MasterState)
    requires n <= |queues|
    ensures forall w: nat :: w in s.dead <==> w < n
    ensures forall w: nat :: w in s.results <==> w < n
    ensures forall w: nat :: w < n ==> !s.dead[w] && s.results[w] == TaskResult(|queues[w]|, 0)
    ensures s.progress == 0 && !s.aborted && s.reports == []
  {
    if n == 0 then MasterState(map[], map[], 0, false, [])
    else
      var s := Spawned(queues, n - 1);
      s.(dead := s.dead[n - 1 := false], results := s.results[n - 1 := TaskResult(|queues[n - 1]|, 0)])
  }

  /** Every record is dead (`Array.from(values).every(isDead => isDead)`). */
  predicate AllDead(dead: map<nat, bool>)
  {
    forall w :: w in dead ==> dead[w]
  }

  /** `succeeded` summed over the records of workers `0 .. n-1`. */
  function SumSucceeded(results: map<nat, TaskResult>, n: nat): int
    requires forall w: nat :: w < n ==> w in results
  {
    if n == 0 then 0 else SumSucceeded(results, n - 1) + results[n - 1].succeeded
  }

  /** The tally computed in `markWorkerDead` (src/upload.ts:256-264). */
  function Aggregate(st: Setting, results: map<nat, TaskResult>): (r: Summary)
    requires forall w: nat :: w < st.workers ==> w in results
    ensures r.totalFiles == st.totalFiles && r.succeeded + r.failed == st.totalFiles
  {
    var successCount := SumSucceeded(results, st.workers);
    Summary(st.totalFiles, successCount, st.totalFiles - successCount)
  }

  /** `handleWorkerMessage` (src/upload.ts:285-302). */
  function HandleMessage(st: Setting, s: MasterState, workerId: nat, message: WorkerMessage): MasterState
  {
    match message.kind
    case ERROR => if st.abortOnFailure then s.(aborted := true) else s
    case PROGRESS => s.(progress := s.progress + 1)
    case COMPLETE => if message.result.Some? then s.(results := s.results[workerId := message.result.value]) else s
  }

  /** `markWorkerDead` (src/upload.ts:248-283). */
  function MarkDead(st: Setting, s: MasterState, workerId: nat): (r: MasterState)
    requires WellFormed(st, s) && workerId < st.workers
    ensures WellFormed(st, r)
    // only the worker's dead flag and the reports change
    ensures r.dead == s.dead[workerId := true]
    ensures r.results == s.results && r.progress == s.progress && r.aborted == s.aborted
    // a summary of the records is appended exactly when no record is left alive
    ensures r.reports == (if AllDead(r.dead) then s.reports + [Aggregate(st, s.results)] else s.reports)
  {
    var dead := s.dead[workerId := true];
    if AllDead(dead) then s.(dead := dead, reports := s.reports + [Aggregate(st, s.results)])
    else s.(dead := dead)
  }

  /** The `ERROR` message the `error` and non-zero `exit` listeners pass on. */
  function FaultMessage(error: string): WorkerMessage
  {
    WorkerMessage(ERROR, None, Some(error), None, None)
  }

  /** The `ERROR` message the `exit` listener passes on for a non-zero code. */
  function ExitFaultMessage(code: int): (m: WorkerMessage)
    ensures m.kind == ERROR && m.error.Some?
  {
    FaultMessage("Worker stopped with exit code " + Decimal(code))
  }

  /** `${code}` for an integer: an optional minus sign, then the decimal
      digits of its magnitude, without leading zeros. */
  function Decimal(n: int): (text: string)
    ensures |text| > 0 && (n < 0 <==> text[0] == '-')
    ensures forall k :: (if n < 0 then 1 else 0) <= k < |text| ==> '0' <= text[k] <= '9'
    ensures n < 0 ==> 1 < |text| && DigitsValue(text[1..]) == -n
    ensures n >= 0 ==> DigitsValue(text) == n
    // no leading zero after the optional sign
    ensures var d := if n < 0 then 1 else 0; |text| > d + 1 ==> text[d] != '0'
  {
    if n < 0 then
      var digits := Digits(-n);
      assert ("-" + digits)[1..] == digits;
      "-" + digits
    else Digits(n)
  }

  /** The decimal digits of `n`, most significant first. */
  function Digits(n: nat): (text: string)
    ensures |text| > 0 && '0' <= text[0] <= '9'
    ensures forall k :: 0 <= k < |text| ==> '0' <= text[k] <= '9'
    ensures |text| > 1 ==> text[0] != '0'
    ensures DigitsValue(text) == n
  {
    if n < 10 then
      var text := ["0123456789"[n]];
      assert text[..0] == [];
      text
    else
      var prefix := Digits(n / 10);
      var text := prefix + ["0123456789"[n % 10]];
      assert text[..|text| - 1] == prefix;
      text
  }

  /** The number a string of decimal digits denotes. */
  function DigitsValue(text: string): int
  {
    if |text| == 0 then 0
    else DigitsValue(text[..|text| - 1]) * 10 + (text[|text| - 1] as int - '0' as int)
  }

  /** One event delivered to the coordinator's listeners
      (src/upload.ts:219-240). Once the process has exited, nothing runs. */
  function Step(st: Setting, s: MasterState, e: Event): (r: MasterState)
    requires WellFormed(st, s) && e.workerId < st.workers
    ensures WellFormed(st, r)
    ensures s.aborted ==> r == s
    // only the sender's own records can change
    ensures forall w :: w in s.dead && w != e.workerId ==> r.dead[w] == s.dead[w] && r.results[w] == s.results[w]
    // a dead worker stays dead
    ensures forall w :: w in s.dead && s.dead[w] ==> r.dead[w]
    // only an exit marks a worker dead or reports; only a COMPLETE changes a result
    ensures !e.Exit? ==> r.dead == s.dead && r.reports == s.reports
    ensures r.results != s.results ==> e.Message? && e.message.kind == COMPLETE && e.message.result.Some?
    // PROGRESS only advances the count; ERROR only halts, and only under abortOnFailure;
    // COMPLETE with a result replaces the sender's result
    ensures !s.aborted && e.Message? && e.message.kind == PROGRESS ==> r == s.(progress := s.progress + 1)
    ensures !s.aborted && (e.Fault? || (e.Message? && e.message.kind == ERROR)) ==> r == s.(aborted := st.abortOnFailure)
    ensures !s.aborted && e.Message? && e.message.kind == COMPLETE && e.message.result.Some?
      ==> r == s.(results := s.results[e.workerId := e.message.result.value])
    // a COMPLETE without a result changes nothing
    ensures !s.aborted && e.Message? && e.message.kind == COMPLETE && e.message.result.None? ==> r == s
    // an exit with a non-zero code is first an ERROR, which ends the process under
    // abortOnFailure; otherwise (and for code 0) the worker is marked dead
    ensures !s.aborted && e.Exit? ==>
      r == (if e.code != 0 && st.abortOnFailure then s.(aborted := true) else MarkDead(st, s, e.workerId))
    // an exit always marks the worker dead unless the run aborts first
    ensures e.Exit? && !r.aborted ==> r.dead[e.workerId]
    // a report is made only when the last record turns dead, and it is the tally of the results
    ensures r.reports == s.reports || (&& e.Exit? && AllDead(r.dead)
                                       && r.reports == s.reports + [Aggregate(st, r.results)])
    ensures !s.aborted && e.Exit? && !r.aborted && AllDead(r.dead) && !AllDead(s.dead)
      ==> r.reports == s.reports + [Aggregate(st, r.results)]
  {
    if s.aborted then s
    else
      match e
      case Message(w, message) => HandleMessage(st, s, w, message)
      case Fault(w, error) => HandleMessage(st, s, w, FaultMessage(error))
      case Exit(w, code) =>
        var s1 := if code != 0 then HandleMessage(st, s, w, ExitFaultMessage(code)) else s;
        if s1.aborted then s1 else MarkDead(st, s1, w)
  }

  predicate ForWorkers(st: Setting, events: seq<Event>)
  {
    forall k :: 0 <= k < |events| ==> events[k].workerId < st.workers
  }

  /** The state after the events are delivered one after the other. */
  function Run(st: Setting, s: MasterState, events: seq<Event>): (r: MasterState)
    requires WellFormed(st, s) && ForWorkers(st, events)
    ensures WellFormed(st, r)
  {
    if |events| == 0 then s
    else Step(st, Run(st, s, events[..|events| - 1]), events[|events| - 1])
  }

  // ---------------------------------------------------------------------
  // Properties of every sequence of events

  /** After `process.exit(1)` no event has any effect. */
  lemma {:induction false} AbortIsFinal(st: Setting, s: MasterState, events: seq<Event>)
    requires WellFormed(st, s) && ForWorkers(st, events) && s.aborted
    ensures Run(st, s, events) == s
  {
    if |events| > 0 {
      AbortIsFinal(st, s, events[..|events| - 1]);
    }
  }

  /** Without `abortOnFailure` the process is never ended: no event sets
      `aborted`. */
  lemma {:induction false} NeverAbortsWithoutAbortOnFailure(st: Setting, s: MasterState, events: seq<Event>)
    requires WellFormed(st, s) && ForWorkers(st, events)
    requires !st.abortOnFailure && !s.aborted
    ensures !Run(st, s, events).aborted
  {
    if |events| > 0 {
      NeverAbortsWithoutAbortOnFailure(st, s, events[..|events| - 1]);
    }
  }

  /** What a prefix of the events has done stays done: an exited process, a
      dead worker, the summaries already reported. */
  lemma {:induction false} PrefixIsKept(st: Setting, s: MasterState, events: seq<Event>, k: nat)
    requires WellFormed(st, s) && ForWorkers(st, events) && k <= |events|
    ensures var mid, r := Run(st, s, events[..k]), Run(st, s, events);
      && (mid.aborted ==> r.aborted)
      && (forall w :: w in mid.dead && mid.dead[w] ==> r.dead[w])
      && mid.reports <= r.reports
  {
    if k < |events| {
      var prefix := events[..|events| - 1];
      assert prefix[..k] == events[..k];
      PrefixIsKept(st, s, prefix, k);
    } else {
      assert events[..k] == events;
    }
  }

  /** A summary is reported only when every worker is dead: while any worker
      is alive, nothing is reported. */
  lemma {:induction false} ReportOnlyWhenAllDead(st: Setting, s: MasterState, events: seq<Event>)
    requires WellFormed(st, s) && ForWorkers(st, events)
    ensures s.reports <= Run(st, s, events).reports
    ensures |Run(st, s, events).reports| > |s.reports| ==> AllDead(Run(st, s, events).dead)
  {
    if |events| > 0 {
      var prev := Run(st, s, events[..|events| - 1]);
      ReportOnlyWhenAllDead(st, s, events[..|events| - 1]);
      var r := Run(st, s, events);
      if r.reports == prev.reports && |prev.reports| > |s.reports| {
        forall w | w in r.dead ensures r.dead[w] {
          assert w in prev.dead && prev.dead[w];
        }
      }
    }
  }

  /** The result of the last `COMPLETE` carrying a result that worker `w`
      sent, or `init` if it sent none. */
  function LastResult(events: seq<Event>, w: nat, init: TaskResult): TaskResult
  {
    if |events| == 0 then init
    else
      var e := events[|events| - 1];
      if e.Message? && e.workerId == w && e.message.kind == COMPLETE && e.message.result.Some?
      then e.message.result.value
      else LastResult(events[..|events| - 1], w, init)
  }

  /** A worker's record holds the result of its own latest `COMPLETE`, or its
      initial result when it sent none: no other worker's message and no
      other kind of message changes it. */
  lemma {:induction false} ResultFromOwnComplete(st: Setting, s: MasterState, events: seq<Event>, w: nat)
    requires WellFormed(st, s) && ForWorkers(st, events) && w < st.workers
    requires !Run(st, s, events).aborted
    ensures Run(st, s, events).results[w] == LastResult(events, w, s.results[w])
  {
    if |events| > 0 {
      var prefix := events[..|events| - 1];
      ResultFromOwnComplete(st, s, prefix, w);
    }
  }

  // ---------------------------------------------------------------------
  // The summary is reported exactly once

  /** How many times worker `w` exits in the events. */
  function ExitsOf(events: seq<Event>, w: nat): nat
  {
    if |events| == 0 then 0
    else ExitsOf(events[..|events| - 1], w) + (if events[|events| - 1].Exit? && events[|events| - 1].workerId == w then 1 else 0)
  }

  /** How many exits there are in the events. */
  function ExitCount(events: seq<Event>): nat
  {
    if |events| == 0 then 0
    else ExitCount(events[..|events| - 1]) + (if events[|events| - 1].Exit? then 1 else 0)
  }

  /** `ExitsOf` summed over workers `0 .. n-1`. */
  function ExitsOfFirst(events: seq<Event>, n: nat): nat
  {
    if n == 0 then 0 else ExitsOfFirst(events, n - 1) + ExitsOf(events, n - 1)
  }

  lemma {:induction false} ExitsOfFirstAdd(events: seq<Event>, e: Event, n: nat)
    requires e.Exit?
    ensures ExitsOfFirst(events + [e], n) == ExitsOfFirst(events, n) + (if e.workerId < n then 1 else 0)
  {
    if n > 0 {
      ExitsOfFirstAdd(events, e, n - 1);
      assert (events + [e])[..|events|] == events;
    }
  }

  lemma {:induction false} ExitsOfFirstSkip(events: seq<Event>, e: Event, n: nat)
    requires !e.Exit?
    ensures ExitsOfFirst(events + [e], n) == ExitsOfFirst(events, n)
  {
    if n > 0 {
      ExitsOfFirstSkip(events, e, n - 1);
      assert (events + [e])[..|events|] == events;
    }
  }

  /** Every exit belongs to one of the workers. */
  lemma {:induction false} ExitCountIsSum(st: Setting, events: seq<Event>)
    requires ForWorkers(st, events)
    ensures ExitCount(events) == ExitsOfFirst(events, st.workers)
  {
    if |events| > 0 {
      var prefix, e := events[..|events| - 1], events[|events| - 1];
      ExitCountIsSum(st, prefix);
      assert events == prefix + [e];
      assert e.workerId < st.workers;
      assert ExitCount(events) == ExitCount(prefix) + (if e.Exit? then 1 else 0);
      if e.Exit? { ExitsOfFirstAdd(prefix, e, st.workers); } else { ExitsOfFirstSkip(prefix, e, st.workers); }
      assert ExitsOfFirst(events, st.workers) == ExitsOfFirst(prefix + [e], st.workers);
    } else {
      NoExitsOfFirst(events, st.workers);
    }
  }

  lemma {:induction false} NoExitsOfFirst(events: seq<Event>, n: nat)
    requires |events| == 0
    ensures ExitsOfFirst(events, n) == 0
  {
    if n > 0 { NoExitsOfFirst(events, n - 1); }
  }

  lemma {:induction false} AllExitOnce(events: seq<Event>, n: nat)
    requires forall w: nat :: w < n ==> ExitsOf(events, w) == 1
    ensures ExitsOfFirst(events, n) == n
  {
    if n > 0 { AllExitOnce(events, n - 1); }
  }

  /** How many of the records of workers `0 .. n-1` are dead. */
  function DeadCount(dead: map<nat, bool>, n: nat): (c: nat)
    requires forall w: nat :: w < n ==> w in dead
    ensures c <= n
    ensures c == n <==> forall w: nat :: w < n ==> dead[w]
  {
    if n == 0 then 0 else DeadCount(dead, n - 1) + (if dead[n - 1] then 1 else 0)
  }

  lemma {:induction false} DeadCountMark(dead: map<nat, bool>, n: nat, w: nat)
    requires forall v: nat :: v < n ==> v in dead
    requires w < n && !dead[w]
    ensures DeadCount(dead[w := true], n) == DeadCount(dead, n) + 1
  {
    if n - 1 != w {
      DeadCountMark(dead, n - 1, w);
    } else {
      DeadCountUnchanged(dead, n - 1, w);
    }
  }

  lemma {:induction false} DeadCountNone(dead: map<nat, bool>, n: nat)
    requires forall v: nat :: v < n ==> v in dead && !dead[v]
    ensures DeadCount(dead, n) == 0
  {
    if n > 0 { DeadCountNone(dead, n - 1); }
  }

  lemma {:induction false} DeadCountUnchanged(dead: map<nat, bool>, n: nat, w: nat)
    requires forall v: nat :: v < n ==> v in dead
    requires n <= w
    ensures DeadCount(dead[w := true], n) == DeadCount(dead, n)
  {
    if n > 0 { DeadCountUnchanged(dead, n - 1, w); }
  }

  /** An exit that does not stop the process marks its worker dead. */
  lemma ExitMarksDead(st: Setting, s: MasterState, e: Event)
    requires WellFormed(st, s) && e.Exit? && e.workerId < st.workers
    requires !s.aborted && !Step(st, s, e).aborted
    ensures Step(st, s, e) == MarkDead(st, s, e.workerId)
  {
  }

  /** Marking a live worker dead adds one to the dead count, and reports a
      summary exactly when that makes every worker dead. */
  lemma MarkDeadCount(st: Setting, s: MasterState, w: nat)
    requires WellFormed(st, s) && w < st.workers && !s.dead[w]
    ensures var r := MarkDead(st, s, w);
      && r.dead == s.dead[w := true]
      && DeadCount(r.dead, st.workers) == DeadCount(s.dead, st.workers) + 1
      && |r.reports| == |s.reports| + (if DeadCount(r.dead, st.workers) == st.workers then 1 else 0)
  {
    DeadCountMark(s.dead, st.workers, w);
  }

  /** Over any events in which no worker exits twice and the run does not
      abort, starting with every worker alive and nothing reported: a worker
      is dead exactly when it has exited, and one summary has been reported
      once all workers have exited, none before. */
  lemma {:induction false} ExitBookkeeping(st: Setting, s: MasterState, events: seq<Event>)
    requires WellFormed(st, s) && ForWorkers(st, events) && st.workers > 0
    requires forall w: nat :: w < st.workers ==> !s.dead[w]
    requires s.reports == []
    requires forall w: nat :: ExitsOf(events, w) <= 1
    requires !Run(st, s, events).aborted
    ensures var r := Run(st, s, events);
      && (forall w: nat :: w < st.workers ==> (r.dead[w] <==> ExitsOf(events, w) == 1))
      && DeadCount(r.dead, st.workers) == ExitCount(events)
      && |r.reports| == (if ExitCount(events) == st.workers then 1 else 0)
  {
    if |events| > 0 {
      var prefix, e := events[..|events| - 1], events[|events| - 1];
      var prev, r := Run(st, s, prefix), Run(st, s, events);
      assert !prev.aborted;
      forall w: nat ensures ExitsOf(prefix, w) <= 1 {
        assert ExitsOf(prefix, w) <= ExitsOf(events, w);
      }
      ExitBookkeeping(st, s, prefix);
      assert ExitCount(events) == ExitCount(prefix) + (if e.Exit? then 1 else 0);
      if e.Exit? {
        var w0 := e.workerId;
        assert ExitsOf(events, w0) == ExitsOf(prefix, w0) + 1;
        ExitMarksDead(st, prev, e);
        MarkDeadCount(st, prev, w0);
        forall w: nat | w < st.workers ensures r.dead[w] <==> ExitsOf(events, w) == 1 {
          if w != w0 {
            assert ExitsOf(events, w) == ExitsOf(prefix, w);
          }
        }
      } else {
        forall w: nat ensures ExitsOf(events, w) == ExitsOf(prefix, w) {}
        assert r.dead == prev.dead && r.reports == prev.reports;
      }
    } else {
      DeadCountNone(s.dead, st.workers);
    }
  }

  /** When every worker exits exactly once and the run does not abort, exactly
      one summary is reported, and it tallies the records: `succeeded` plus
      `failed` is the number of files. */
  lemma ExactlyOneReport(st: Setting, s: MasterState, events: seq<Event>)
    requires WellFormed(st, s) && ForWorkers(st, events) && st.workers > 0
    requires forall w: nat :: w < st.workers ==> !s.dead[w]
    requires s.reports == []
    requires forall w: nat :: w < st.workers ==> ExitsOf(events, w) == 1
    requires !Run(st, s, events).aborted
    ensures AllDead(Run(st, s, events).dead)
    ensures |Run(st, s, events).reports| == 1
    ensures Run(st, s, events).reports[0].succeeded + Run(st, s, events).reports[0].failed == st.totalFiles
  {
    forall w: nat ensures ExitsOf(events, w) <= 1 {
      if w >= st.workers { NoExitsOfOthers(st, events, w); }
    }
    ExitBookkeeping(st, s, events);
    ExitCountIsSum(st, events);
    AllExitOnce(events, st.workers);
    ReportOnlyWhenAllDead(st, s, events);
    var r := Run(st, s, events);
    assert r.reports[0] in r.reports;
    ReportsAreTallies(st, s, events);
  }

  lemma {:induction false} NoExitsOfOthers(st: Setting, events: seq<Event>, w: nat)
    requires ForWorkers(st, events) && w >= st.workers
    ensures ExitsOf(events, w) == 0
  {
    if |events| > 0 { NoExitsOfOthers(st, events[..|events| - 1], w); }
  }

  /** Every summary counts each file once: `succeeded + failed` is the
      number of files. */
  predicate Tallied(st: Setting, reports: seq<Summary>)
  {
    forall k :: 0 <= k < |reports| ==> reports[k].succeeded + reports[k].failed == st.totalFiles
  }

  /** Every summary reported counts each file once. */
  lemma {:induction false} ReportsAreTallies(st: Setting, s: MasterState, events: seq<Event>)
    requires WellFormed(st, s) && ForWorkers(st, events) && Tallied(st, s.reports)
    ensures Tallied(st, Run(st, s, events).reports)
  {
    if |events| > 0 {
      var prefix := events[..|events| - 1];
      ReportsAreTallies(st, s, prefix);
      var prev, r := Run(st, s, prefix), Run(st, s, events);
      if r.reports != prev.reports {
        assert r.reports == prev.reports + [Aggregate(st, r.results)];
      }
    }
  }

  // ---------------------------------------------------------------------
  // The summary of a complete run

  /** A worker sends nothing after its own exit. */
  predicate SilentAfterExit(events: seq<Event>)
  {
    forall i, j :: 0 <= i < j < |events| && events[i].Exit? ==> events[j].workerId != events[i].workerId
  }

  lemma {:induction false} AtMostOnceEach(events: seq<Event>, n: nat)
    requires forall w: nat :: w < n ==> ExitsOf(events, w) <= 1
    ensures ExitsOfFirst(events, n) <= n
    ensures ExitsOfFirst(events, n) == n ==> forall w: nat :: w < n ==> ExitsOf(events, w) == 1
  {
    if n > 0 { AtMostOnceEach(events, n - 1); }
  }

  lemma {:induction false} ExitIndex(events: seq<Event>, w: nat) returns (i: nat)
    requires ExitsOf(events, w) >= 1
    ensures i < |events| && events[i].Exit? && events[i].workerId == w
  {
    var last := events[|events| - 1];
    if last.Exit? && last.workerId == w {
      i := |events| - 1;
    } else {
      i := ExitIndex(events[..|events| - 1], w);
    }
  }

  /** When every worker exits exactly once, sends nothing after its exit and
      the run does not abort, the run ends with exactly one summary, and it is
      the tally of the final records. */
  lemma {:induction false} FinalReport(st: Setting, s: MasterState, events: seq<Event>)
    requires WellFormed(st, s) && ForWorkers(st, events) && st.workers > 0
    requires forall w: nat :: w < st.workers ==> !s.dead[w]
    requires s.reports == []
    requires forall w: nat :: w < st.workers ==> ExitsOf(events, w) == 1
    requires SilentAfterExit(events)
    requires !Run(st, s, events).aborted
    ensures Run(st, s, events).reports == [Aggregate(st, Run(st, s, events).results)]
  {
    forall w: nat ensures ExitsOf(events, w) <= 1 {
      if w >= st.workers { NoExitsOfOthers(st, events, w); }
    }
    ExitCountIsSum(st, events);
    AllExitOnce(events, st.workers);
    if |events| == 0 {
      assert false;
    }
    var prefix, e := events[..|events| - 1], events[|events| - 1];
    forall w: nat ensures ExitsOf(prefix, w) <= 1 {
      assert ExitsOf(prefix, w) <= ExitsOf(events, w);
    }
    ExitCountIsSum(st, prefix);
    AtMostOnceEach(prefix, st.workers);
    if !e.Exit? {
      assert ExitCount(prefix) == st.workers;
      var i := ExitIndex(prefix, e.workerId);
      assert false;
    }
    assert ExitCount(prefix) + 1 == st.workers;
    var prev, r := Run(st, s, prefix), Run(st, s, events);
    assert !prev.aborted;
    ExitBookkeeping(st, s, prefix);
    ExitBookkeeping(st, s, events);
  }

  /** Without `abortOnFailure`, when every worker exits exactly once and
      sends nothing after its exit, the run ends with exactly one summary:
      the aggregate of the final records, counting every file once. */
  lemma SummaryWithoutAbort(st: Setting, s: MasterState, events: seq<Event>)
    requires WellFormed(st, s) && ForWorkers(st, events) && st.workers > 0
    requires forall w: nat :: w < st.workers ==> !s.dead[w]
    requires s.reports == [] && !s.aborted && !st.abortOnFailure
    requires forall w: nat :: w < st.workers ==> ExitsOf(events, w) == 1
    requires SilentAfterExit(events)
    ensures Run(st, s, events).reports == [Aggregate(st, Run(st, s, events).results)]
    ensures Run(st, s, events).reports[0].succeeded + Run(st, s, events).reports[0].failed == st.totalFiles
  {
    NeverAbortsWithoutAbortOnFailure(st, s, events);
    FinalReport(st, s, events);
  }
}
