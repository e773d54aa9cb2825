/**
  Historical processing (packages/util/src/job-runner.ts, packages/util/src/events.ts): jobs fetch the
  logs of one range of blocks after the other, and can be restarted at an earlier block.
*/
module HistoricalJobs {
  import opened BlockTree
  import opened Wrappers

  const DEFAULT_HISTORICAL_LOGS_BLOCK_RANGE: nat := 2000
  const DEFAULT_HISTORICAL_MAX_FETCH_AHEAD: nat := 20000

  datatype Job = Job(start: int, end: int)

  /** `fetched`: the block numbers whose logs were fetched and kept, in order. `saved` are the numbers of
      the blocks that had logs, and `complete` those of them whose events are processed. `chainHead` is
      the number in the sync status, if there is one. */
  datatype State = State(completedUpto: Option<int>, fetched: seq<int>, saved: set<int>, complete: set<int>,
      chainHead: Option<int>)

  datatype Outcome = Accepted(endBlock: int) | Rejected | ResetFailed | SaveFailed | Aborted

  /** The numbers from `lo` up to, but not including, `hi`. */
  function Interval(lo: int, hi: int): (r: seq<int>)
    decreases hi - lo
  {
    if hi <= lo then [] else Interval(lo, hi - 1) + [hi - 1]
  }

  /** `if (this._historicalProcessingCompletedUpto)`: zero does not count. */
  predicate Known(completedUpto: Option<int>) {
    completedUpto.Some? && completedUpto.value != 0
  }

  function Min(a: int, b: int): int {
    if a <= b then a else b
  }

  function UpTo(numbers: seq<int>, n: int): seq<int> {
    if numbers == [] then []
    else UpTo(numbers[..|numbers| - 1], n) + if numbers[|numbers| - 1] <= n then [numbers[|numbers| - 1]] else []
  }

  /** resetWatcherToBlock needs a complete block at the height it resets to. */
  predicate CanReset(s: State, n: int) {
    n in s.saved && n in s.complete
  }

  function AtMost(numbers: set<int>, n: int): set<int> {
    set b | b in numbers && b <= n
  }

  function ResetTo(s: State, n: int): State {
    s.(fetched := UpTo(s.fetched, n), saved := AtMost(s.saved, n), complete := AtMost(s.complete, n),
        chainHead := Some(n))
  }

  function InRange(logs: set<int>, lo: int, hi: int): set<int> {
    set b | b in logs && lo <= b <= hi
  }

  /** Fetches the logs of the first blocks of the job; `logs` are the numbers of the blocks that have some. */
  function Fetch(s: State, logs: set<int>, range: nat, job: Job): (State, Outcome) {
    var endBlock := Min(job.start + range, job.end);
    var found := InRange(logs, job.start, endBlock);
    if found * s.saved != {} then (s, SaveFailed)
    else
      (s.(fetched := s.fetched + Interval(job.start, endBlock + 1), saved := s.saved + found,
          completedUpto := Some(endBlock), chainHead := Some(endBlock)), Accepted(endBlock))
  }

  /** A job that starts before the last completed block. */
  predicate Restarts(s: State, job: Job) {
    Known(s.completedUpto) && job.start < s.completedUpto.value
  }

  /** processHistoricalBlocks, as long as no processing of events has failed. */
  function Process(s: State, logs: set<int>, range: nat, job: Job): (State, Outcome) {
    if !Known(s.completedUpto) then Fetch(s, logs, range, job)
    else if Restarts(s, job) then
      if CanReset(s, job.start - 1) then Fetch(ResetTo(s, job.start - 1), logs, range, job) else (s, ResetFailed)
    else if job.start - 1 != s.completedUpto.value then (s, Rejected)
    else Fetch(s, logs, range, job)
  }

  /** Saving fails exactly if a block with logs in the batch is saved already; then nothing changes. */
  lemma SaveFailsExact(s: State, logs: set<int>, range: nat, job: Job)
    ensures var (t, outcome) := Fetch(s, logs, range, job);
      && (outcome == SaveFailed
          <==> exists b | b in logs && b in s.saved :: job.start <= b <= job.start + range && b <= job.end)
      && (outcome == SaveFailed ==> t == s)
  {
    var found := InRange(logs, job.start, Min(job.start + range, job.end));
    if b :| b in found * s.saved {
      assert b in logs && b in s.saved;
    }
    assert forall b | b in logs && b in s.saved && job.start <= b <= job.start + range && b <= job.end ::
        b in found * s.saved;
  }

  /** Before the first completed block every job is taken as it comes, and a completed block 0 counts as
      none. */
  lemma ZeroIsNone(s: State, logs: set<int>, range: nat, job: Job)
    requires s.completedUpto == None || s.completedUpto == Some(0)
    ensures Process(s, logs, range, job) == Fetch(s, logs, range, job)
  {}

  /** A reset leaves exactly what is at or below its block, which is the chain head then. */
  lemma {:induction false} ResetExact(s: State, n: int, b: int)
    ensures var t := ResetTo(s, n);
      && (b in t.saved <==> b in s.saved && b <= n) && (b in t.complete <==> b in s.complete && b <= n)
      && (b in t.fetched <==> b in s.fetched && b <= n)
      && t.chainHead == Some(n) && t.completedUpto == s.completedUpto
  {
    UpToExact(s.fetched, n, b);
  }

  lemma {:induction false} UpToExact(numbers: seq<int>, n: int, b: int)
    ensures b in UpTo(numbers, n) <==> b in numbers && b <= n
  {
    if numbers != [] {
      UpToExact(numbers[..|numbers| - 1], n, b);
      assert b in numbers <==> b in numbers[..|numbers| - 1] || b == numbers[|numbers| - 1];
    }
  }

  // ---- Runs ----

  datatype Step = ProcessJob(job: Job) | EventsProcessed(n: int)

  predicate Enabled(step: Step) {
    step.ProcessJob? ==> 1 <= step.job.start <= step.job.end
  }

  function Next(s: State, logs: set<int>, range: nat, step: Step): State {
    match step
    case ProcessJob(job) => Process(s, logs, range, job).0
    case EventsProcessed(n) => s.(complete := s.complete + {n})
  }

  ghost predicate Run(s: State, logs: set<int>, range: nat, steps: seq<Step>, t: State)
    decreases |steps|
  {
    if steps == [] then t == s else Enabled(steps[0]) && Run(Next(s, logs, range, steps[0]), logs, range, steps[1..], t)
  }

  ghost predicate Init(s: State) {
    s.completedUpto == None && s.fetched == [] && s.saved == {}
  }

  /** Nothing is fetched, or exactly the numbers from the first one to the last completed, each once. */
  ghost predicate Inv(s: State, logs: set<int>) {
    match s.completedUpto
    case None => s.fetched == [] && s.saved == {}
    case Some(upto) =>
      && upto >= 1 && s.fetched != [] && 1 <= s.fetched[0] <= upto && s.chainHead == Some(upto)
      && s.fetched == Interval(s.fetched[0], upto + 1)
      && s.saved == InRange(logs, s.fetched[0], upto)
  }

  lemma {:induction false} IntervalAt(lo: int, hi: int)
    requires lo <= hi
    ensures |Interval(lo, hi)| == hi - lo && forall i | 0 <= i < hi - lo :: Interval(lo, hi)[i] == lo + i
    decreases hi - lo
  {
    if lo < hi {
      IntervalAt(lo, hi - 1);
    }
  }

  lemma {:induction false} IntervalAppend(lo: int, mid: int, hi: int)
    requires lo <= mid <= hi
    ensures Interval(lo, mid) + Interval(mid, hi) == Interval(lo, hi)
    decreases hi - mid
  {
    if mid < hi {
      IntervalAppend(lo, mid, hi - 1);
      assert Interval(lo, mid) + Interval(mid, hi) == (Interval(lo, mid) + Interval(mid, hi - 1)) + [hi - 1];
    } else {
      assert Interval(lo, mid) + [] == Interval(lo, mid);
    }
  }

  lemma {:induction false} UpToInterval(lo: int, hi: int, n: int)
    requires lo <= hi && lo <= n + 1
    ensures UpTo(Interval(lo, hi), n) == Interval(lo, Min(n + 1, hi))
    decreases hi - lo
  {
    if lo < hi {
      UpToInterval(lo, hi - 1, n);
      assert Interval(lo, hi)[..|Interval(lo, hi)| - 1] == Interval(lo, hi - 1);
    }
  }

  /** Fetching from where the kept interval ends extends it; no block is saved twice. */
  lemma FetchKeeps(s: State, logs: set<int>, range: nat, job: Job, first: int)
    requires 1 <= first <= job.start <= job.end
    requires s.fetched == Interval(first, job.start) && s.saved == InRange(logs, first, job.start - 1)
    ensures var (t, outcome) := Fetch(s, logs, range, job); var endBlock := Min(job.start + range, job.end);
      && outcome == Accepted(endBlock) && t.completedUpto == Some(endBlock) && Inv(t, logs)
      && t.fetched == Interval(first, endBlock + 1) && t.fetched[0] == first
  {
    var endBlock := Min(job.start + range, job.end);
    IntervalAppend(first, job.start, endBlock + 1);
    IntervalAt(first, endBlock + 1);
    assert InRange(logs, first, endBlock) == s.saved + InRange(logs, job.start, endBlock);
  }

  lemma ResetKept(s: State, logs: set<int>, n: int)
    requires Inv(s, logs) && s.completedUpto.Some? && n in s.saved && n < s.completedUpto.value
    ensures s.fetched[0] <= n
    ensures var t := ResetTo(s, n);
      t.fetched == Interval(s.fetched[0], n + 1) && t.saved == InRange(logs, s.fetched[0], n)
  {
    UpToInterval(s.fetched[0], s.completedUpto.value + 1, n);
  }

  lemma RestartKeeps(s: State, logs: set<int>, range: nat, job: Job)
    requires Inv(s, logs) && 1 <= job.start <= job.end && s.completedUpto.Some? && job.start < s.completedUpto.value
    ensures var (t, outcome) := Process(s, logs, range, job);
      var endBlock := Min(job.start + range, job.end);
      if CanReset(s, job.start - 1)
      then
        && outcome == Accepted(endBlock) && t.completedUpto == Some(endBlock)
        && Inv(t, logs) && t.fetched[0] == s.fetched[0]
      else t == s && !outcome.Accepted? && outcome != SaveFailed
  {
    if CanReset(s, job.start - 1) {
      ResetKept(s, logs, job.start - 1);
      FetchKeeps(ResetTo(s, job.start - 1), logs, range, job, s.fetched[0]);
    }
  }

  /** What a job does in a state reached by jobs: it is refused, or its first block follows the last kept
      one and the kept interval grows by the batch. */
  lemma JobKeeps(s: State, logs: set<int>, range: nat, job: Job)
    requires Inv(s, logs) && 1 <= job.start <= job.end
    ensures var (t, outcome) := Process(s, logs, range, job);
      && Inv(t, logs) && outcome != SaveFailed
      && (if outcome.Accepted?
          then t.completedUpto == Some(outcome.endBlock) && outcome.endBlock == Min(job.start + range, job.end)
          else t == s && s.fetched != [])
      && (t.fetched[0] == if s.fetched == [] then job.start else s.fetched[0])
  {
    if s.completedUpto.None? {
      FetchKeeps(s, logs, range, job, job.start);
    } else if job.start < s.completedUpto.value {
      RestartKeeps(s, logs, range, job);
    } else if job.start - 1 == s.completedUpto.value {
      FetchKeeps(s, logs, range, job, s.fetched[0]);
    }
  }

  /** A job is accepted exactly if it is the first one, if it follows the last completed block, or if it starts
      before that block and the watcher can be reset to the block before its start. */
  lemma JobAcceptedExact(s: State, logs: set<int>, range: nat, job: Job)
    requires Inv(s, logs) && 1 <= job.start <= job.end
    ensures Process(s, logs, range, job).1.Accepted?
      <==> match s.completedUpto
           case None => true
           case Some(upto) =>
             job.start == upto + 1 || (job.start < upto && job.start - 1 in s.saved && job.start - 1 in s.complete)
    ensures Process(s, logs, range, job).1 == Rejected
      <==> s.completedUpto.Some? && job.start >= s.completedUpto.value && job.start != s.completedUpto.value + 1
  {
    JobKeeps(s, logs, range, job);
    if s.completedUpto.None? {
      FetchKeeps(s, logs, range, job, job.start);
    } else if job.start < s.completedUpto.value {
      RestartKeeps(s, logs, range, job);
    } else if job.start == s.completedUpto.value + 1 {
      FetchKeeps(s, logs, range, job, s.fetched[0]);
    }
  }

  /** The start of the first job of a run. */
  function FirstStart(steps: seq<Step>): Option<int> {
    if steps == [] then None else if steps[0].ProcessJob? then Some(steps[0].job.start) else FirstStart(steps[1..])
  }

  lemma {:induction false} RunKeeps(s: State, logs: set<int>, range: nat, steps: seq<Step>, t: State)
    requires Inv(s, logs) && Run(s, logs, range, steps, t)
    ensures Inv(t, logs)
    ensures s.fetched != [] ==> t.fetched != [] && t.fetched[0] == s.fetched[0]
    ensures s.fetched == [] ==> if FirstStart(steps).None? then t.fetched == []
        else t.fetched != [] && FirstStart(steps) == Some(t.fetched[0])
    decreases |steps|
  {
    if steps != [] {
      if steps[0].ProcessJob? {
        JobKeeps(s, logs, range, steps[0].job);
      }
      RunKeeps(Next(s, logs, range, steps[0]), logs, range, steps[1..], t);
    }
  }

  /** In every run, with restarts at earlier blocks, the numbers fetched and kept are those from the start
      of the first job to the last completed one, in order and each once. */
  lemma FetchedExactly(s: State, logs: set<int>, range: nat, steps: seq<Step>, t: State)
    requires Init(s) && Run(s, logs, range, steps, t) && FirstStart(steps).Some?
    ensures t.completedUpto.Some?
    ensures var first, upto := FirstStart(steps).value, t.completedUpto.value;
      |t.fetched| == upto + 1 - first && forall i | 0 <= i < |t.fetched| :: t.fetched[i] == first + i
  {
    RunKeeps(s, logs, range, steps, t);
    IntervalAt(t.fetched[0], t.completedUpto.value + 1);
  }

  // ---- Progress ----

  /** A job followed by the jobs it pushes. */
  function Batches(s: State, logs: set<int>, range: nat, job: Job): State
    requires job.start <= job.end
    decreases job.end - job.start
  {
    var (t, outcome) := Process(s, logs, range, job);
    if outcome.Accepted? && job.start <= outcome.endBlock < job.end
    then Batches(t, logs, range, Job(outcome.endBlock + 1, job.end))
    else t
  }

  /** Once its first batch is accepted, a chain of batches gets to the end block. */
  lemma {:induction false} BatchesReachEnd(s: State, logs: set<int>, range: nat, job: Job)
    requires Inv(s, logs) && 1 <= job.start <= job.end && Process(s, logs, range, job).1.Accepted?
    ensures var t := Batches(s, logs, range, job); Inv(t, logs) && t.completedUpto == Some(job.end)
    decreases job.end - job.start
  {
    JobKeeps(s, logs, range, job);
    var (t, outcome) := Process(s, logs, range, job);
    if outcome.endBlock < job.end {
      var next := Job(outcome.endBlock + 1, job.end);
      FetchKeeps(t, logs, range, next, t.fetched[0]);
      BatchesReachEnd(t, logs, range, next);
    }
  }

  // ---- The jobs that are made ----

  /** startBlockProcessing: the next historical job, for the number of the latest block upstream. */
  function NextJob(s: State, latest: nat, historicalMaxFetchAhead: Option<int>): Option<Job> {
    var start := if s.chainHead.Some? then s.chainHead.value + 1 else latest;
    var canonical := latest - MAX_REORG_DEPTH;
    var ahead := if historicalMaxFetchAhead.Some? then historicalMaxFetchAhead.value
        else DEFAULT_HISTORICAL_MAX_FETCH_AHEAD;
    if start >= canonical then None
    else Some(Job(start, if ahead > 0 then Min(start + ahead, canonical) else canonical))
  }

  /** The next job starts after the chain head, or at the latest block if there is none, and ends 16 blocks
      before the latest one, or earlier only to stay within the limit; there is none if that is no block
      ahead. */
  lemma NextJobExact(s: State, latest: nat, historicalMaxFetchAhead: Option<int>, start: int, end: int)
    ensures NextJob(s, latest, historicalMaxFetchAhead) == None
      <==> latest - 16 <= match s.chainHead case Some(head) => head + 1 case None => latest
    ensures NextJob(s, latest, historicalMaxFetchAhead) == Some(Job(start, end)) ==>
              var ahead := match historicalMaxFetchAhead case Some(n) => n case None => 20000;
              && (s.chainHead == Some(start - 1) || (s.chainHead == None && start == latest))
              && start <= end <= latest - 16 && (ahead > 0 ==> end <= start + ahead)
              && (end < latest - 16 ==> ahead > 0 && end == start + ahead)
  {}

  /** The job that starts the next stretch follows the last one: it is accepted. */
  lemma NextJobAccepted(s: State, logs: set<int>, range: nat, latest: nat, historicalMaxFetchAhead: Option<int>)
    requires Inv(s, logs) && s.completedUpto.Some?
    ensures match NextJob(s, latest, historicalMaxFetchAhead)
      case None => latest - MAX_REORG_DEPTH <= s.completedUpto.value + 1
      case Some(job) =>
        1 <= job.start <= job.end && Process(s, logs, range, job).1 == Accepted(Min(job.start + range, job.end))
  {
    match NextJob(s, latest, historicalMaxFetchAhead)
    case None =>
    case Some(job) => FetchKeeps(s, logs, range, job, s.fetched[0]);
  }

  /** The job runner with its queue of historical jobs; `lastEnd` is the end block of the last job that was
      not refused. */
  datatype Queue = Queue(s: State, jobs: set<Job>, lastEnd: int)

  datatype QueueStep =
    | StartProcessing(latest: nat, historicalMaxFetchAhead: Option<int>)
    | TakeJob(job: Job)
    | Processed(n: int)
    | RestartAfter(n: int)

  /** A restart comes from the block whose events were just processed and watched a new contract. Taking a
      job does not remove it: it may be tried again. */
  predicate QueueEnabled(q: Queue, step: QueueStep) {
    match step
    case StartProcessing(_, _) => true
    case TakeJob(job) => job in q.jobs
    case Processed(_) => true
    case RestartAfter(n) => n in q.s.saved && n in q.s.complete
  }

  /** After the events of block n: the jobs that wait are deleted and one for the block after n is pushed,
      if processing has got further than n. */
  function RestartJob(q: Queue, n: int): Option<Job> {
    if Known(q.s.completedUpto) && q.s.completedUpto.value > n then Some(Job(n + 1, q.lastEnd)) else None
  }

  function QueueNext(q: Queue, logs: set<int>, range: nat, step: QueueStep): Queue {
    match step
    case StartProcessing(latest, ahead) =>
      var job := NextJob(q.s, latest, ahead);
      if job.Some? then q.(jobs := q.jobs + {job.value}) else q
    case TakeJob(job) =>
      var (t, outcome) := Process(q.s, logs, range, job);
      if outcome.Accepted? then
        Queue(t, if outcome.endBlock < job.end then q.jobs + {Job(outcome.endBlock + 1, job.end)} else q.jobs, job.end)
      else q.(s := t)
    case Processed(n) => q.(s := Next(q.s, logs, range, EventsProcessed(n)))
    case RestartAfter(n) => if RestartJob(q, n).Some? then q.(jobs := {RestartJob(q, n).value}) else q
  }

  ghost predicate QueueRun(q: Queue, logs: set<int>, range: nat, steps: seq<QueueStep>, r: Queue)
    decreases |steps|
  {
    if steps == [] then r == q
    else QueueEnabled(q, steps[0]) && QueueRun(QueueNext(q, logs, range, steps[0]), logs, range, steps[1..], r)
  }

  ghost predicate QueueInit(q: Queue) {
    Init(q.s) && q.jobs == {} && (q.s.chainHead.Some? ==> q.s.chainHead.value >= 0)
  }

  ghost predicate QueueInv(q: Queue, logs: set<int>) {
    && Inv(q.s, logs) && (q.s.chainHead.Some? ==> q.s.chainHead.value >= 0)
    && (forall job | job in q.jobs :: 1 <= job.start <= job.end)
    && (q.s.completedUpto.Some? ==> q.s.completedUpto.value <= q.lastEnd)
  }

  lemma TakeKeeps(q: Queue, logs: set<int>, range: nat, job: Job)
    requires QueueInv(q, logs) && job in q.jobs
    ensures QueueInv(QueueNext(q, logs, range, TakeJob(job)), logs)
  {
    JobKeeps(q.s, logs, range, job);
  }

  lemma QueueStepKeeps(q: Queue, logs: set<int>, range: nat, step: QueueStep)
    requires QueueInv(q, logs) && QueueEnabled(q, step)
    ensures QueueInv(QueueNext(q, logs, range, step), logs)
  {
    match step
    case StartProcessing(_, _) =>
    case TakeJob(job) => TakeKeeps(q, logs, range, job);
    case Processed(_) =>
    case RestartAfter(_) =>
  }

  lemma {:induction false} QueueRunKeeps(q: Queue, logs: set<int>, range: nat, steps: seq<QueueStep>, r: Queue)
    requires QueueInv(q, logs) && QueueRun(q, logs, range, steps, r)
    ensures QueueInv(r, logs)
    decreases |steps|
  {
    if steps != [] {
      QueueStepKeeps(q, logs, range, steps[0]);
      QueueRunKeeps(QueueNext(q, logs, range, steps[0]), logs, range, steps[1..], r);
    }
  }

  /** Every job that is ever pushed starts at block 1 or later and does not end before it starts. */
  lemma JobsInOrder(q: Queue, logs: set<int>, range: nat, steps: seq<QueueStep>, r: Queue, job: Job)
    requires QueueInit(q) && QueueRun(q, logs, range, steps, r) && job in r.jobs
    ensures 1 <= job.start <= job.end
  {
    QueueRunKeeps(q, logs, range, steps, r);
  }

  /** The steps of the queue without its jobs make a run of jobs. */
  lemma {:induction false} QueueRunIsRun(q: Queue, logs: set<int>, range: nat, steps: seq<QueueStep>, r: Queue)
    returns (taken: seq<Step>)
    requires QueueInv(q, logs) && QueueRun(q, logs, range, steps, r)
    ensures Run(q.s, logs, range, taken, r.s)
    decreases |steps|
  {
    taken := [];
    if steps != [] {
      QueueStepKeeps(q, logs, range, steps[0]);
      var next := QueueNext(q, logs, range, steps[0]);
      taken := QueueRunIsRun(next, logs, range, steps[1..], r);
      if steps[0].TakeJob? || steps[0].Processed? {
        var step := if steps[0].TakeJob? then ProcessJob(steps[0].job) else EventsProcessed(steps[0].n);
        assert next.s == Next(q.s, logs, range, step);
        assert ([step] + taken)[1..] == taken;
        taken := [step] + taken;
      }
    }
  }

  /** In every run of the job runner with its queue, a restart after block n is accepted exactly if n is at
      least two behind the last completed block; then the blocks after n are fetched again. Directly behind
      it the restart is refused, and the logs of the last completed block are not fetched for the new
      contract. */
  lemma RestartExact(q: Queue, logs: set<int>, range: nat, steps: seq<QueueStep>, r: Queue, n: int)
    requires QueueInit(q) && QueueRun(q, logs, range, steps, r)
    requires QueueEnabled(r, RestartAfter(n)) && RestartJob(r, n).Some?
    ensures r.s.completedUpto.Some? && r.s.fetched != []
    ensures var (t, outcome) := Process(r.s, logs, range, RestartJob(r, n).value);
      && (outcome.Accepted? <==> n + 1 < r.s.completedUpto.value)
      && if outcome.Accepted? then t.fetched == Interval(r.s.fetched[0], outcome.endBlock + 1) && n < outcome.endBlock
         else t == r.s
    ensures RestartJob(r, n) == Some(Job(n + 1, r.lastEnd)) && n + 1 <= r.lastEnd
  {
    QueueRunKeeps(q, logs, range, steps, r);
    var job := RestartJob(r, n).value;
    JobKeeps(r.s, logs, range, job);
    if n + 1 < r.s.completedUpto.value {
      ResetKept(r.s, logs, n);
      FetchKeeps(ResetTo(r.s, n), logs, range, job, r.s.fetched[0]);
    }
  }

  /** Which jobs wait after a step: a batch that is not the last pushes the rest of its job, and a restart
      leaves only its own. */
  lemma JobsAfterExact(q: Queue, logs: set<int>, range: nat, step: QueueStep, job: Job)
    requires QueueInv(q, logs) && QueueEnabled(q, step)
    ensures job in QueueNext(q, logs, range, step).jobs
      <==> match step
           case StartProcessing(latest, ahead) => job in q.jobs || NextJob(q.s, latest, ahead) == Some(job)
           case TakeJob(taken) =>
             || job in q.jobs
             || (Process(q.s, logs, range, taken).1.Accepted? && taken.start + range < taken.end
                 && job == Job(taken.start + range + 1, taken.end))
           case Processed(_) => job in q.jobs
           case RestartAfter(n) =>
             if q.s.completedUpto.Some? && n < q.s.completedUpto.value then job == Job(n + 1, q.lastEnd)
             else job in q.jobs
  {
    if step.TakeJob? {
      JobKeeps(q.s, logs, range, step.job);
    }
  }

  /** Working off an accepted job and the jobs it pushes gets to its end block. */
  lemma {:induction false} QueueReachesEnd(q: Queue, logs: set<int>, range: nat, job: Job)
    returns (steps: seq<QueueStep>, r: Queue)
    requires QueueInv(q, logs) && job in q.jobs && Process(q.s, logs, range, job).1.Accepted?
    ensures QueueRun(q, logs, range, steps, r) && QueueInv(r, logs)
    ensures r.s.completedUpto == Some(job.end) && r.lastEnd == job.end
    decreases job.end - job.start
  {
    var next := QueueNext(q, logs, range, TakeJob(job));
    TakeKeeps(q, logs, range, job);
    JobKeeps(q.s, logs, range, job);
    var endBlock := Min(job.start + range, job.end);
    if endBlock == job.end {
      steps, r := [TakeJob(job)], next;
      assert [TakeJob(job)][1..] == [];
    } else {
      var rest := Job(endBlock + 1, job.end);
      FetchKeeps(next.s, logs, range, rest, next.s.fetched[0]);
      var more;
      more, r := QueueReachesEnd(next, logs, range, rest);
      steps := [TakeJob(job)] + more;
      assert steps[1..] == more;
    }
  }

  /** So does a restart that is accepted, up to the end block of the last job: with the jobs it leaves, the
      queue gets there again. */
  lemma RestartReachesEnd(q: Queue, logs: set<int>, range: nat, n: int) returns (steps: seq<QueueStep>, r: Queue)
    requires QueueInv(q, logs) && QueueEnabled(q, RestartAfter(n))
    requires q.s.completedUpto.Some? && n + 1 < q.s.completedUpto.value
    ensures steps != [] && steps[0] == RestartAfter(n) && QueueRun(q, logs, range, steps, r)
    ensures r.s.completedUpto == Some(q.lastEnd)
  {
    var next := QueueNext(q, logs, range, RestartAfter(n));
    QueueStepKeeps(q, logs, range, RestartAfter(n));
    var job := Job(n + 1, q.lastEnd);
    JobAcceptedExact(next.s, logs, range, job);
    var more;
    more, r := QueueReachesEnd(next, logs, range, job);
    steps := [RestartAfter(n)] + more;
    assert steps[1..] == more;
  }

  /** The end block that a restart gets is that of the last job that was accepted. */
  lemma LastEndExact(q: Queue, logs: set<int>, range: nat, step: QueueStep)
    requires QueueInv(q, logs) && QueueEnabled(q, step)
    ensures QueueNext(q, logs, range, step).lastEnd
         == if step.TakeJob? && Process(q.s, logs, range, step.job).1.Accepted? then step.job.end else q.lastEnd
  {}

  /** A restart is asked for exactly if processing has got further than the block. */
  lemma RestartAskedExact(q: Queue, logs: set<int>, n: int)
    requires QueueInv(q, logs)
    ensures RestartJob(q, n).Some? <==> q.s.completedUpto.Some? && n < q.s.completedUpto.value
  {}

  /** Nothing done yet, with a chain head at 0. */
  function NewQueue(): Queue {
    Queue(State(None, [], {}, {}, Some(0)), {}, 0)
  }

  /** Such a refusal: blocks 1 and 2 are fetched by one job, and a restart follows block 1. */
  lemma RestartRefused()
    ensures var steps := [StartProcessing(MAX_REORG_DEPTH + 2, None), TakeJob(Job(1, 2)), Processed(1)];
      var r := Queue(State(Some(2), [1, 2], {1, 2}, {1}, Some(2)), {Job(1, 2)}, 2);
      && QueueInit(NewQueue()) && QueueRun(NewQueue(), {1, 2}, DEFAULT_HISTORICAL_LOGS_BLOCK_RANGE, steps, r)
      && QueueEnabled(r, RestartAfter(1)) && RestartJob(r, 1) == Some(Job(2, 2))
      && !Process(r.s, {1, 2}, DEFAULT_HISTORICAL_LOGS_BLOCK_RANGE, Job(2, 2)).1.Accepted?
  {
    var q0, logs, range := NewQueue(), {1, 2}, DEFAULT_HISTORICAL_LOGS_BLOCK_RANGE;
    var a, b, c := StartProcessing(MAX_REORG_DEPTH + 2, None), TakeJob(Job(1, 2)), Processed(1);
    var q1 := Queue(q0.s, {Job(1, 2)}, 0);
    var q2 := Queue(State(Some(2), [1, 2], {1, 2}, {}, Some(2)), {Job(1, 2)}, 2);
    var q3 := Queue(State(Some(2), [1, 2], {1, 2}, {1}, Some(2)), {Job(1, 2)}, 2);
    assert QueueNext(q0, logs, range, a) == q1;
    FirstStretch(logs, range);
    assert QueueNext(q2, logs, range, c) == q3;
    assert [a, b, c][1..] == [b, c] && [b, c][1..] == [c] && [c][1..] == [];
    assert QueueRun(q3, logs, range, [], q3);
    assert QueueRun(q2, logs, range, [c], q3);
    assert QueueRun(q1, logs, range, [b, c], q3);
  }

  lemma FirstStretch(logs: set<int>, range: nat)
    requires logs == {1, 2} && range >= 1
    ensures Process(NewQueue().s, logs, range, Job(1, 2))
         == (State(Some(2), [1, 2], {1, 2}, {}, Some(2)), Accepted(2))
  {
    assert InRange(logs, 1, 2) == {1, 2};
    assert Interval(1, 1) == [] && Interval(1, 2) == [1] && Interval(1, 3) == [1, 2];
    var s := NewQueue().s;
    assert {1, 2} * s.saved == {} && s.fetched + [1, 2] == [1, 2] && s.saved + {1, 2} == {1, 2};
    assert Min(1 + range, 2) == 2;
  }

  // ---- In place ----

  class JobRunner {
    var historicalProcessingCompletedUpto: Option<int>
    var fetched: seq<int>
    var saved: set<int>
    var complete: set<int>
    var chainHead: Option<int>
    var errorInEventsProcessing: bool
    /** The historical jobs waiting in the queue. */
    var queue: seq<Job>

    ghost function Model(): State
      reads this
    {
      State(historicalProcessingCompletedUpto, fetched, saved, complete, chainHead)
    }

    constructor ()
      ensures Init(Model()) && queue == [] && !errorInEventsProcessing
    {
      historicalProcessingCompletedUpto, chainHead := None, None;
      fetched, saved, complete, queue := [], {}, {}, [];
      errorInEventsProcessing := false;
    }

    /** resetWatcherToBlock for the historical blocks. */
    method ResetWatcherToBlock(n: int) returns (ok: bool)
      modifies this
      ensures ok == CanReset(old(Model()), n)
      ensures Model() == if ok then ResetTo(old(Model()), n) else old(Model())
      ensures queue == old(queue) && errorInEventsProcessing == old(errorInEventsProcessing)
    {
      if n !in saved || n !in complete {
        return false;
      }
      ghost var all := fetched;
      var kept := [];
      var i := 0;
      while i < |fetched|
        invariant 0 <= i <= |fetched| && fetched == all && kept == UpTo(all[..i], n)
        invariant Model() == old(Model()) && queue == old(queue)
            && errorInEventsProcessing == old(errorInEventsProcessing)
      {
        assert all[..i + 1][..i] == all[..i];
        if fetched[i] <= n {
          kept := kept + [fetched[i]];
        }
        i := i + 1;
      }
      assert all[..i] == all;
      fetched := kept;
      saved := AtMost(saved, n);
      complete := AtMost(complete, n);
      chainHead := Some(n);
      return true;
    }

    /** A step that leads to `t` and `outcome` does so, unless it finds logs after an error in processing
        events: then it is aborted, and the fetched blocks stay saved, but the batch does not count as
        completed. */
    ghost predicate EndsAs(t: State, outcome: Outcome, r: Outcome, logs: set<int>, job: Job)
      reads this
    {
      if r == Aborted
      then
        && outcome.Accepted? && errorInEventsProcessing && InRange(logs, job.start, outcome.endBlock) != {}
        && Model() == t.(completedUpto := historicalProcessingCompletedUpto, chainHead := chainHead)
      else
        && (Model(), r) == (t, outcome)
        && (r.Accepted? && errorInEventsProcessing ==> InRange(logs, job.start, r.endBlock) == {})
    }

    function Pushed(r: Outcome, job: Job): seq<Job> {
      if r.Accepted? && r.endBlock < job.end then [Job(r.endBlock + 1, job.end)] else []
    }

    /** The part of processHistoricalBlocks that fetches a batch and pushes the next job. */
    method FetchBatch(job: Job, logs: set<int>, range: nat) returns (r: Outcome)
      modifies this
      ensures var (t, outcome) := Fetch(old(Model()), logs, range, job); EndsAs(t, outcome, r, logs, job)
      ensures r == Aborted ==>
                && historicalProcessingCompletedUpto == old(historicalProcessingCompletedUpto)
                && chainHead == old(chainHead)
      ensures queue == old(queue) + Pushed(r, job) && errorInEventsProcessing == old(errorInEventsProcessing)
    {
      var endBlock := Min(job.start + range, job.end);
      var found := InRange(logs, job.start, endBlock);
      if found * saved != {} {
        return SaveFailed;
      }
      fetched := fetched + Interval(job.start, endBlock + 1);
      saved := saved + found;
      if found != {} && errorInEventsProcessing {
        return Aborted;
      }
      chainHead := Some(endBlock);
      historicalProcessingCompletedUpto := Some(endBlock);
      if endBlock < job.end {
        queue := queue + [Job(endBlock + 1, job.end)];
      }
      return Accepted(endBlock);
    }

    /** processHistoricalBlocks. */
    method ProcessHistoricalBlocks(job: Job, logs: set<int>, logsBlockRange: Option<nat>) returns (r: Outcome)
      modifies this
      ensures var range := if logsBlockRange.Some? then logsBlockRange.value else DEFAULT_HISTORICAL_LOGS_BLOCK_RANGE;
        var (t, outcome) := Process(old(Model()), logs, range, job);
        EndsAs(t, outcome, r, logs, job)
      ensures r == Aborted ==>
                && historicalProcessingCompletedUpto == old(historicalProcessingCompletedUpto)
                && chainHead == if Restarts(old(Model()), job) then Some(job.start - 1) else old(chainHead)
      ensures queue == (if Restarts(old(Model()), job) then [] else old(queue)) + Pushed(r, job)
          && errorInEventsProcessing == old(errorInEventsProcessing)
    {
      if historicalProcessingCompletedUpto.Some? && historicalProcessingCompletedUpto.value != 0 {
        if job.start < historicalProcessingCompletedUpto.value {
          queue := [];
          var ok := ResetWatcherToBlock(job.start - 1);
          if !ok {
            return ResetFailed;
          }
        } else if job.start - 1 != historicalProcessingCompletedUpto.value {
          return Rejected;
        }
      }
      var range := if logsBlockRange.Some? then logsBlockRange.value else DEFAULT_HISTORICAL_LOGS_BLOCK_RANGE;
      r := FetchBatch(job, logs, range);
    }
  }
}
