/** src/tableWorkers.ts: workers that share one index. A worker gives way only while it waits for its
    response, so its steps are: take the next index and send its request, or receive and process. */
module Workers {
  import opened Strings
  import opened Records
  import opened Store
  import opened Settlement
  import opened Runs

  datatype Worker = Ready | Waiting(index: nat, request: Sending) | Returned

  /** finished is a history variable: the indices processed so far, in order. */
  datatype Pool = Pool(next: nat, workers: seq<Worker>, engine: Engine, errors: seq<string>, finished: seq<nat>)

  /** What the pool works on. */
  datatype Job = Job(start: Engine, tables: seq<string>, batch: seq<Mutation>, transport: Transport, config: Config,
    now: int)

  datatype Move = Take(worker: nat) | Receive(worker: nat)

  function Min(a: nat, b: nat): nat {
    if a < b then a else b
  }

  function WorkerCount(job: Job): nat {
    if job.config.concurrency <= 0 then 0 else Min(job.config.concurrency, |job.tables|)
  }

  function Begin(job: Job): Pool {
    Pool(0, seq(WorkerCount(job), i => Ready), job.start, [], [])
  }

  /** As many workers as allowed start, unless there are fewer tables; none if the number is no count. */
  lemma EnoughWorkersStart(job: Job)
    ensures var n := |Begin(job).workers|;
      && (job.config.concurrency <= 0 ==> n == 0)
      && (job.config.concurrency > 0 ==> n <= job.config.concurrency && n <= |job.tables|)
      && (job.config.concurrency > 0 ==> n == job.config.concurrency || n == |job.tables|)
      && Begin(job).next == 0 && Begin(job).engine == job.start && Begin(job).errors == []
      && forall k :: 0 <= k < n ==> CanMove(Begin(job), Take(k))
  {}

  predicate CanMove(p: Pool, move: Move) {
    && move.worker < |p.workers|
    && match move
       case Take(k) => p.workers[k].Ready?
       case Receive(k) => p.workers[k].Waiting?
  }

  function Moved(job: Job, p: Pool, move: Move): Pool
    requires CanMove(p, move)
    requires move.Receive? ==> p.workers[move.worker].index < |job.tables|
  {
    match move
    case Take(k) =>
      if p.next < |job.tables| then
        p.(next := p.next + 1,
           workers := p.workers[k := Waiting(p.next, RequestFor(p.engine, job.tables[p.next], job.batch))])
      else p.(next := p.next + 1, workers := p.workers[k := Returned])
    case Receive(k) =>
      var i := p.workers[k].index;
      var table := job.tables[i];
      var (engine, ok) := ProcessOne(p.engine, table, job.batch, job.transport(table, p.workers[k].request), job.config,
        job.now);
      p.(workers := p.workers[k := Ready], engine := engine,
         errors := if ok then p.errors else p.errors + [table], finished := p.finished + [i])
  }

  predicate Finished(p: Pool) {
    forall k :: 0 <= k < |p.workers| ==> p.workers[k].Returned?
  }

  // ---- The invariant ----

  ghost predicate IsWaiting(p: Pool, i: nat) {
    exists k :: 0 <= k < |p.workers| && p.workers[k].Waiting? && p.workers[k].index == i
  }

  predicate Within(indices: seq<nat>, n: nat) {
    forall a :: 0 <= a < |indices| ==> indices[a] < n
  }

  function TablesAt(tables: seq<string>, indices: seq<nat>): set<string>
    requires Within(indices, |tables|)
  {
    set i | i in indices :: tables[i]
  }

  ghost predicate NoRepeats(indices: seq<nat>) {
    forall a, b :: 0 <= a < b < |indices| ==> indices[a] != indices[b]
  }

  /** Taken indices are being waited for by one worker, or finished once. */
  ghost predicate Shares(job: Job, p: Pool) {
    && |p.workers| == WorkerCount(job)
    && NoRepeats(p.finished)
    && (forall i: nat :: i < Min(p.next, |job.tables|) <==> i in p.finished || IsWaiting(p, i))
    && (forall i: nat :: IsWaiting(p, i) ==> i !in p.finished)
    && (forall k, l :: 0 <= k < l < |p.workers| && p.workers[k].Waiting? && p.workers[l].Waiting? ==>
          p.workers[k].index != p.workers[l].index)
    && ((exists k :: 0 <= k < |p.workers| && p.workers[k].Returned?) ==> p.next >= |job.tables|)
  }

  /** The client is where processing exactly the finished tables leads, and every request in flight
      is the one its table would have sent first. */
  ghost predicate Progresses(job: Job, p: Pool) {
    && Within(p.finished, |job.tables|)
    && p.engine == Combined(job.start, TablesAt(job.tables, p.finished), job.batch, job.transport, job.config, job.now)
    && (forall k :: 0 <= k < |p.workers| && p.workers[k].Waiting? ==>
          && p.workers[k].index < |job.tables|
          && p.workers[k].request == RequestFor(job.start, job.tables[p.workers[k].index], job.batch))
    && ErrorsAre(job, p.finished, p.errors)
  }

  ghost predicate Fails(job: Job, i: nat)
    requires i < |job.tables|
  {
    !ResultFor(job.start, job.tables[i], job.batch, job.transport, job.config, job.now).1
  }

  /** The errors name the failed tables in the order they finished. */
  ghost predicate ErrorsAre(job: Job, finished: seq<nat>, errors: seq<string>)
    requires Within(finished, |job.tables|)
  {
    errors == Failures(job, finished)
  }

  ghost function Failures(job: Job, finished: seq<nat>): seq<string>
    requires Within(finished, |job.tables|)
  {
    if finished == [] then []
    else
      var i := finished[|finished| - 1];
      var before := Failures(job, finished[..|finished| - 1]);
      if Fails(job, i) then before + [job.tables[i]] else before
  }

  ghost predicate GoodJob(job: Job) {
    QueueKeyed(job.start.queue) && OneEach(job.batch) && Distinct(job.tables)
  }

  lemma BeginIsGood(job: Job)
    ensures Shares(job, Begin(job)) && Progresses(job, Begin(job))
  {
    CombinedNone(job.start, job.batch, job.transport, job.config, job.now);
    assert TablesAt(job.tables, []) == {};
  }

  lemma TakeKeepsShares(job: Job, p: Pool, k: nat)
    requires Shares(job, p) && CanMove(p, Take(k))
    ensures Shares(job, Moved(job, p, Take(k)))
  {
    hide RequestFor;
    var q := Moved(job, p, Take(k));
    if p.next < |job.tables| {
      assert q.workers[k].Waiting? && q.workers[k].index == p.next;
      assert forall l :: 0 <= l < |p.workers| && p.workers[l].Waiting? ==> IsWaiting(p, p.workers[l].index);
    }
    WaitingAfter(p, q, k);
    if exists a :: 0 <= a < |q.workers| && q.workers[a].Returned? {
      var a :| 0 <= a < |q.workers| && q.workers[a].Returned?;
      assert a != k ==> p.workers[a].Returned?;
    }
  }

  /** Changing worker k changes who waits only by what k did. */
  lemma WaitingAfter(p: Pool, q: Pool, k: nat)
    requires k < |p.workers| == |q.workers| && q.workers == p.workers[k := q.workers[k]]
    requires forall a, b :: 0 <= a < b < |p.workers| && p.workers[a].Waiting? && p.workers[b].Waiting? ==>
      p.workers[a].index != p.workers[b].index
    ensures forall i: nat :: IsWaiting(q, i) <==>
      (IsWaiting(p, i) && !(p.workers[k].Waiting? && p.workers[k].index == i)) ||
      (q.workers[k].Waiting? && q.workers[k].index == i)
  {
    forall i: nat
      ensures IsWaiting(q, i) <==>
        (IsWaiting(p, i) && !(p.workers[k].Waiting? && p.workers[k].index == i)) ||
        (q.workers[k].Waiting? && q.workers[k].index == i)
    {
      if IsWaiting(p, i) {
        var a :| 0 <= a < |p.workers| && p.workers[a].Waiting? && p.workers[a].index == i;
        assert a != k ==> q.workers[a] == p.workers[a];
      }
      if IsWaiting(q, i) {
        var a :| 0 <= a < |q.workers| && q.workers[a].Waiting? && q.workers[a].index == i;
        assert a != k ==> q.workers[a] == p.workers[a];
      }
    }
  }

  lemma ReceiveKeepsShares(job: Job, p: Pool, k: nat)
    requires Shares(job, p) && Progresses(job, p) && CanMove(p, Receive(k))
    ensures Shares(job, Moved(job, p, Receive(k)))
  {
    hide ProcessOne, RequestFor, Combined, ErrorsAre;
    var q := Moved(job, p, Receive(k));
    var i := p.workers[k].index;
    assert IsWaiting(p, i);
    WaitingAfter(p, q, k);
    assert forall j :: j in q.finished <==> j in p.finished || j == i;
  }

  lemma TakeProgresses(job: Job, p: Pool, k: nat)
    requires Shares(job, p) && Progresses(job, p) && CanMove(p, Take(k)) && GoodJob(job)
    ensures Progresses(job, Moved(job, p, Take(k)))
  {
    if p.next < |job.tables| {
      var table := job.tables[p.next];
      assert table !in TablesAt(job.tables, p.finished);
      FinishOne(job.start, TablesAt(job.tables, p.finished), table, job.batch, job.transport, job.config, job.now);
      hide Combined, RequestFor, ProcessOne, ErrorsAre, ResultFor, OutcomeFor, TablesAt;
    }
  }

  lemma ReceiveProgresses(job: Job, p: Pool, k: nat)
    requires Shares(job, p) && Progresses(job, p) && CanMove(p, Receive(k)) && GoodJob(job)
    ensures Progresses(job, Moved(job, p, Receive(k)))
  {
    hide ProcessOne, RequestFor, Combined, ResultFor, OutcomeFor, TablesAt, Failures;
    var i := p.workers[k].index;
    RequestWasFirst(job, p, k);
    NotYetDone(job, p, k);
    FinishOne(job.start, TablesAt(job.tables, p.finished), job.tables[i], job.batch, job.transport, job.config,
      job.now);
    hide Shares, GoodJob;
    OneMore(job, p.finished, i);
  }

  lemma NotYetDone(job: Job, p: Pool, k: nat)
    requires Shares(job, p) && Progresses(job, p) && CanMove(p, Receive(k)) && GoodJob(job)
    ensures p.workers[k].index < |job.tables| && job.tables[p.workers[k].index] !in TablesAt(job.tables, p.finished)
  {
    hide RequestFor, Combined, ErrorsAre, OneEach, QueueKeyed;
    assert IsWaiting(p, p.workers[k].index);
  }

  lemma RequestWasFirst(job: Job, p: Pool, k: nat)
    requires Progresses(job, p) && CanMove(p, Receive(k))
    ensures var i := p.workers[k].index;
      i < |job.tables| && job.transport(job.tables[i], p.workers[k].request) ==
        OutcomeFor(job.start, job.tables[i], job.batch, job.transport)
  {
    hide Combined, ResultFor, ErrorsAre, RequestFor;
  }

  lemma OneMore(job: Job, finished: seq<nat>, i: nat)
    requires Within(finished, |job.tables|) && i < |job.tables|
    ensures Within(finished + [i], |job.tables|)
    ensures TablesAt(job.tables, finished + [i]) == TablesAt(job.tables, finished) + {job.tables[i]}
    ensures Failures(job, finished + [i]) ==
      if ResultFor(job.start, job.tables[i], job.batch, job.transport, job.config, job.now).1
      then Failures(job, finished)
      else Failures(job, finished) + [job.tables[i]]
  {
    hide ResultFor;
    var more := finished + [i];
    assert more[..|more| - 1] == finished;
    assert forall j :: j in more <==> j in finished || j == i;
  }

  lemma MoveKeeps(job: Job, p: Pool, move: Move)
    requires Shares(job, p) && Progresses(job, p) && GoodJob(job) && CanMove(p, move)
    ensures Shares(job, Moved(job, p, move)) && Progresses(job, Moved(job, p, move))
  {
    match move
    case Take(k) => TakeKeepsShares(job, p, k); TakeProgresses(job, p, k);
    case Receive(k) => ReceiveKeepsShares(job, p, k); ReceiveProgresses(job, p, k);
  }

  /** trace is an interleaving of the workers. */
  ghost predicate IsSchedule(job: Job, trace: seq<Pool>, moves: seq<Move>) {
    && |trace| == |moves| + 1 && trace[0] == Begin(job)
    && forall n :: 0 <= n < |moves| ==> IsMove(job, trace[n], moves[n], trace[n + 1])
  }

  ghost predicate IsMove(job: Job, p: Pool, move: Move, q: Pool) {
    && CanMove(p, move)
    && (move.Receive? ==> p.workers[move.worker].index < |job.tables|)
    && q == Moved(job, p, move)
  }

  lemma {:induction false} ScheduleKeeps(job: Job, trace: seq<Pool>, moves: seq<Move>, n: nat)
    requires IsSchedule(job, trace, moves) && GoodJob(job) && n <= |moves|
    ensures Shares(job, trace[n]) && Progresses(job, trace[n])
  {
    if n == 0 {
      BeginIsGood(job);
    } else {
      ScheduleKeeps(job, trace, moves, n - 1);
      assert IsMove(job, trace[n - 1], moves[n - 1], trace[n - 1 + 1]);
      hide Shares, Progresses, Moved, GoodJob;
      MoveKeeps(job, trace[n - 1], moves[n - 1]);
    }
  }

  // ---- What every schedule does ----

  /** When all workers have returned, under any interleaving, every index was processed exactly once
      and the client is where the tables one by one would have brought it. */
  lemma EveryScheduleIsSequential(job: Job, trace: seq<Pool>, moves: seq<Move>)
    requires IsSchedule(job, trace, moves) && GoodJob(job) && job.config.concurrency > 0
    requires Finished(trace[|moves|])
    ensures var p := trace[|moves|];
      && (forall i: nat :: i in p.finished <==> i < |job.tables|)
      && NoRepeats(p.finished) && Within(p.finished, |job.tables|)
      && p.engine == ProcessEach(job.start, job.tables, job.batch, job.transport, job.config, job.now).0
      && p.errors == Failures(job, p.finished)
      && (forall t ::
            t in p.errors <==> t in ProcessEach(job.start, job.tables, job.batch, job.transport, job.config, job.now).1)
  {
    ScheduleKeeps(job, trace, moves, |moves|);
    var p := trace[|moves|];
    AllWereTaken(job, p);
    assert TablesAt(job.tables, p.finished) == Names(job.tables);
    EachIsCombined(job.start, job.tables, job.batch, job.transport, job.config, job.now);
    FailuresHold(job, p.finished);
    hide Combined, ProcessEach, ResultFor, IsSchedule, GoodJob;
    forall t
      ensures t in p.errors <==>
        t in ProcessEach(job.start, job.tables, job.batch, job.transport, job.config, job.now).1
    {
      if t in job.tables {
        var i :| 0 <= i < |job.tables| && job.tables[i] == t;
        assert i in p.finished;
      }
    }
  }

  /** The run that uses the workers is Run, whatever their interleaving. */
  lemma RunUnderEverySchedule(job: Job, trace: seq<Pool>, moves: seq<Move>, e: Engine, claimed: seq<Mutation>)
    requires IsSchedule(job, trace, moves) && GoodJob(job) && job.config.concurrency > 0
    requires Finished(trace[|moves|])
    requires job.start == e.(queue := QueueAfterClaim(e.queue, claimed)) && job.batch == BatchOf(claimed)
    ensures var p := trace[|moves|];
      p.engine.(queue := FailIds(p.engine.queue, SentTo(job.batch, Names(p.errors)), job.now))
        == Run(e, claimed, job.tables, job.transport, job.config, job.now)
  {
    EveryScheduleIsSequential(job, trace, moves);
    var p := trace[|moves|];
    hide IsSchedule, GoodJob, Finished, ProcessEach, FailIds, SentTo, QueueAfterClaim, BatchOf;
    assert Names(p.errors) == ProcessEach(job.start, job.tables, job.batch, job.transport, job.config, job.now).1;
  }

  lemma AllWereTaken(job: Job, p: Pool)
    requires Shares(job, p) && Finished(p) && job.config.concurrency > 0
    ensures forall i: nat :: i in p.finished <==> i < |job.tables|
  {
    assert forall i: nat :: !IsWaiting(p, i);
    if |job.tables| > 0 {
      assert p.workers[0].Returned?;
    }
  }

  lemma {:induction false} FailuresHold(job: Job, finished: seq<nat>)
    requires Within(finished, |job.tables|)
    ensures forall t :: t in Failures(job, finished) <==>
      exists i :: i in finished && job.tables[i] == t && Fails(job, i)
    decreases |finished|
  {
    if finished != [] {
      var init, last := finished[..|finished| - 1], finished[|finished| - 1];
      FailuresHold(job, init);
      hide Fails;
      assert forall i :: i in finished <==> i in init || i == last;
    }
  }

  /** How many requests are open. */
  function Open(ws: seq<Worker>): nat {
    if ws == [] then 0 else Open(ws[..|ws| - 1]) + if ws[|ws| - 1].Waiting? then 1 else 0
  }

  lemma {:induction false} OpenAtMost(ws: seq<Worker>)
    ensures Open(ws) <= |ws|
  {
    if ws != [] {
      OpenAtMost(ws[..|ws| - 1]);
    }
  }

  /** No more than min(concurrency, tables) requests are ever open. */
  lemma OpenIsBounded(job: Job, trace: seq<Pool>, moves: seq<Move>, n: nat)
    requires IsSchedule(job, trace, moves) && GoodJob(job) && n <= |moves|
    ensures Open(trace[n].workers) <= WorkerCount(job) <= |job.tables|
    ensures job.config.concurrency > 0 ==> Open(trace[n].workers) <= job.config.concurrency
  {
    ScheduleKeeps(job, trace, moves, n);
    OpenAtMost(trace[n].workers);
  }

  // ---- Termination ----

  function Weight(w: Worker): nat {
    match w
    case Ready => 1
    case Waiting(_, _) => 2
    case Returned => 0
  }

  function Weights(ws: seq<Worker>): nat {
    if ws == [] then 0 else Weights(ws[..|ws| - 1]) + Weight(ws[|ws| - 1])
  }

  /** What is left to do. */
  function Left(job: Job, p: Pool): nat {
    3 * (|job.tables| - Min(p.next, |job.tables|)) + Weights(p.workers)
  }

  lemma {:induction false} WeightsAfter(ws: seq<Worker>, k: nat, w: Worker)
    requires k < |ws|
    ensures Weights(ws[k := w]) == Weights(ws) - Weight(ws[k]) + Weight(w)
    decreases |ws|
  {
    var init := ws[..|ws| - 1];
    if k == |ws| - 1 {
      assert ws[k := w][..|ws| - 1] == init;
    } else {
      assert ws[k := w][..|ws| - 1] == init[k := w];
      WeightsAfter(init, k, w);
    }
  }

  /** Every move leaves less to do, and until all workers have returned there is a move. */
  lemma PoolTerminates(job: Job, p: Pool)
    requires Shares(job, p) && Progresses(job, p)
    ensures forall move :: CanMove(p, move) ==> Left(job, Moved(job, p, move)) < Left(job, p)
    ensures !Finished(p) ==> exists move :: CanMove(p, move)
  {
    forall move | CanMove(p, move)
      ensures Left(job, Moved(job, p, move)) < Left(job, p)
    {
      hide ProcessOne, RequestFor;
      var k := move.worker;
      WeightsAfter(p.workers, k, Moved(job, p, move).workers[k]);
    }
    if !Finished(p) {
      var k :| 0 <= k < |p.workers| && !p.workers[k].Returned?;
      assert CanMove(p, if p.workers[k].Ready? then Take(k) else Receive(k));
    }
  }

  lemma {:induction false} SchedulesAreShort(job: Job, trace: seq<Pool>, moves: seq<Move>, n: nat)
    requires IsSchedule(job, trace, moves) && GoodJob(job) && n <= |moves|
    ensures n + Left(job, trace[n]) <= Left(job, Begin(job))
  {
    if n > 0 {
      SchedulesAreShort(job, trace, moves, n - 1);
      ScheduleKeeps(job, trace, moves, n - 1);
      assert IsMove(job, trace[n - 1], moves[n - 1], trace[n - 1 + 1]);
      hide Moved, Left, Shares, Progresses;
      PoolTerminates(job, trace[n - 1]);
    }
  }
}
