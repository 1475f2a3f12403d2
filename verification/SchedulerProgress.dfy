/** The scheduler never deadlocks, every run is finite, and a run that cannot go on
    has run every test and received its result exactly once. */
module SchedulerProgress {
  import opened Folded
  import opened Options
  import opened PhpArray
  import opened Sequences
  import opened Scheduler
  import opened SchedulerSafety
  import opened SchedulerOnce

  /** Steps a worker's side of the protocol still takes before the next reply. */
  function Weight(w: Worker): nat {
    |w.outbox|
    + (if w.running.Some? then 2 * |w.running.value| + 2 else 0)
    + (if w.inbox != [] then 2 * |w.inbox[0]| + 3 else 0)
  }

  function Weights(ws: seq<Worker>): nat {
    if ws == [] then 0 else Weight(ws[0]) + Weights(ws[1..])
  }

  /** The tests no worker has been given. */
  function Undispatched(m: Master): multiset<Test> {
    multiset(m.stack) + multiset(m.sequential) + AllWaiting(m.waiting)
  }

  function Measure(s: State): nat {
    5 * |Undispatched(s.master)| + Weights(s.workers)
  }

  lemma {:induction false} WeightsUpdate(ws: seq<Worker>, i: nat, w: Worker)
    requires i < |ws|
    ensures Weights(ws[i := w]) == Weights(ws) - Weight(ws[i]) + Weight(w)
  {
    var ws' := ws[i := w];
    if i == 0 {
      assert ws'[1..] == ws[1..];
    } else {
      assert ws'[1..] == ws[1..][i - 1 := w];
      WeightsUpdate(ws[1..], i - 1, w);
    }
  }

  lemma UndispatchedSize(m: Master)
    ensures |Undispatched(m)| == |m.stack| + |m.sequential| + |AllWaiting(m.waiting)|
    ensures |Undispatched(Merged(m))| == |Undispatched(m)|
  {
  }

  lemma PopsCount(cfg: Config, m: Master, p: Popping)
    requires Pops(cfg, m, p)
    ensures |p.stack| + |AllWaiting(p.waiting)| + |p.files| == |m.stack| + |AllWaiting(m.waiting)|
  {
    PopsMeans(cfg, m, p);
    assert |AllOf(p)| == |p.stack| + |AllWaiting(p.waiting)| + |p.files|;
    assert |AllOf(Popping(m.stack, m.waiting, []))| == |m.stack| + |AllWaiting(m.waiting)|;
  }

  /** An answer hands out at least one test, or retires the worker. */
  lemma AnswerDecreases(cfg: Config, files: seq<Test>, s: State, w: nat)
    requires Awaiting(cfg, files, s, w)
    ensures Measure(Answer(cfg, s, w)) <= Measure(s)
  {
    var m := Merged(s.master);
    var p := PopAll(cfg, m);
    var s' := Answer(cfg, s, w);
    MergedAwaits(cfg, files, s, w);
    PopsCount(cfg, m, p);
    UndispatchedSize(s.master);
    UndispatchedSize(m);
    UndispatchedSize(s'.master);
    if p.files != [] {
      var worker := Worker([p.files], None, [], p.files);
      assert IDLE_WORKER.inbox + [p.files] == [p.files];
      assert s'.workers == s.workers[w := worker];
      WeightsUpdate(s.workers, w, worker);
    }
  }

  lemma ReceiveDecreases(cfg: Config, files: seq<Test>, s: State, w: nat)
    requires Inv(cfg, files, s) && Enabled(s, Receive(w))
    ensures Measure(Next(cfg, s, Receive(w))) < Measure(s)
  {
    assert Inspected(0);
    var worker := s.workers[w];
    var taken := s.(workers := s.workers[w := worker.(outbox := worker.outbox[1..])]);
    WeightsUpdate(s.workers, w, worker.(outbox := worker.outbox[1..]));
    assert Measure(taken) == Measure(s) - 1;
    match worker.outbox[0]
    case Result(t) =>
    case Ready =>
      ReadyOk(cfg, files, s, w);
      AnswerDecreases(cfg, files, taken, w);
    case Finished =>
      var ended := Ended(taken, w);
      FinishedOk(cfg, files, s, w);
      AnswerDecreases(cfg, files, ended, w);
      WeightsUpdate(taken.workers, w, taken.workers[w].(batch := []));
      EndedKeepsUndispatched(cfg, files, s, w);
  }

  lemma EndedKeepsUndispatched(cfg: Config, files: seq<Test>, s: State, w: nat)
    requires Inv(cfg, files, s) && Enabled(s, Receive(w)) && s.workers[w].outbox[0] == Finished
    ensures |Undispatched(Release(s.master.active, s.master, w))| == |Undispatched(s.master)|
  {
    assert Inspected(0);
    LastMessage(s.workers[w]);
    ReleaseOk(cfg, s.master, Batches(s.workers), w);
    var r := Release(s.master.active, s.master, w);
    assert |multiset(r.stack) + AllWaiting(r.waiting)| == |multiset(s.master.stack) + AllWaiting(s.master.waiting)|;
  }

  lemma StepDecreases(cfg: Config, files: seq<Test>, s: State, step: Step)
    requires Inv(cfg, files, s) && Enabled(s, step)
    ensures Measure(Next(cfg, s, step)) < Measure(s)
  {
    assert Inspected(0);
    if step.Receive? {
      ReceiveDecreases(cfg, files, s, step.w);
    } else {
      var w := step.w;
      assert WorkerOk(s.workers[w], w in s.master.procs);
      WeightsUpdate(s.workers, w, Next(cfg, s, step).workers[w]);
    }
  }

  lemma {:induction false} RunBound(cfg: Config, files: seq<Test>, s: State, steps: seq<Step>, t: State)
    requires Inv(cfg, files, s) && Run(cfg, s, steps, t)
    ensures |steps| + Measure(t) <= Measure(s)
    decreases |steps|
  {
    if steps != [] {
      StepOk(cfg, files, s, steps[0]);
      StepDecreases(cfg, files, s, steps[0]);
      RunBound(cfg, files, Next(cfg, s, steps[0]), steps[1..], t);
    }
  }

  lemma {:induction false} IdleMeans(batches: seq<seq<Test>>)
    ensures Busy(batches) == 0 <==> forall i :: 0 <= i < |batches| ==> batches[i] == []
  {
    if batches != [] {
      IdleMeans(batches[1..]);
      if Busy(batches) == 0 {
        assert forall i :: 1 <= i < |batches| ==> batches[i] == batches[1..][i - 1];
      }
    }
  }

  lemma NothingUnreported(ws: seq<Worker>)
    requires forall i :: 0 <= i < |ws| ==> Starting(ws[i]) || Retired(ws[i])
    ensures Unreported(ws) == multiset{}
  {
    forall i | 0 <= i < |ws|
      ensures Loads(ws)[i] == multiset{}
    {
      assert Starting(ws[i]) || Retired(ws[i]);
      assert ResultsIn([Ready]) == multiset{};
    }
    TotalEmpty(Loads(ws));
  }

  /** As long as anything is left to do, somebody can do something. */
  lemma SomethingEnabled(cfg: Config, files: seq<Test>, s: State)
    requires Inv(cfg, files, s) && LoopActive(s.master)
    ensures s.master.procs != {} && exists step :: Enabled(s, step)
  {
    assert Inspected(0);
    if s.master.procs == {} {
      forall i: nat | i < |s.workers|
        ensures Batches(s.workers)[i] == []
      {
        assert WorkerOk(s.workers[i], i in s.master.procs);
      }
      IdleMeans(Batches(s.workers));
      assert false;
    }
    var w :| w in s.master.procs;
    var worker := s.workers[w];
    assert WorkerOk(worker, true);
    if worker.outbox != [] {
      assert Enabled(s, Receive(w));
    } else if Sent(worker) {
      assert Enabled(s, Take(w));
    } else if worker.running.value != [] {
      assert Enabled(s, RunOne(w));
    } else {
      assert Enabled(s, Finish(w));
    }
  }

  lemma AllIdle(cfg: Config, files: seq<Test>, s: State, w: nat)
    requires Inv(cfg, files, s) && s.master.inProgress <= 0 && w < |s.workers|
    ensures s.workers[w].batch == []
  {
    assert Inspected(0);
    IdleMeans(Batches(s.workers));
    assert Batches(s.workers)[w] == [];
  }

  lemma AnsweredOrRetired(cfg: Config, s: State, w: nat)
    requires w < |s.workers| && s.master.procs != {}
    ensures Answer(cfg, s, w).workers[w].batch != [] || w !in Answer(cfg, s, w).master.procs
  {
  }

  /** The loop condition can have become false only when a worker has just been retired,
      and then it is tested: testing it before every message is the same. */
  lemma EndsOnlyByRetiring(cfg: Config, files: seq<Test>, s: State, w: nat)
    requires Inv(cfg, files, s) && Enabled(s, Receive(w))
    requires !LoopActive(Next(cfg, s, Receive(w)).master)
    ensures w in s.master.procs && w !in Next(cfg, s, Receive(w)).master.procs
  {
    StepOk(cfg, files, s, Receive(w));
    AllIdle(cfg, files, Next(cfg, s, Receive(w)), w);
    var worker := s.workers[w];
    var taken := s.(workers := s.workers[w := worker.(outbox := worker.outbox[1..])]);
    match worker.outbox[0]
    case Result(_) =>
    case Ready => AnsweredOrRetired(cfg, taken, w);
    case Finished => AnsweredOrRetired(cfg, Ended(taken, w), w);
  }

  lemma NothingHeld(cfg: Config, active: Dict<Key, int>, batches: seq<seq<Test>>)
    requires ActiveOk(cfg, active, batches)
    requires forall i :: 0 <= i < |batches| ==> batches[i] == []
    ensures forall k :: !Has(active, k)
  {
    forall k
      ensures !Has(active, k)
    {
      forall w: int
        ensures Get(active, k) != Some(w)
      {
      }
    }
  }

  /** When the master leaves its loop, nothing waits and every result is in. */
  lemma DoneMeansAllResults(cfg: Config, files: seq<Test>, s: State)
    requires Inv(cfg, files, s) && !LoopActive(s.master)
    ensures multiset(s.results) == multiset(files) && Unreported(s.workers) == multiset{}
    ensures s.master.waiting == []
    ensures forall step :: !Enabled(s, step)
  {
    assert Inspected(0);
    IdleMeans(Batches(s.workers));
    NothingHeld(cfg, s.master.active, Batches(s.workers));
    forall k
      ensures !Has(s.master.waiting, k)
    {
      assert !Has(s.master.active, k);
    }
    AllWaitingEmpty(s.master.waiting);
    forall i: nat | i < |s.workers|
      ensures Starting(s.workers[i]) || Retired(s.workers[i])
    {
      assert WorkerOk(s.workers[i], i in s.master.procs);
      assert Batches(s.workers)[i] == [];
    }
    NothingUnreported(s.workers);
  }

  lemma StartMeasure(cfg: Config, files: seq<Test>, requested: nat)
    ensures Measure(Start(cfg, files, requested)) == 5 * |files| + |Start(cfg, files, requested).workers|
  {
    var s := Start(cfg, files, requested);
    SelectMeans(cfg, files);
    ReverseMultiset(Select(cfg, files, false));
    assert Undispatched(s.master) == multiset(files);
    StartWeights(s.workers);
  }

  lemma {:induction false} StartWeights(ws: seq<Worker>)
    requires forall i :: 0 <= i < |ws| ==> ws[i] == Worker([], None, [Ready], [])
    ensures Weights(ws) == |ws|
  {
    if ws != [] { StartWeights(ws[1..]); }
  }

  /** Every run is finite; one that cannot be continued has run every test it was given
      exactly once and read exactly one result for it, and one that can, has somebody able
      to move. */
  lemma RunsComplete(cfg: Config, files: seq<Test>, requested: nat, steps: seq<Step>, s: State)
    requires Run(cfg, Start(cfg, files, requested), steps, s)
    ensures |steps| <= 5 * |files| + |Start(cfg, files, requested).workers|
    ensures LoopActive(s.master) ==> exists step :: Enabled(s, step)
    ensures !LoopActive(s.master) ==> multiset(s.executed) == multiset(s.results) == multiset(files)
    ensures !(exists step :: Enabled(s, step)) ==> multiset(s.executed) == multiset(s.results) == multiset(files)
  {
    StartOk(cfg, files, requested);
    StartMeasure(cfg, files, requested);
    RunBound(cfg, files, Start(cfg, files, requested), steps, s);
    RunOk(cfg, files, Start(cfg, files, requested), steps, s);
    if LoopActive(s.master) {
      SomethingEnabled(cfg, files, s);
    } else {
      DoneMeansAllResults(cfg, files, s);
      RunOrStillToRun(cfg, files, requested, s);
      LoadsSplit(s.workers);
    }
  }

  /** The last live worker is never retired while a test is stacked, waiting or sequential. */
  lemma LastWorkerStays(cfg: Config, files: seq<Test>, requested: nat, s: State)
    requires Reachable(cfg, files, requested, s) && s.master.procs == {}
    ensures !LoopActive(s.master) && s.master.waiting == [] && multiset(s.results) == multiset(files)
  {
    ReachableOk(cfg, files, requested, s);
    if LoopActive(s.master) { SomethingEnabled(cfg, files, s); }
    DoneMeansAllResults(cfg, files, s);
  }
}
