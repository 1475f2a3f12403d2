/** Every test is run once: the tests run so far are those whose result was read or is
    under way to the master, and they and the tests still to run are the tests given. */
module SchedulerOnce {
  import opened Options
  import opened Scheduler
  import opened SchedulerSafety

  /** The results under way to the master, by worker. */
  function UnderWay(ws: seq<Worker>): (r: seq<multiset<Test>>)
    ensures |r| == |ws| && forall i :: 0 <= i < |ws| ==> r[i] == ResultsIn(ws[i].outbox)
  {
    seq(|ws|, i requires 0 <= i < |ws| => ResultsIn(ws[i].outbox))
  }

  /** The tests handed out and not yet run, by worker. */
  function ToRun(ws: seq<Worker>): (r: seq<multiset<Test>>)
    ensures |r| == |ws| && forall i :: 0 <= i < |ws| ==> r[i] == multiset(Unexecuted(ws[i]))
  {
    seq(|ws|, i requires 0 <= i < |ws| => multiset(Unexecuted(ws[i])))
  }

  /** Each test run has one result, read or under way. */
  ghost predicate ResultPerRun(s: State) {
    multiset(s.executed) == multiset(s.results) + Total(UnderWay(s.workers))
  }

  lemma UnderWayUpdate(ws: seq<Worker>, w: nat, worker: Worker)
    requires w < |ws|
    ensures Total(UnderWay(ws[w := worker])) + ResultsIn(ws[w].outbox) == Total(UnderWay(ws)) + ResultsIn(worker.outbox)
    ensures ResultsIn(worker.outbox) == ResultsIn(ws[w].outbox) ==> UnderWay(ws[w := worker]) == UnderWay(ws)
  {
    assert UnderWay(ws[w := worker]) == UnderWay(ws)[w := ResultsIn(worker.outbox)];
    TotalUpdate(UnderWay(ws), w, ResultsIn(worker.outbox));
  }

  /** Running a test adds it to the tests run and its result to those under way. */
  lemma RunOneCounts(s: State, w: nat, worker: Worker, t: Test)
    requires ResultPerRun(s) && w < |s.workers| && worker.outbox == s.workers[w].outbox + [Result(t)]
    ensures ResultPerRun(s.(workers := s.workers[w := worker], executed := s.executed + [t]))
  {
    var had := ResultsIn(s.workers[w].outbox);
    var after := Total(UnderWay(s.workers[w := worker]));
    ResultsInAppend(s.workers[w].outbox, Result(t));
    UnderWayUpdate(s.workers, w, worker);
    OneMoreRun(after, had, Total(UnderWay(s.workers)), multiset{t});
    Regroup(multiset(s.results), Total(UnderWay(s.workers)), multiset{t});
    assert multiset(s.executed + [t]) == multiset(s.executed) + multiset{t};
  }

  lemma OneMoreRun(after: multiset<Test>, had: multiset<Test>, before: multiset<Test>, t: multiset<Test>)
    requires after + had == before + (had + t)
    ensures after == before + t
  {
    forall x: Test
      ensures after[x] == (before + t)[x]
    {
      assert (after + had)[x] == (before + (had + t))[x];
    }
  }

  /** Reading a result takes it off the way. */
  lemma ResultCounts(s: State, w: nat, worker: Worker, t: Test)
    requires ResultPerRun(s) && w < |s.workers| && s.workers[w].outbox == [Result(t)] + worker.outbox
    ensures ResultPerRun(s.(workers := s.workers[w := worker], results := s.results + [t]))
  {
    var after := Total(UnderWay(s.workers[w := worker]));
    assert s.workers[w].outbox[1..] == worker.outbox;
    UnderWayUpdate(s.workers, w, worker);
    OneLessUnderWay(after, multiset{t}, ResultsIn(worker.outbox), Total(UnderWay(s.workers)));
    assert multiset(s.results + [t]) == multiset(s.results) + multiset{t};
    Regroup(multiset(s.results), multiset{t}, after);
  }

  lemma OneLessUnderWay(after: multiset<Test>, t: multiset<Test>, rest: multiset<Test>, before: multiset<Test>)
    requires after + (t + rest) == before + rest
    ensures before == t + after
  {
    forall x: Test
      ensures before[x] == (t + after)[x]
    {
      assert (after + (t + rest))[x] == (before + rest)[x];
    }
  }

  /** A worker replaced without touching its results. */
  lemma QuietStep(s: State, s': State, w: nat, worker: Worker)
    requires ResultPerRun(s) && w < |s.workers| && ResultsIn(worker.outbox) == ResultsIn(s.workers[w].outbox)
    requires s'.workers == s.workers[w := worker] && s'.executed == s.executed && s'.results == s.results
    ensures ResultPerRun(s')
  {
    UnderWayUpdate(s.workers, w, worker);
  }

  lemma AnswerCounts(cfg: Config, s: State, w: nat)
    requires ResultPerRun(s) && w < |s.workers| && s.master.procs != {}
    ensures ResultPerRun(Answer(cfg, s, w))
  {
    var s' := Answer(cfg, s, w);
    var files := Reply(cfg, s.master, w).1;
    if files == [] {
      assert s'.workers == s.workers[w := s.workers[w]];
      QuietStep(s, s', w, s.workers[w]);
    } else {
      QuietStep(s, s', w, s.workers[w].(inbox := s.workers[w].inbox + [files], batch := files));
    }
  }

  lemma ReceiveCounts(cfg: Config, s: State, w: nat)
    requires ResultPerRun(s) && Enabled(s, Receive(w))
    ensures ResultPerRun(Next(cfg, s, Receive(w)))
  {
    var worker := s.workers[w].(outbox := s.workers[w].outbox[1..]);
    var taken := s.(workers := s.workers[w := worker]);
    match s.workers[w].outbox[0]
    case Result(t) =>
      assert s.workers[w].outbox == [Result(t)] + worker.outbox;
      ResultCounts(s, w, worker, t);
    case Ready =>
      QuietStep(s, taken, w, worker);
      AnswerCounts(cfg, taken, w);
    case Finished =>
      QuietStep(s, taken, w, worker);
      QuietStep(taken, Ended(taken, w), w, worker.(batch := []));
      AnswerCounts(cfg, Ended(taken, w), w);
  }

  /** Every step keeps one result per test run. */
  lemma StepCounts(cfg: Config, s: State, step: Step)
    requires ResultPerRun(s) && Enabled(s, step)
    ensures ResultPerRun(Next(cfg, s, step))
  {
    var w := step.w;
    var worker := s.workers[w];
    match step
    case Receive(_) => ReceiveCounts(cfg, s, w);
    case Take(_) =>
      QuietStep(s, Next(cfg, s, step), w, worker.(inbox := worker.inbox[1..], running := Some(worker.inbox[0])));
    case RunOne(_) =>
      var t := worker.running.value[0];
      RunOneCounts(s, w, worker.(running := Some(worker.running.value[1..]), outbox := worker.outbox + [Result(t)]), t);
    case Finish(_) =>
      ResultsInAppend(worker.outbox, Finished);
      QuietStep(s, Next(cfg, s, step), w, worker.(running := None, outbox := worker.outbox + [Finished]));
  }

  lemma {:induction false} RunCounts(cfg: Config, s: State, steps: seq<Step>, t: State)
    requires ResultPerRun(s) && Run(cfg, s, steps, t)
    ensures ResultPerRun(t)
    decreases |steps|
  {
    if steps != [] {
      StepCounts(cfg, s, steps[0]);
      RunCounts(cfg, Next(cfg, s, steps[0]), steps[1..], t);
    }
  }

  lemma StartCounts(cfg: Config, files: seq<Test>, requested: nat)
    ensures ResultPerRun(Start(cfg, files, requested))
  {
    var bags := UnderWay(Start(cfg, files, requested).workers);
    forall i | 0 <= i < |bags|
      ensures bags[i] == multiset{}
    {
      assert ResultsIn([Ready]) == multiset{};
    }
    TotalEmpty(bags);
  }

  // -------------------------------------------------------------- the promises

  lemma LoadsSplit(ws: seq<Worker>)
    ensures Unreported(ws) == Total(UnderWay(ws)) + Total(ToRun(ws))
  {
    TotalSplit(Loads(ws), UnderWay(ws), ToRun(ws));
  }

  lemma {:induction false} TotalSplit(sums: seq<multiset<Test>>, a: seq<multiset<Test>>, b: seq<multiset<Test>>)
    requires |sums| == |a| == |b| && forall i :: 0 <= i < |sums| ==> sums[i] == a[i] + b[i]
    ensures Total(sums) == Total(a) + Total(b)
  {
    if sums != [] {
      TotalSplit(sums[1..], a[1..], b[1..]);
      FourParts(a[0], b[0], Total(a[1..]), Total(b[1..]));
    }
  }

  lemma FourParts(a: multiset<Test>, b: multiset<Test>, c: multiset<Test>, d: multiset<Test>)
    ensures a + b + (c + d) == a + c + (b + d)
  {
  }

  /** In every reachable state each test given is stacked, kept for last, waiting, with a
      worker that has yet to run it, or has been run; and it is so once. */
  lemma RunOrStillToRun(cfg: Config, files: seq<Test>, requested: nat, s: State)
    requires Reachable(cfg, files, requested, s)
    ensures multiset(files) == multiset(s.master.stack) + multiset(s.master.sequential) + AllWaiting(s.master.waiting)
                               + Total(ToRun(s.workers)) + multiset(s.executed)
    ensures multiset(s.executed) == multiset(s.results) + Total(UnderWay(s.workers))
  {
    ReachableOk(cfg, files, requested, s);
    InvMeans(cfg, files, s);
    var steps :| Run(cfg, Start(cfg, files, requested), steps, s);
    StartCounts(cfg, files, requested);
    RunCounts(cfg, Start(cfg, files, requested), steps, s);
    LoadsSplit(s.workers);
    Rearranged(multiset(s.master.stack) + multiset(s.master.sequential) + AllWaiting(s.master.waiting),
               Total(UnderWay(s.workers)), Total(ToRun(s.workers)), multiset(s.results));
  }

  lemma Rearranged(a: multiset<Test>, b: multiset<Test>, c: multiset<Test>, d: multiset<Test>)
    ensures a + (b + c) + d == a + c + (d + b)
  {
  }
}
