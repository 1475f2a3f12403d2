/** The order tests run in while a single worker is left: the last on the stack first,
    none deferred. The tests that conflict with everything, which are kept for that time
    and then stacked in the order given, so run in the opposite order; and with one worker
    from the start the order of all tests is settled. */
module SchedulerSequential {
  import opened Options
  import opened PhpArray
  import opened Sequences
  import opened Scheduler
  import opened SchedulerSafety
  import opened SchedulerProgress
  import opened SchedulerOrder

  /** The key of the tests that conflict with everything. */
  const ALL: Key := "all"

  /** With one live worker that awaits an answer no key is held. */
  lemma NothingActive(cfg: Config, files: seq<Test>, s: State, w: nat)
    requires Awaiting(cfg, files, s, w) && |s.master.procs| == 1
    ensures s.master.active == [] && s.master.waiting == []
  {
    AwaitingMeans(cfg, files, s, w);
    OneLess(s.master.procs, w);
    var batches := Batches(s.workers);
    forall v: nat | v < |batches|
      ensures batches[v] == []
    {
      if v != w {
        assert v !in s.master.procs - {w};
        assert WorkerOk(s.workers[v], v in s.master.procs);
      }
    }
    NothingHeld(cfg, s.master.active, batches);
    NothingIn(s.master.active);
    forall k
      ensures !Has(s.master.waiting, k)
    {
      assert !Has(s.master.active, k);
    }
    NothingIn(s.master.waiting);
  }

  lemma NothingIn<V>(a: Dict<Key, V>)
    requires forall k :: !Has(a, k)
    ensures a == []
  {
    if a != [] { assert Has(a, a[0].0); }
  }

  /** While no key is held the pop loop takes tests as they come. */
  lemma {:induction false} PopUnheld(cfg: Config, size: nat, p: Popping)
    ensures var r := PopBatch(cfg, size, [], p);
      r.waiting == p.waiting && r.files + Reverse(r.stack) == p.files + Reverse(p.stack)
    decreases |p.stack|
  {
    if |p.files| <= size && p.stack != [] {
      var t, rest := Last(p.stack), DropLast(p.stack);
      FirstHeldMeans(cfg.conflicts(t), []);
      PopUnheld(cfg, size, Popping(rest, p.waiting, p.files + [t]));
      assert p.stack == rest + [t];
      ReverseConcat(rest, [t]);
      Passed(p.files, [t], Reverse(rest));
      assert Reverse([t]) == [t];
    }
  }

  lemma Passed<T>(a: seq<T>, b: seq<T>, c: seq<T>)
    ensures a + b + c == a + (b + c)
  {
  }

  // ------------------------------------- the tests that conflict with everything

  ghost predicate WaitsParallel(cfg: Config, waiting: Waiting) {
    forall q :: NoneSequential(cfg, WaitingFor(waiting, q))
  }

  /** The sequential tests run, then those with their holder, then the others from the
      top of the stack on, are all of them, last first. */
  ghost predicate InReverse(cfg: Config, files: seq<Test>, s: State) {
    && WaitsParallel(cfg, s.master.waiting)
    && Carrying(cfg, ALL, s.executed) + HeldRest(cfg, ALL, s.master.active, s.workers)
         + Carrying(cfg, ALL, Reverse(s.master.stack + s.master.sequential))
       == Reverse(Carrying(cfg, ALL, files))
  }

  lemma StackedSequential(cfg: Config, k: Key, stack: seq<Test>, sequential: seq<Test>)
    ensures Carrying(cfg, k, Reverse(stack + sequential))
         == Carrying(cfg, k, Reverse(sequential)) + Carrying(cfg, k, Reverse(stack))
  {
    ReverseConcat(stack, sequential);
    CarryingConcat(cfg, k, Reverse(sequential), Reverse(stack));
  }

  /** A list of parallel tests has nothing for the key of the sequential ones. */
  lemma NoneCarryAll(cfg: Config, tests: seq<Test>)
    requires NoneSequential(cfg, tests)
    ensures Carrying(cfg, ALL, tests) == [] && Carrying(cfg, ALL, Reverse(tests)) == []
  {
    CarryingNone(cfg, ALL, tests);
  }

  /** What a reply does to the sequential tests: those it hands out are the next ones. */
  lemma AnswerTakesNext(cfg: Config, files: seq<Test>, s: State, w: nat)
    requires Awaiting(cfg, files, s, w) && WaitsParallel(cfg, s.master.waiting)
    ensures var m := Merged(s.master); var p := PopAll(cfg, m);
      && WaitsParallel(cfg, p.waiting) && (Carries(cfg, p.files, ALL) ==> !Has(m.active, ALL))
      && Carrying(cfg, ALL, p.files) + Carrying(cfg, ALL, Reverse(p.stack + m.sequential))
         == Carrying(cfg, ALL, Reverse(s.master.stack + s.master.sequential))
  {
    MergedAwaits(cfg, files, s, w);
    var m := Merged(s.master);
    var p := PopAll(cfg, m);
    PopsMeans(cfg, m, p);
    if |m.procs| == 1 {
      NothingActive(cfg, files, s.(master := m), w);
      PopUnheld(cfg, BatchSize(cfg, 1), Popping(m.stack, m.waiting, []));
      MergedStack(s.master);
      assert [] + Reverse(m.stack) == Reverse(m.stack) && p.stack + m.sequential == p.stack;
      CarryingConcat(cfg, ALL, p.files, Reverse(p.stack));
    } else {
      ManyLive(cfg, files, s, w);
      NoneCarryAll(cfg, p.files);
      NoneCarryAll(cfg, p.stack);
      NoneCarryAll(cfg, m.stack);
      StackedSequential(cfg, ALL, p.stack, m.sequential);
      StackedSequential(cfg, ALL, m.stack, m.sequential);
    }
  }

  /** With one worker left the stack holds all that is to be run. */
  lemma MergedStack(m: Master)
    requires |m.procs| == 1
    ensures Merged(m).sequential == [] && Merged(m).stack == m.stack + m.sequential
  {
  }

  /** With more than one worker no sequential test is handed out. */
  lemma ManyLive(cfg: Config, files: seq<Test>, s: State, w: nat)
    requires Awaiting(cfg, files, s, w) && |s.master.procs| != 1
    ensures Merged(s.master) == s.master && NoneSequential(cfg, s.master.stack)
    ensures var p := PopAll(cfg, s.master);
      NoneSequential(cfg, p.files) && NoneSequential(cfg, p.stack) && WaitsParallel(cfg, p.waiting)
  {
    AwaitingMeans(cfg, files, s, w);
    assert s.master.procs != {};
    PoppedOk(cfg, s.master);
    PoppedParallel(cfg, s.master, PopAll(cfg, s.master), Batches(s.workers));
  }

  lemma AnswerInReverse(cfg: Config, files: seq<Test>, s: State, w: nat)
    requires Awaiting(cfg, files, s, w) && InReverse(cfg, files, s)
    ensures InReverse(cfg, files, Answer(cfg, s, w))
  {
    var m := Merged(s.master);
    var p := PopAll(cfg, m);
    AnswerTakesNext(cfg, files, s, w);
    HeldAfterAnswer(cfg, files, s, w, ALL);
    Grouped(Carrying(cfg, ALL, s.executed), HeldRest(cfg, ALL, s.master.active, s.workers), Carrying(cfg, ALL, p.files),
            Carrying(cfg, ALL, Reverse(p.stack + m.sequential)));
  }

  lemma Grouped<T>(a: seq<T>, b: seq<T>, c: seq<T>, d: seq<T>)
    ensures a + (b + c) + d == a + b + (c + d)
  {
  }

  /** An answer adds the tests handed out to what is left of key k. */
  lemma HeldAfterAnswer(cfg: Config, files: seq<Test>, s: State, w: nat, k: Key)
    requires Awaiting(cfg, files, s, w)
    requires Carries(cfg, PopAll(cfg, Merged(s.master)).files, k) ==> !Has(s.master.active, k)
    ensures var s' := Answer(cfg, s, w);
      && HeldRest(cfg, k, s'.master.active, s'.workers)
         == HeldRest(cfg, k, s.master.active, s.workers) + Carrying(cfg, k, PopAll(cfg, Merged(s.master)).files)
      && s'.master.stack == PopAll(cfg, Merged(s.master)).stack
      && s'.master.waiting == PopAll(cfg, Merged(s.master)).waiting
      && s'.master.sequential == Merged(s.master).sequential && s'.executed == s.executed
  {
    AwaitingMeans(cfg, files, s, w);
    var p := PopAll(cfg, Merged(s.master));
    if p.files != [] {
      SendOrder(cfg, k, s.master.active, s.workers, w, p.files);
      assert IDLE_WORKER.inbox + [p.files] == [p.files];
    }
  }

  lemma FinishedInReverse(cfg: Config, files: seq<Test>, s: State, w: nat)
    requires Inv(cfg, files, s) && InReverse(cfg, files, s)
    requires Enabled(s, Receive(w)) && s.workers[w].outbox[0] == Finished
    ensures InReverse(cfg, files,
      Ended(s.(workers := s.workers[w := s.workers[w].(outbox := s.workers[w].outbox[1..])]), w))
  {
    EndedHeld(cfg, files, s, w, ALL);
    InvMeans(cfg, files, s);
    ReleaseParallelOnly(cfg, s.master, w);
  }

  /** The tests that come back from the waiting lists are none of the sequential ones. */
  lemma ReleaseParallelOnly(cfg: Config, m: Master, w: nat)
    requires UniqueKeys(m.active) && UniqueKeys(m.waiting) && WaitsParallel(cfg, m.waiting)
    ensures var r := Release(m.active, m, w);
      && WaitsParallel(cfg, r.waiting)
      && Carrying(cfg, ALL, Reverse(r.stack + m.sequential)) == Carrying(cfg, ALL, Reverse(m.stack + m.sequential))
  {
    var r := Release(m.active, m, w);
    ReleaseMeans(m.active, m, w);
    WaitsStayParallel(cfg, m.waiting, r.waiting);
    WaitsApartAll(cfg, m.waiting);
    ReleaseOrder(cfg, ALL, m.active, m, w);
    QueueParallel(cfg, m.stack, m.waiting);
    QueueParallel(cfg, r.stack, r.waiting);
    StackedSequential(cfg, ALL, m.stack, m.sequential);
    StackedSequential(cfg, ALL, r.stack, m.sequential);
  }

  lemma QueueParallel(cfg: Config, stack: seq<Test>, waiting: Waiting)
    requires WaitsParallel(cfg, waiting)
    ensures Queue(cfg, ALL, stack, waiting) == Carrying(cfg, ALL, Reverse(stack))
  {
    assert NoneSequential(cfg, WaitingFor(waiting, ALL));
    NoneCarryAll(cfg, WaitingFor(waiting, ALL));
  }

  lemma WaitsStayParallel(cfg: Config, waiting: Waiting, waiting': Waiting)
    requires WaitsParallel(cfg, waiting)
    requires forall k :: Get(waiting', k) == None || Get(waiting', k) == Get(waiting, k)
    ensures WaitsParallel(cfg, waiting')
  {
    forall q
      ensures NoneSequential(cfg, WaitingFor(waiting', q))
    {
      assert NoneSequential(cfg, WaitingFor(waiting, q));
    }
  }

  lemma WaitsApartAll(cfg: Config, waiting: Waiting)
    requires WaitsParallel(cfg, waiting)
    ensures WaitsApart(cfg, ALL, waiting)
  {
    forall q, t | q != ALL && t in WaitingFor(waiting, q)
      ensures ALL !in cfg.conflicts(t)
    {
      assert NoneSequential(cfg, WaitingFor(waiting, q));
    }
  }

  lemma ReceiveInReverse(cfg: Config, files: seq<Test>, s: State, w: nat)
    requires Inv(cfg, files, s) && InReverse(cfg, files, s) && Enabled(s, Receive(w))
    ensures InReverse(cfg, files, Next(cfg, s, Receive(w)))
  {
    var worker := s.workers[w].(outbox := s.workers[w].outbox[1..]);
    var taken := s.(workers := s.workers[w := worker]);
    HeldElsewhere(cfg, ALL, s.master.active, s.workers, w, worker);
    match s.workers[w].outbox[0]
    case Result(t) =>
    case Ready =>
      ReadyOk(cfg, files, s, w);
      AnswerInReverse(cfg, files, taken, w);
    case Finished =>
      FinishedOk(cfg, files, s, w);
      FinishedInReverse(cfg, files, s, w);
      AnswerInReverse(cfg, files, Ended(taken, w), w);
  }

  lemma WorkerStepInReverse(cfg: Config, files: seq<Test>, s: State, step: Step)
    requires Inv(cfg, files, s) && InReverse(cfg, files, s) && Enabled(s, step) && !step.Receive?
    ensures InReverse(cfg, files, Next(cfg, s, step))
  {
    var s' := Next(cfg, s, step);
    HeldAfterStep(cfg, files, s, step, ALL);
  }

  lemma StepInReverse(cfg: Config, files: seq<Test>, s: State, step: Step)
    requires Inv(cfg, files, s) && InReverse(cfg, files, s) && Enabled(s, step)
    ensures InReverse(cfg, files, Next(cfg, s, step))
  {
    if step.Receive? {
      ReceiveInReverse(cfg, files, s, step.w);
    } else {
      WorkerStepInReverse(cfg, files, s, step);
    }
  }

  lemma {:induction false} RunInReverse(cfg: Config, files: seq<Test>, s: State, steps: seq<Step>, t: State)
    requires Inv(cfg, files, s) && InReverse(cfg, files, s) && Run(cfg, s, steps, t)
    ensures Inv(cfg, files, t) && InReverse(cfg, files, t)
    decreases |steps|
  {
    if steps != [] {
      StepOk(cfg, files, s, steps[0]);
      StepInReverse(cfg, files, s, steps[0]);
      RunInReverse(cfg, files, Next(cfg, s, steps[0]), steps[1..], t);
    }
  }

  lemma {:induction false} SequentialCarryAll(cfg: Config, files: seq<Test>)
    ensures Select(cfg, files, true) == Carrying(cfg, ALL, files)
  {
    if files != [] { SequentialCarryAll(cfg, files[1..]); }
  }

  lemma {:induction false} CarryingAll(cfg: Config, k: Key, tests: seq<Test>)
    requires forall t :: t in tests ==> k in cfg.conflicts(t)
    ensures Carrying(cfg, k, tests) == tests
  {
    if tests != [] {
      assert tests[0] in tests;
      CarryingAll(cfg, k, tests[1..]);
    }
  }

  lemma {:induction false} CarryingIdempotent(cfg: Config, k: Key, tests: seq<Test>)
    ensures forall t :: t in Carrying(cfg, k, tests) ==> k in cfg.conflicts(t)
    ensures Carrying(cfg, k, Reverse(Carrying(cfg, k, tests))) == Reverse(Carrying(cfg, k, tests))
  {
    if tests != [] { CarryingIdempotent(cfg, k, tests[1..]); }
    var c := Carrying(cfg, k, tests);
    forall t | t in Reverse(c)
      ensures k in cfg.conflicts(t)
    {
      assert t in c;
    }
    CarryingAll(cfg, k, Reverse(c));
  }

  lemma SequentialStacked(cfg: Config, files: seq<Test>, stack: seq<Test>)
    requires NoneSequential(cfg, stack)
    ensures Carrying(cfg, ALL, Reverse(stack + Select(cfg, files, true))) == Reverse(Carrying(cfg, ALL, files))
  {
    SequentialCarryAll(cfg, files);
    NoneCarryAll(cfg, stack);
    StackedSequential(cfg, ALL, stack, Select(cfg, files, true));
    CarryingIdempotent(cfg, ALL, files);
  }

  lemma StartInReverse(cfg: Config, files: seq<Test>, requested: nat)
    ensures InReverse(cfg, files, Start(cfg, files, requested))
  {
    StartStackOk(cfg, files, requested);
    SequentialStacked(cfg, files, Start(cfg, files, requested).master.stack);
  }

  /** Nothing is left with a worker or stacked when the loop has ended. */
  lemma NothingLeft(cfg: Config, files: seq<Test>, s: State, k: Key)
    requires Inv(cfg, files, s) && !LoopActive(s.master)
    ensures HeldRest(cfg, k, s.master.active, s.workers) == []
  {
    InvMeans(cfg, files, s);
    IdleMeans(Batches(s.workers));
    NothingHeld(cfg, s.master.active, Batches(s.workers));
    assert !Has(s.master.active, k);
  }

  /** The tests that conflict with everything run in the opposite of the order given,
      whatever the number of workers and the schedule: a prefix at any moment, all at the end. */
  lemma SequentialReversed(cfg: Config, files: seq<Test>, requested: nat, steps: seq<Step>, s: State)
    requires Run(cfg, Start(cfg, files, requested), steps, s)
    ensures Carrying(cfg, ALL, s.executed) <= Reverse(Carrying(cfg, ALL, files))
    ensures !LoopActive(s.master) ==> Carrying(cfg, ALL, s.executed) == Reverse(Carrying(cfg, ALL, files))
  {
    StartOk(cfg, files, requested);
    StartInReverse(cfg, files, requested);
    RunInReverse(cfg, files, Start(cfg, files, requested), steps, s);
    if !LoopActive(s.master) {
      NothingLeft(cfg, files, s, ALL);
    }
  }

  ghost predicate Apart(tests: seq<Test>) {
    forall i, j :: 0 <= i < j < |tests| ==> tests[i] != tests[j]
  }

  lemma {:induction false} CarryingApart(cfg: Config, k: Key, tests: seq<Test>)
    requires Apart(tests)
    ensures Apart(Carrying(cfg, k, tests))
    ensures forall t :: t in Carrying(cfg, k, tests) ==> t in tests
  {
    if tests != [] {
      CarryingApart(cfg, k, tests[1..]);
      assert tests[0] !in tests[1..];
    }
  }

  /** Their order is kept if and only if there is at most one of them. */
  lemma SequentialKeptIff(cfg: Config, files: seq<Test>, requested: nat, steps: seq<Step>, s: State)
    requires Apart(files) && Run(cfg, Start(cfg, files, requested), steps, s) && !LoopActive(s.master)
    ensures Carrying(cfg, ALL, s.executed) == Carrying(cfg, ALL, files) <==> |Carrying(cfg, ALL, files)| <= 1
  {
    SequentialReversed(cfg, files, requested, steps, s);
    CarryingApart(cfg, ALL, files);
    var c := Carrying(cfg, ALL, files);
    if |c| > 1 {
      assert Reverse(c)[0] == c[|c| - 1] != c[0];
    }
  }

  // ------------------------------------------------------------- a single worker

  /** With one worker: the tests run, then those it has left, then those from the top of
      the stack on, are `all`; none waits. */
  ghost predicate OneByOne(s: State, all: seq<Test>) {
    && |s.workers| == 1 && s.master.waiting == []
    && s.executed + Unexecuted(s.workers[0]) + Reverse(s.master.stack + s.master.sequential) == all
  }

  lemma OneLive(cfg: Config, files: seq<Test>, s: State, w: nat)
    requires Awaiting(cfg, files, s, w) && |s.workers| == 1
    ensures |s.master.procs| == 1
  {
    AwaitingMeans(cfg, files, s, w);
    assert s.master.procs == {0};
  }

  lemma AnswerOneByOne(cfg: Config, files: seq<Test>, s: State, w: nat, all: seq<Test>)
    requires Awaiting(cfg, files, s, w) && OneByOne(s, all)
    ensures OneByOne(Answer(cfg, s, w), all)
  {
    var m := Merged(s.master);
    var p := PopAll(cfg, m);
    OneLive(cfg, files, s, w);
    MergedStack(s.master);
    MergedAwaits(cfg, files, s, w);
    NothingActive(cfg, files, s.(master := m), w);
    PopUnheld(cfg, BatchSize(cfg, 1), Popping(m.stack, m.waiting, []));
    assert [] + Reverse(m.stack) == Reverse(m.stack) && p.stack + m.sequential == p.stack;
    assert IDLE_WORKER.inbox + [p.files] == [p.files];
    Grouped(s.executed, [], p.files, Reverse(p.stack));
    assert [] + p.files == p.files;
  }

  lemma {:induction false} ReleaseNobody(entries: Dict<Key, int>, m: Master, w: nat)
    requires m.waiting == []
    ensures Release(entries, m, w).waiting == [] && Release(entries, m, w).stack == m.stack
    decreases |entries|
  {
    if entries != [] {
      var k := entries[0].0;
      assert m.stack + Reverse(WaitingFor(m.waiting, k)) == m.stack;
      ReleaseNobody(entries[1..], if entries[0].1 == w then m.(active := Unset(m.active, k)) else m, w);
    }
  }

  lemma ReceiveOneByOne(cfg: Config, files: seq<Test>, s: State, w: nat, all: seq<Test>)
    requires Inv(cfg, files, s) && OneByOne(s, all) && Enabled(s, Receive(w))
    ensures OneByOne(Next(cfg, s, Receive(w)), all)
  {
    var taken := s.(workers := s.workers[w := s.workers[w].(outbox := s.workers[w].outbox[1..])]);
    match s.workers[w].outbox[0]
    case Result(t) =>
    case Ready =>
      ReadyOk(cfg, files, s, w);
      AnswerOneByOne(cfg, files, taken, w, all);
    case Finished =>
      FinishedOk(cfg, files, s, w);
      ReleaseNobody(s.master.active, s.master, w);
      AnswerOneByOne(cfg, files, Ended(taken, w), w, all);
  }

  lemma StepOneByOne(cfg: Config, files: seq<Test>, s: State, step: Step, all: seq<Test>)
    requires Inv(cfg, files, s) && OneByOne(s, all) && Enabled(s, step)
    ensures OneByOne(Next(cfg, s, step), all)
  {
    StageOf(cfg, files, s, 0);
    match step
    case Receive(w) => ReceiveOneByOne(cfg, files, s, w, all);
    case RunOne(_) =>
      var left := Unexecuted(s.workers[0]);
      Move(s.executed, [left[0]], left[1..], Reverse(s.master.stack + s.master.sequential));
      assert left == [left[0]] + left[1..];
    case Take(_) =>
    case Finish(_) =>
  }

  lemma {:induction false} RunOneByOne(cfg: Config, files: seq<Test>, s: State, steps: seq<Step>, t: State,
                                       all: seq<Test>)
    requires Inv(cfg, files, s) && OneByOne(s, all) && Run(cfg, s, steps, t)
    ensures Inv(cfg, files, t) && OneByOne(t, all)
    decreases |steps|
  {
    if steps != [] {
      StepOk(cfg, files, s, steps[0]);
      StepOneByOne(cfg, files, s, steps[0], all);
      RunOneByOne(cfg, files, Next(cfg, s, steps[0]), steps[1..], t, all);
    }
  }

  lemma StartOneByOne(cfg: Config, files: seq<Test>, requested: nat)
    requires !cfg.shuffle && |Start(cfg, files, requested).workers| == 1
    ensures OneByOne(Start(cfg, files, requested), Reverse(Select(cfg, files, true)) + Select(cfg, files, false))
  {
    StackedReversed(Select(cfg, files, false), Select(cfg, files, true));
    var s := Start(cfg, files, requested);
    assert s.executed == [] && Unexecuted(s.workers[0]) == [];
  }

  lemma StackedReversed(parallel: seq<Test>, sequential: seq<Test>)
    ensures [] + [] + Reverse(Reverse(parallel) + sequential) == Reverse(sequential) + parallel
  {
    ReverseConcat(Reverse(parallel), sequential);
    ReverseTwice(parallel);
    assert [] + [] + (Reverse(sequential) + parallel) == Reverse(sequential) + parallel;
  }

  /** What one worker runs: the tests that conflict with everything, last first, and then
      the others as given. */
  lemma OneWorkerOrder(cfg: Config, files: seq<Test>, requested: nat, steps: seq<Step>, s: State)
    requires Run(cfg, Start(cfg, files, requested), steps, s)
    requires !cfg.shuffle && |Start(cfg, files, requested).workers| == 1
    ensures s.executed <= Reverse(Select(cfg, files, true)) + Select(cfg, files, false)
    ensures !LoopActive(s.master) ==> s.executed == Reverse(Select(cfg, files, true)) + Select(cfg, files, false)
  {
    var all := Reverse(Select(cfg, files, true)) + Select(cfg, files, false);
    StartOneByOne(cfg, files, requested);
    StartOk(cfg, files, requested);
    RunOneByOne(cfg, files, Start(cfg, files, requested), steps, s, all);
    if !LoopActive(s.master) {
      NothingUnexecuted(cfg, files, s, 0);
    }
  }

  lemma NothingUnexecuted(cfg: Config, files: seq<Test>, s: State, w: nat)
    requires Inv(cfg, files, s) && !LoopActive(s.master) && w < |s.workers|
    ensures Unexecuted(s.workers[w]) == []
  {
    InvMeans(cfg, files, s);
    IdleMeans(Batches(s.workers));
    assert Batches(s.workers)[w] == [];
    StageOf(cfg, files, s, w);
  }

  /** So one worker keeps the order for every key that no test carries which conflicts
      with everything. */
  lemma OneWorkerKeepsOrder(cfg: Config, files: seq<Test>, requested: nat, steps: seq<Step>, s: State, k: Key)
    requires Run(cfg, Start(cfg, files, requested), steps, s)
    requires !cfg.shuffle && |Start(cfg, files, requested).workers| == 1
    requires forall t :: t in files && IsSequential(cfg, t) ==> k !in cfg.conflicts(t)
    ensures Carrying(cfg, k, s.executed) <= Carrying(cfg, k, files)
    ensures !LoopActive(s.master) ==> Carrying(cfg, k, s.executed) == Carrying(cfg, k, files)
  {
    OneWorkerOrder(cfg, files, requested, steps, s);
    OrderOfAll(cfg, files, k);
    CarryingPrefix(cfg, k, s.executed, Reverse(Select(cfg, files, true)) + Select(cfg, files, false));
  }

  lemma CarryingPrefix(cfg: Config, k: Key, a: seq<Test>, b: seq<Test>)
    requires a <= b
    ensures Carrying(cfg, k, a) <= Carrying(cfg, k, b)
  {
    assert b == a + b[|a|..];
    CarryingConcat(cfg, k, a, b[|a|..]);
  }

  lemma OrderOfAll(cfg: Config, files: seq<Test>, k: Key)
    requires forall t :: t in files && IsSequential(cfg, t) ==> k !in cfg.conflicts(t)
    ensures Carrying(cfg, k, Reverse(Select(cfg, files, true)) + Select(cfg, files, false)) == Carrying(cfg, k, files)
  {
    SelectWithout(cfg, files, k);
    CarryingNone(cfg, k, Select(cfg, files, true));
    CarryingConcat(cfg, k, Reverse(Select(cfg, files, true)), Select(cfg, files, false));
  }

  lemma {:induction false} SelectWithout(cfg: Config, files: seq<Test>, k: Key)
    requires forall t :: t in files && IsSequential(cfg, t) ==> k !in cfg.conflicts(t)
    ensures Carrying(cfg, k, Select(cfg, files, false)) == Carrying(cfg, k, files)
    ensures forall t :: t in Select(cfg, files, true) ==> k !in cfg.conflicts(t)
  {
    if files != [] {
      SelectWithout(cfg, files[1..], k);
      assert files[0] in files;
      CarryingConcat(cfg, k, if IsSequential(cfg, files[0]) then [] else [files[0]], Select(cfg, files[1..], false));
    }
  }
}
