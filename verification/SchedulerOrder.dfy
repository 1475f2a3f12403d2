/** The order tests with a common conflict key run in. The scheduler keeps the given
    order for a key as long as its tests carry no other key; a test with two keys can
    be overtaken. */
module SchedulerOrder {
  import opened Options
  import opened PhpArray
  import opened Sequences
  import opened Scheduler
  import opened SchedulerSafety
  import opened SchedulerProgress

  /** The tests that carry key k, in order. */
  function Carrying(cfg: Config, k: Key, tests: seq<Test>): seq<Test> {
    if tests == [] then []
    else (if k in cfg.conflicts(tests[0]) then [tests[0]] else []) + Carrying(cfg, k, tests[1..])
  }

  /** Whatever carries k carries nothing else, and k is not the key `all`. */
  ghost predicate Sole(cfg: Config, files: seq<Test>, k: Key) {
    && k != "all"
    && forall t :: t in files && k in cfg.conflicts(t) ==> forall q :: q in cfg.conflicts(t) ==> q == k
  }

  /** What the holder of key k has still to run of it. */
  function HeldRest(cfg: Config, k: Key, active: Dict<Key, int>, workers: seq<Worker>): seq<Test> {
    match Get(active, k)
    case Some(w) => if 0 <= w < |workers| then Carrying(cfg, k, Unexecuted(workers[w])) else []
    case None => []
  }

  /** What no worker has been given of key k, in the order it will be. */
  function Queue(cfg: Config, k: Key, stack: seq<Test>, waiting: Waiting): seq<Test> {
    Carrying(cfg, k, WaitingFor(waiting, k)) + Carrying(cfg, k, Reverse(stack))
  }

  ghost predicate InOrder(cfg: Config, files: seq<Test>, k: Key, s: State) {
    Carrying(cfg, k, s.executed) + HeldRest(cfg, k, s.master.active, s.workers)
      + Queue(cfg, k, s.master.stack, s.master.waiting)
      == Carrying(cfg, k, files)
  }

  lemma {:induction false} CarryingConcat(cfg: Config, k: Key, a: seq<Test>, b: seq<Test>)
    ensures Carrying(cfg, k, a + b) == Carrying(cfg, k, a) + Carrying(cfg, k, b)
  {
    if a == [] {
      assert a + b == b;
    } else {
      assert (a + b)[1..] == a[1..] + b;
      CarryingConcat(cfg, k, a[1..], b);
    }
  }

  lemma {:induction false} CarryingNone(cfg: Config, k: Key, tests: seq<Test>)
    requires forall t :: t in tests ==> k !in cfg.conflicts(t)
    ensures Carrying(cfg, k, tests) == [] && Carrying(cfg, k, Reverse(tests)) == []
  {
    if tests != [] {
      CarryingNone(cfg, k, tests[1..]);
      CarryingConcat(cfg, k, Reverse(tests[1..]), [tests[0]]);
    }
  }

  /** No test on any other key's waiting list carries k. */
  ghost predicate WaitsApart(cfg: Config, k: Key, waiting: Waiting) {
    forall q, t :: q != k && t in WaitingFor(waiting, q) ==> k !in cfg.conflicts(t)
  }

  // ---------------------------------------------------------- membership

  lemma {:induction false} WaitingIn(waiting: Waiting, k: Key)
    ensures multiset(WaitingFor(waiting, k)) <= AllWaiting(waiting)
  {
    if waiting != [] && waiting[0].0 != k { WaitingIn(waiting[1..], k); }
  }

  /** Tests in the master's hands come from the given list, so key k stands alone there too. */
  lemma HandsOk(cfg: Config, files: seq<Test>, s: State, k: Key)
    requires multiset(files) == Everything(s.master, Unreported(s.workers), s.results)
    requires WaitingOk(cfg, s.master.active, s.master.waiting) && Sole(cfg, files, k)
    ensures forall t :: t in s.master.stack || t in s.master.sequential ==> t in files
    ensures WaitsApart(cfg, k, s.master.waiting)
  {
    forall t | t in s.master.stack || t in s.master.sequential
      ensures t in files
    {
      assert t in multiset(s.master.stack) || t in multiset(s.master.sequential);
      assert t in Everything(s.master, Unreported(s.workers), s.results);
      assert t in multiset(files);
    }
    forall q, t | q != k && t in WaitingFor(s.master.waiting, q)
      ensures k !in cfg.conflicts(t)
    {
      WaitingIn(s.master.waiting, q);
      assert t in multiset(WaitingFor(s.master.waiting, q));
      assert t in Everything(s.master, Unreported(s.workers), s.results);
      assert t in multiset(files);
    }
  }

  // ---------------------------------------------------------- the pop loop

  function PopQueue(cfg: Config, k: Key, p: Popping): seq<Test> {
    Carrying(cfg, k, p.files) + Queue(cfg, k, p.stack, p.waiting)
  }

  lemma PopOne(cfg: Config, k: Key, stack: seq<Test>)
    requires stack != []
    ensures Carrying(cfg, k, Reverse(stack))
         == Carrying(cfg, k, [Last(stack)]) + Carrying(cfg, k, Reverse(DropLast(stack)))
  {
    var file := Last(stack);
    assert stack == DropLast(stack) + [file];
    ReverseConcat(DropLast(stack), [file]);
    assert Reverse([file]) == [file];
    CarryingConcat(cfg, k, [file], Reverse(DropLast(stack)));
  }

  /** A test deferred to k, or to a key k's tests do not carry, keeps its place in k's order. */
  lemma DeferOrder(cfg: Config, k: Key, p: Popping, q: Key)
    requires p.stack != [] && q in cfg.conflicts(Last(p.stack))
    requires k in cfg.conflicts(Last(p.stack)) ==> q == k
    ensures PopQueue(cfg, k, Popping(DropLast(p.stack), Defer(p.waiting, q, Last(p.stack)), p.files))
         == PopQueue(cfg, k, p)
  {
    var file := Last(p.stack);
    PopOne(cfg, k, p.stack);
    GetSet(p.waiting, q, WaitingFor(p.waiting, q) + [file], k);
    CarryingConcat(cfg, k, WaitingFor(p.waiting, k), [file]);
    assert WaitingFor(Defer(p.waiting, q, file), k) == WaitingFor(p.waiting, k) + if k == q then [file] else [];
    if k == q {
      Regroup(Carrying(cfg, k, p.files), Carrying(cfg, k, WaitingFor(p.waiting, k)), [file],
              Carrying(cfg, k, Reverse(DropLast(p.stack))));
    }
  }

  lemma Regroup(a: seq<Test>, b: seq<Test>, c: seq<Test>, d: seq<Test>)
    ensures a + b + (c + d) == a + (b + c) + d
    ensures a + (b + (c + d)) == a + ((b + c) + d)
  {
  }

  lemma TakeOrder(cfg: Config, k: Key, p: Popping)
    requires p.stack != []
    requires k in cfg.conflicts(Last(p.stack)) ==> WaitingFor(p.waiting, k) == []
    ensures PopQueue(cfg, k, Popping(DropLast(p.stack), p.waiting, p.files + [Last(p.stack)])) == PopQueue(cfg, k, p)
  {
    PopOne(cfg, k, p.stack);
    CarryingConcat(cfg, k, p.files, [Last(p.stack)]);
  }

  lemma {:induction false} PopBatchOrder(cfg: Config, files: seq<Test>, k: Key, size: nat, active: Dict<Key, int>,
                                         p: Popping)
    requires PoppingOk(cfg, active, p) && Sole(cfg, files, k)
    requires forall t :: t in p.stack ==> t in files
    ensures PopQueue(cfg, k, PopBatch(cfg, size, active, p)) == PopQueue(cfg, k, p)
    decreases |p.stack|
  {
    if |p.files| <= size && p.stack != [] {
      var file := Last(p.stack);
      assert file in p.stack;
      FirstHeldMeans(cfg.conflicts(file), active);
      match FirstHeld(cfg.conflicts(file), active)
      case Some(q) =>
        DeferOk(cfg, active, p, q);
        DeferOrder(cfg, k, p, q);
        PopBatchOrder(cfg, files, k, size, active, Popping(DropLast(p.stack), Defer(p.waiting, q, file), p.files));
      case None =>
        TakeOk(cfg, active, p);
        TakeOrder(cfg, k, p);
        PopBatchOrder(cfg, files, k, size, active, Popping(DropLast(p.stack), p.waiting, p.files + [file]));
    }
  }

  // ---------------------------------------------------------- releasing keys

  /** The tests that waited for a freed key go to the top of the stack, oldest on top. */
  lemma FreeOneOrder(cfg: Config, k: Key, stack: seq<Test>, waiting: Waiting, q: Key)
    requires WaitsApart(cfg, k, waiting)
    ensures WaitsApart(cfg, k, Unset(waiting, q))
    ensures Queue(cfg, k, stack + Reverse(WaitingFor(waiting, q)), Unset(waiting, q)) == Queue(cfg, k, stack, waiting)
  {
    var back := WaitingFor(waiting, q);
    StackedBack(cfg, k, stack, back);
    WaitingAfterUnset(waiting, q, k);
    if q != k {
      CarryingNone(cfg, k, back);
    }
    UnsetApart(cfg, k, waiting, q);
  }

  /** Tests pushed back from the newest to the oldest come before what is stacked. */
  lemma StackedBack(cfg: Config, k: Key, stack: seq<Test>, back: seq<Test>)
    ensures Carrying(cfg, k, Reverse(stack + Reverse(back)))
         == Carrying(cfg, k, back) + Carrying(cfg, k, Reverse(stack))
  {
    ReverseConcat(stack, Reverse(back));
    ReverseTwice(back);
    CarryingConcat(cfg, k, back, Reverse(stack));
  }

  lemma WaitingAfterUnset(waiting: Waiting, q: Key, k: Key)
    ensures WaitingFor(Unset(waiting, q), k) == if q == k then [] else WaitingFor(waiting, k)
  {
    GetUnset(waiting, q, k);
  }

  lemma UnsetApart(cfg: Config, k: Key, waiting: Waiting, q: Key)
    requires WaitsApart(cfg, k, waiting)
    ensures WaitsApart(cfg, k, Unset(waiting, q))
  {
    forall r, t | r != k && t in WaitingFor(Unset(waiting, q), r)
      ensures k !in cfg.conflicts(t)
    {
      GetUnset(waiting, q, r);
      assert t in WaitingFor(waiting, r);
    }
  }

  lemma {:induction false} ReleaseOrder(cfg: Config, k: Key, entries: Dict<Key, int>, m: Master, w: nat)
    requires WaitsApart(cfg, k, m.waiting)
    ensures var r := Release(entries, m, w);
      Queue(cfg, k, r.stack, r.waiting) == Queue(cfg, k, m.stack, m.waiting)
    decreases |entries|
  {
    if entries != [] {
      var q := entries[0].0;
      if entries[0].1 == w {
        FreeOneOrder(cfg, k, m.stack, m.waiting, q);
        ReleaseOrder(cfg, k, entries[1..], m.(active := Unset(m.active, q),
                                              stack := m.stack + Reverse(WaitingFor(m.waiting, q)),
                                              waiting := Unset(m.waiting, q)), w);
      } else {
        ReleaseOrder(cfg, k, entries[1..], m, w);
      }
    }
  }

  // ---------------------------------------------------------- single steps

  /** The holder of k is the worker whose batch carries it. */
  lemma Holder(cfg: Config, s: State, k: Key, w: nat)
    requires ActiveOk(cfg, s.master.active, Batches(s.workers)) && w < |s.workers|
    ensures Get(s.master.active, k) == Some(w) <==> Carries(cfg, s.workers[w].batch, k)
  {
    assert Batches(s.workers)[w] == s.workers[w].batch;
  }

  /** A worker that is not k's holder does not touch what is left of k. */
  lemma HeldElsewhere(cfg: Config, k: Key, active: Dict<Key, int>, ws: seq<Worker>, w: nat, worker: Worker)
    requires w < |ws|
    requires Get(active, k) == Some(w) ==>
      Carrying(cfg, k, Unexecuted(worker)) == Carrying(cfg, k, Unexecuted(ws[w]))
    ensures HeldRest(cfg, k, active, ws[w := worker]) == HeldRest(cfg, k, active, ws)
  {
    var held := Get(active, k);
    if held.Some? && held.value == w { assert held == Some(w); }
  }

  /** What is left of k, seen from its holder. */
  lemma HeldBy(cfg: Config, k: Key, active: Dict<Key, int>, ws: seq<Worker>, w: nat)
    requires w < |ws| && Get(active, k) == Some(w)
    ensures HeldRest(cfg, k, active, ws) == Carrying(cfg, k, Unexecuted(ws[w]))
  {
  }

  /** Running a test of k takes it off the front of what k's holder has left. */
  lemma HeldRun(cfg: Config, k: Key, active: Dict<Key, int>, ws: seq<Worker>, w: nat, worker: Worker, t: Test)
    requires w < |ws| && Unexecuted(ws[w]) == [t] + Unexecuted(worker)
    requires k in cfg.conflicts(t) ==> Get(active, k) == Some(w)
    ensures HeldRest(cfg, k, active, ws) == Carrying(cfg, k, [t]) + HeldRest(cfg, k, active, ws[w := worker])
  {
    CarryingConcat(cfg, k, [t], Unexecuted(worker));
    if k in cfg.conflicts(t) {
      HeldBy(cfg, k, active, ws, w);
      HeldBy(cfg, k, active, ws[w := worker], w);
    } else {
      HeldElsewhere(cfg, k, active, ws, w, worker);
    }
  }

  /** A test being run has its keys held by its worker. */
  lemma RunnerHolds(cfg: Config, files: seq<Test>, k: Key, s: State, w: nat)
    requires Inv(cfg, files, s) && Enabled(s, RunOne(w)) && k in cfg.conflicts(s.workers[w].running.value[0])
    ensures Get(s.master.active, k) == Some(w)
  {
    InvMeans(cfg, files, s);
    assert WorkerOk(s.workers[w], w in s.master.procs);
    assert s.workers[w].running.value[0] in Unexecuted(s.workers[w]);
    Holder(cfg, s, k, w);
  }

  /** A step of a worker moves no test of k but one from its holder to those run. */
  lemma HeldAfterStep(cfg: Config, files: seq<Test>, s: State, step: Step, k: Key)
    requires Inv(cfg, files, s) && Enabled(s, step) && !step.Receive?
    ensures var s' := Next(cfg, s, step);
      && s'.master == s.master
      && Carrying(cfg, k, s'.executed) + HeldRest(cfg, k, s.master.active, s'.workers)
         == Carrying(cfg, k, s.executed) + HeldRest(cfg, k, s.master.active, s.workers)
  {
    var w, s' := step.w, Next(cfg, s, step);
    if step.RunOne? {
      var t := s.workers[w].running.value[0];
      if k in cfg.conflicts(t) { RunnerHolds(cfg, files, k, s, w); }
      CarryingConcat(cfg, k, s.executed, [t]);
      HeldRun(cfg, k, s.master.active, s.workers, w, s'.workers[w], t);
      Move(Carrying(cfg, k, s.executed), Carrying(cfg, k, [t]), HeldRest(cfg, k, s.master.active, s'.workers), []);
    } else {
      StageOf(cfg, files, s, w);
      HeldElsewhere(cfg, k, s.master.active, s.workers, w, s'.workers[w]);
    }
  }

  lemma Move<T>(a: seq<T>, b: seq<T>, c: seq<T>, d: seq<T>)
    ensures a + (b + c) + d == (a + b) + c + d
  {
  }

  lemma WorkerStepInOrder(cfg: Config, files: seq<Test>, k: Key, s: State, step: Step)
    requires Inv(cfg, files, s) && InOrder(cfg, files, k, s) && Enabled(s, step) && !step.Receive?
    ensures InOrder(cfg, files, k, Next(cfg, s, step))
  {
    HeldAfterStep(cfg, files, s, step, k);
  }

  /** Adding the sequential tests puts none of k's tests on the stack. */
  lemma MergedOrder(cfg: Config, files: seq<Test>, k: Key, m: Master)
    requires Sole(cfg, files, k)
    requires forall t :: t in m.sequential ==> t in files && IsSequential(cfg, t)
    ensures Queue(cfg, k, Merged(m).stack, m.waiting) == Queue(cfg, k, m.stack, m.waiting)
  {
    CarryingNone(cfg, k, m.sequential);
    ReverseConcat(m.stack, m.sequential);
    CarryingConcat(cfg, k, Reverse(m.sequential), Reverse(m.stack));
  }

  /** Handing a batch to idle worker w moves k's tests from the queue to w. */
  lemma SendOrder(cfg: Config, k: Key, active: Dict<Key, int>, ws: seq<Worker>, w: nat, batch: seq<Test>)
    requires ActiveOk(cfg, active, Batches(ws)) && w < |ws| && ws[w] == IDLE_WORKER
    requires Carries(cfg, batch, k) ==> !Has(active, k)
    ensures HeldRest(cfg, k, Claim(cfg, active, batch, w), ws[w := Worker([batch], None, [], batch)])
         == HeldRest(cfg, k, active, ws) + Carrying(cfg, k, batch)
  {
    var claimed := Claim(cfg, active, batch, w);
    var worker := Worker([batch], None, [], batch);
    ClaimMeans(cfg, active, batch, w);
    if Carries(cfg, batch, k) {
      HeldBy(cfg, k, claimed, ws[w := worker], w);
      assert HeldRest(cfg, k, active, ws) == [];
    } else {
      CarryingNone(cfg, k, batch);
      HeldElsewhere(cfg, k, active, ws, w, worker);
      SameHolder(cfg, k, active, claimed, ws[w := worker]);
    }
  }

  lemma SameHolder(cfg: Config, k: Key, active: Dict<Key, int>, active': Dict<Key, int>, ws: seq<Worker>)
    requires Get(active, k) == Get(active', k)
    ensures HeldRest(cfg, k, active, ws) == HeldRest(cfg, k, active', ws)
  {
  }

  lemma AnswerInOrder(cfg: Config, files: seq<Test>, k: Key, s: State, w: nat)
    requires Awaiting(cfg, files, s, w) && InOrder(cfg, files, k, s) && Sole(cfg, files, k)
    ensures InOrder(cfg, files, k, Answer(cfg, s, w))
  {
    var m := Merged(s.master);
    var p := PopAll(cfg, m);
    AwaitingMeans(cfg, files, s, w);
    AnswerQueue(cfg, files, k, s, w);
    AnsweredInOrder(cfg, files, k, s, w, m, p);
    if p.files != [] {
      assert IDLE_WORKER.inbox + [p.files] == [p.files];
    }
  }

  /** The pop loop leaves k's tests in order, and takes some only if k is free. */
  lemma AnswerQueue(cfg: Config, files: seq<Test>, k: Key, s: State, w: nat)
    requires Awaiting(cfg, files, s, w) && Sole(cfg, files, k)
    ensures var m := Merged(s.master);
      PopQueue(cfg, k, PopAll(cfg, m)) == Queue(cfg, k, s.master.stack, s.master.waiting)
      && (Carries(cfg, PopAll(cfg, m).files, k) ==> !Has(m.active, k))
  {
    var m := Merged(s.master);
    AwaitingMeans(cfg, files, s, w);
    HandsOk(cfg, files, s, k);
    MergedOrder(cfg, files, k, s.master);
    MergedOk(cfg, s.master, Batches(s.workers), Unreported(s.workers), s.results);
    PoppedOk(cfg, m);
    PoppedQueue(cfg, files, k, m);
  }

  lemma PoppedQueue(cfg: Config, files: seq<Test>, k: Key, m: Master)
    requires m.procs != {} && WaitingOk(cfg, m.active, m.waiting) && Sole(cfg, files, k)
    requires forall t :: t in m.stack ==> t in files
    ensures PopQueue(cfg, k, PopAll(cfg, m)) == Queue(cfg, k, m.stack, m.waiting)
  {
    PopBatchOrder(cfg, files, k, BatchSize(cfg, |m.procs|), m.active, Popping(m.stack, m.waiting, []));
  }

  lemma AnsweredInOrder(cfg: Config, files: seq<Test>, k: Key, s: State, w: nat, m: Master, p: Popping)
    requires ActiveOk(cfg, s.master.active, Batches(s.workers)) && w < |s.workers| && s.workers[w] == IDLE_WORKER
    requires InOrder(cfg, files, k, s) && m.active == s.master.active
    requires PopQueue(cfg, k, p) == Queue(cfg, k, s.master.stack, s.master.waiting)
    requires Carries(cfg, p.files, k) ==> !Has(m.active, k)
    ensures p.files == [] ==>
      Carrying(cfg, k, s.executed) + HeldRest(cfg, k, m.active, s.workers) + Queue(cfg, k, p.stack, p.waiting)
        == Carrying(cfg, k, files)
    ensures p.files != [] ==>
      Carrying(cfg, k, s.executed)
        + HeldRest(cfg, k, Claim(cfg, m.active, p.files, w), s.workers[w := Worker([p.files], None, [], p.files)])
        + Queue(cfg, k, p.stack, p.waiting)
        == Carrying(cfg, k, files)
  {
    SendOrder(cfg, k, m.active, s.workers, w, p.files);
    Regroup(Carrying(cfg, k, s.executed), HeldRest(cfg, k, m.active, s.workers), Carrying(cfg, k, p.files),
            Queue(cfg, k, p.stack, p.waiting));
    if p.files == [] {
      assert PopQueue(cfg, k, p) == Queue(cfg, k, p.stack, p.waiting);
    }
  }

  /** The end of a batch leaves every key's remaining tests as they are. */
  lemma EndedHeld(cfg: Config, files: seq<Test>, s: State, w: nat, k: Key)
    requires Inv(cfg, files, s) && Enabled(s, Receive(w)) && s.workers[w].outbox[0] == Finished
    ensures var s' := Ended(s.(workers := s.workers[w := s.workers[w].(outbox := s.workers[w].outbox[1..])]), w);
      HeldRest(cfg, k, s'.master.active, s'.workers) == HeldRest(cfg, k, s.master.active, s.workers)
  {
    InvMeans(cfg, files, s);
    LastMessage(s.workers[w]);
    ReleaseMeans(s.master.active, s.master, w);
    MemberIffGet(s.master.active, k, w);
    var worker := s.workers[w].(outbox := [], batch := []);
    var s' := Ended(s.(workers := s.workers[w := s.workers[w].(outbox := s.workers[w].outbox[1..])]), w);
    assert s'.workers == s.workers[w := worker];
    assert Unexecuted(worker) == Unexecuted(s.workers[w]) == [];
    HeldElsewhere(cfg, k, s.master.active, s.workers, w, worker);
    if Get(s.master.active, k) == Some(w) {
      HeldBy(cfg, k, s.master.active, s.workers, w);
    } else {
      SameHolder(cfg, k, s.master.active, s'.master.active, s'.workers);
    }
  }

  lemma FinishedInOrder(cfg: Config, files: seq<Test>, k: Key, s: State, w: nat)
    requires Inv(cfg, files, s) && InOrder(cfg, files, k, s) && Sole(cfg, files, k)
    requires Enabled(s, Receive(w)) && s.workers[w].outbox[0] == Finished
    ensures InOrder(cfg, files, k,
      Ended(s.(workers := s.workers[w := s.workers[w].(outbox := s.workers[w].outbox[1..])]), w))
  {
    EndedHeld(cfg, files, s, w, k);
    InvMeans(cfg, files, s);
    HandsOk(cfg, files, s, k);
    ReleaseOrder(cfg, k, s.master.active, s.master, w);
  }

  /** Reading a message does not change what worker w has left to run. */
  lemma TakenInOrder(cfg: Config, files: seq<Test>, k: Key, s: State, w: nat)
    requires InOrder(cfg, files, k, s) && w < |s.workers| && s.workers[w].outbox != []
    ensures InOrder(cfg, files, k, s.(workers := s.workers[w := s.workers[w].(outbox := s.workers[w].outbox[1..])]))
  {
    HeldElsewhere(cfg, k, s.master.active, s.workers, w, s.workers[w].(outbox := s.workers[w].outbox[1..]));
  }

  lemma ReadyInOrder(cfg: Config, files: seq<Test>, k: Key, s: State, w: nat)
    requires Inv(cfg, files, s) && InOrder(cfg, files, k, s) && Sole(cfg, files, k)
    requires Enabled(s, Receive(w)) && s.workers[w].outbox[0] == Ready
    ensures InOrder(cfg, files, k, Next(cfg, s, Receive(w)))
  {
    ReadyOk(cfg, files, s, w);
    TakenInOrder(cfg, files, k, s, w);
    var taken := s.(workers := s.workers[w := s.workers[w].(outbox := s.workers[w].outbox[1..])]);
    AnswerInOrder(cfg, files, k, taken, w);
  }

  lemma EndInOrder(cfg: Config, files: seq<Test>, k: Key, s: State, w: nat)
    requires Inv(cfg, files, s) && InOrder(cfg, files, k, s) && Sole(cfg, files, k)
    requires Enabled(s, Receive(w)) && s.workers[w].outbox[0] == Finished
    ensures InOrder(cfg, files, k, Next(cfg, s, Receive(w)))
  {
    FinishedOk(cfg, files, s, w);
    FinishedInOrder(cfg, files, k, s, w);
    var taken := s.(workers := s.workers[w := s.workers[w].(outbox := s.workers[w].outbox[1..])]);
    AnswerInOrder(cfg, files, k, Ended(taken, w), w);
  }

  lemma StepInOrder(cfg: Config, files: seq<Test>, k: Key, s: State, step: Step)
    requires Inv(cfg, files, s) && InOrder(cfg, files, k, s) && Sole(cfg, files, k) && Enabled(s, step)
    ensures InOrder(cfg, files, k, Next(cfg, s, step))
  {
    if step.Receive? {
      match s.workers[step.w].outbox[0]
      case Result(t) => TakenInOrder(cfg, files, k, s, step.w);
      case Ready => ReadyInOrder(cfg, files, k, s, step.w);
      case Finished => EndInOrder(cfg, files, k, s, step.w);
    } else {
      WorkerStepInOrder(cfg, files, k, s, step);
    }
  }

  lemma {:induction false} RunInOrder(cfg: Config, files: seq<Test>, k: Key, s: State, steps: seq<Step>, t: State)
    requires Inv(cfg, files, s) && InOrder(cfg, files, k, s) && Sole(cfg, files, k) && Run(cfg, s, steps, t)
    ensures Inv(cfg, files, t) && InOrder(cfg, files, k, t)
    decreases |steps|
  {
    if steps != [] {
      StepOk(cfg, files, s, steps[0]);
      StepInOrder(cfg, files, k, s, steps[0]);
      RunInOrder(cfg, files, k, Next(cfg, s, steps[0]), steps[1..], t);
    }
  }

  lemma {:induction false} SelectCarrying(cfg: Config, files: seq<Test>, k: Key)
    requires Sole(cfg, files, k)
    ensures Carrying(cfg, k, Select(cfg, files, false)) == Carrying(cfg, k, files)
  {
    if files != [] {
      SelectCarrying(cfg, files[1..], k);
      assert files[0] in files;
      CarryingConcat(cfg, k, if IsSequential(cfg, files[0]) then [] else [files[0]], Select(cfg, files[1..], false));
    }
  }

  lemma StartInOrder(cfg: Config, files: seq<Test>, requested: nat, k: Key)
    requires !cfg.shuffle && Sole(cfg, files, k)
    ensures InOrder(cfg, files, k, Start(cfg, files, requested))
  {
    var parallel := Select(cfg, files, false);
    SelectCarrying(cfg, files, k);
    ReverseTwice(parallel);
    var s := Start(cfg, files, requested);
    assert Queue(cfg, k, s.master.stack, s.master.waiting) == Carrying(cfg, k, parallel);
  }

  /** Unshuffled tests that carry one key and no other run in the order given: at any
      moment those run are a prefix of those given, and at the end they are all of them. */
  lemma OrderKept(cfg: Config, files: seq<Test>, requested: nat, steps: seq<Step>, s: State, k: Key)
    requires Run(cfg, Start(cfg, files, requested), steps, s)
    requires !cfg.shuffle && Sole(cfg, files, k)
    ensures Carrying(cfg, k, s.executed) <= Carrying(cfg, k, files)
    ensures !LoopActive(s.master) ==> Carrying(cfg, k, s.executed) == Carrying(cfg, k, files)
  {
    StartOk(cfg, files, requested);
    StartInOrder(cfg, files, requested, k);
    RunInOrder(cfg, files, k, Start(cfg, files, requested), steps, s);
    if !LoopActive(s.master) {
      InvMeans(cfg, files, s);
      DoneMeansAllResults(cfg, files, s);
      IdleMeans(Batches(s.workers));
      NothingHeld(cfg, s.master.active, Batches(s.workers));
      assert !Has(s.master.active, k);
      assert HeldRest(cfg, k, s.master.active, s.workers) == [];
      assert Queue(cfg, k, s.master.stack, s.master.waiting) == [];
    }
  }
}
