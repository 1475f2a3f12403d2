/** What holds in every reachable state of the scheduler: conflict keys exclude each
    other, tests that conflict with everything run alone, and no test is lost or doubled. */
module SchedulerSafety {
  import opened Folded
  import opened Options
  import opened PhpArray
  import opened Sequences
  import opened Scheduler

  // --------------------------------------------------------------- vocabulary

  /** Some test of the batch carries key k. */
  ghost predicate Carries(cfg: Config, batch: seq<Test>, k: Key) {
    exists t :: t in batch && k in cfg.conflicts(t)
  }

  /** The tests of w's current command it has not yet run. */
  function Unexecuted(w: Worker): seq<Test> {
    if w.running.Some? then w.running.value
    else if w.inbox != [] then w.inbox[0]
    else []
  }

  predicate AllResults(outbox: seq<Message>) {
    forall i :: 0 <= i < |outbox| ==> outbox[i].Result?
  }

  /** The four stages of a live worker. */
  predicate Starting(w: Worker) {
    w.inbox == [] && w.running.None? && w.outbox == [Ready] && w.batch == []
  }

  predicate Sent(w: Worker) {
    w.inbox == [w.batch] && w.running.None? && w.outbox == [] && w.batch != []
  }

  predicate Running(w: Worker) {
    w.inbox == [] && w.running.Some? && AllResults(w.outbox) && w.batch != []
  }

  predicate Reporting(w: Worker) {
    && w.inbox == [] && w.running.None? && w.batch != []
    && w.outbox != [] && Last(w.outbox) == Finished && AllResults(DropLast(w.outbox))
  }

  predicate Retired(w: Worker) {
    w.inbox == [] && w.running.None? && w.outbox == [] && w.batch == []
  }

  ghost predicate WorkerOk(w: Worker, live: bool) {
    && (if live then Starting(w) || Sent(w) || Running(w) || Reporting(w) else Retired(w))
    && forall t :: t in Unexecuted(w) ==> t in w.batch
  }

  ghost predicate WorkersOk(s: State) {
    && (forall w :: w in s.master.procs ==> w < |s.workers|)
    && (forall w: nat :: w < |s.workers| ==> WorkerOk(s.workers[w], w in s.master.procs))
  }

  /** The batches the master has not heard the end of, by worker. */
  function Batches(ws: seq<Worker>): (r: seq<seq<Test>>)
    ensures |r| == |ws| && forall i :: 0 <= i < |ws| ==> r[i] == ws[i].batch
  {
    seq(|ws|, i requires 0 <= i < |ws| => ws[i].batch)
  }

  function Busy(batches: seq<seq<Test>>): nat {
    if batches == [] then 0 else (if batches[0] != [] then 1 else 0) + Busy(batches[1..])
  }

  /** A key is held by exactly the worker whose batch carries it. */
  ghost predicate ActiveOk(cfg: Config, active: Dict<Key, int>, batches: seq<seq<Test>>) {
    && UniqueKeys(active)
    && forall k, w: int :: Get(active, k) == Some(w) <==> 0 <= w < |batches| && Carries(cfg, batches[w], k)
  }

  /** Tests wait only for keys they carry that some worker holds. */
  ghost predicate WaitingOk(cfg: Config, active: Dict<Key, int>, waiting: Waiting) {
    && UniqueKeys(waiting)
    && (forall k :: Has(waiting, k) ==> Has(active, k))
    && (forall k, t :: t in WaitingFor(waiting, k) ==> k in cfg.conflicts(t))
  }

  ghost predicate NoneSequential(cfg: Config, tests: seq<Test>) {
    forall t :: t in tests ==> !IsSequential(cfg, t)
  }

  /** No test that conflicts with everything is stacked, waiting or with a worker. */
  ghost predicate AllParallel(cfg: Config, m: Master, batches: seq<seq<Test>>) {
    && NoneSequential(cfg, m.stack)
    && (forall k :: NoneSequential(cfg, WaitingFor(m.waiting, k)))
    && (forall w :: 0 <= w < |batches| ==> NoneSequential(cfg, batches[w]))
  }

  function ResultsIn(outbox: seq<Message>): multiset<Test> {
    if outbox == [] then multiset{}
    else (if outbox[0].Result? then multiset{outbox[0].test} else multiset{}) + ResultsIn(outbox[1..])
  }

  /** The tests handed to a worker whose result the master has not read. */
  function Load(w: Worker): multiset<Test> {
    ResultsIn(w.outbox) + multiset(Unexecuted(w))
  }

  function Loads(ws: seq<Worker>): (r: seq<multiset<Test>>)
    ensures |r| == |ws| && forall i :: 0 <= i < |ws| ==> r[i] == Load(ws[i])
  {
    seq(|ws|, i requires 0 <= i < |ws| => Load(ws[i]))
  }

  function Total(bags: seq<multiset<Test>>): multiset<Test> {
    if bags == [] then multiset{} else bags[0] + Total(bags[1..])
  }

  function Unreported(ws: seq<Worker>): multiset<Test> {
    Total(Loads(ws))
  }

  function AllWaiting(waiting: Waiting): multiset<Test> {
    if waiting == [] then multiset{} else multiset(waiting[0].1) + AllWaiting(waiting[1..])
  }

  /** Every test, wherever it is. */
  function Everything(m: Master, unreported: multiset<Test>, results: seq<Test>): multiset<Test> {
    multiset(m.stack) + multiset(m.sequential) + AllWaiting(m.waiting) + unreported + multiset(results)
  }

  /** What the master and the batches it sent must satisfy between two messages. */
  ghost predicate MasterOk(cfg: Config, m: Master, batches: seq<seq<Test>>) {
    && m.inProgress == Busy(batches)
    && ActiveOk(cfg, m.active, batches)
    && WaitingOk(cfg, m.active, m.waiting)
    && (forall t :: t in m.sequential ==> IsSequential(cfg, t))
    && (|m.procs| > 1 ==> AllParallel(cfg, m, batches))
  }

  ghost predicate InvOk(cfg: Config, files: seq<Test>, s: State) {
    && WorkersOk(s)
    && MasterOk(cfg, s.master, Batches(s.workers))
    // every test is in exactly one place
    && multiset(files) == Everything(s.master, Unreported(s.workers), s.results)
    // the last worker is not retired while a test is left to hand out
    && (s.master.procs == {} ==> s.master.stack == [] && s.master.sequential == [])
  }

  /** The invariant; folded. */
  ghost predicate Inv(cfg: Config, files: seq<Test>, s: State) {
    Agrees(InvOk(cfg, files, s));
    var r: bool :| forall depth: nat {:trigger Inspected(depth)} :: Agree(r, InvOk(cfg, files, s));
    r
  }

  lemma InvMeans(cfg: Config, files: seq<Test>, s: State)
    ensures Inv(cfg, files, s) <==> InvOk(cfg, files, s)
  {
    assert Inspected(0);
  }

  // ------------------------------------------------- replacing one worker

  lemma {:induction false} BusyUpdate(batches: seq<seq<Test>>, i: nat, batch: seq<Test>)
    requires i < |batches|
    ensures Busy(batches[i := batch])
         == Busy(batches) - (if batches[i] != [] then 1 else 0) + (if batch != [] then 1 else 0)
  {
    var batches' := batches[i := batch];
    if i == 0 {
      assert batches'[1..] == batches[1..];
    } else {
      assert batches'[1..] == batches[1..][i - 1 := batch];
      BusyUpdate(batches[1..], i - 1, batch);
    }
  }

  lemma {:induction false} TotalUpdate(bags: seq<multiset<Test>>, i: nat, bag: multiset<Test>)
    requires i < |bags|
    ensures Total(bags[i := bag]) + bags[i] == Total(bags) + bag
  {
    var bags' := bags[i := bag];
    if i == 0 {
      assert bags'[1..] == bags[1..];
      Swap(bag, Total(bags[1..]), bags[0]);
    } else {
      assert bags'[1..] == bags[1..][i - 1 := bag];
      TotalUpdate(bags[1..], i - 1, bag);
      Shift(bags[0], Total(bags'[1..]), bags[i], Total(bags[1..]), bag);
    }
  }

  lemma {:induction false} TotalEmpty(bags: seq<multiset<Test>>)
    requires forall i :: 0 <= i < |bags| ==> bags[i] == multiset{}
    ensures Total(bags) == multiset{}
  {
    if bags != [] { TotalEmpty(bags[1..]); }
  }

  lemma UnreportedUpdate(ws: seq<Worker>, i: nat, w: Worker)
    requires i < |ws|
    ensures Unreported(ws[i := w]) + Load(ws[i]) == Unreported(ws) + Load(w)
  {
    assert Loads(ws[i := w]) == Loads(ws)[i := Load(w)];
    TotalUpdate(Loads(ws), i, Load(w));
  }

  lemma Swap(a: multiset<Test>, b: multiset<Test>, c: multiset<Test>)
    ensures a + b + c == c + b + a
  {
  }

  lemma Cancel(a: multiset<Test>, b: multiset<Test>, c: multiset<Test>, d: multiset<Test>)
    requires a + b == c + (b + d)
    ensures a == c + d
  {
    forall x: Test
      ensures a[x] == (c + d)[x]
    {
      assert (a + b)[x] == (c + (b + d))[x];
    }
  }

  lemma CancelSame(a: multiset<Test>, b: multiset<Test>, c: multiset<Test>)
    requires a + b == c + b
    ensures a == c
  {
    forall x: Test
      ensures a[x] == c[x]
    {
      assert (a + b)[x] == (c + b)[x];
    }
  }

  lemma Shift(a: multiset<Test>, b: multiset<Test>, c: multiset<Test>, d: multiset<Test>, e: multiset<Test>)
    requires b + c == d + e
    ensures a + b + c == a + d + e
  {
    assert a + b + c == a + (b + c);
    assert a + d + e == a + (d + e);
  }

  lemma {:induction false} ResultsInAppend(outbox: seq<Message>, x: Message)
    ensures ResultsIn(outbox + [x]) == ResultsIn(outbox) + (if x.Result? then multiset{x.test} else multiset{})
  {
    if outbox == [] {
      assert outbox + [x] == [x];
    } else {
      assert (outbox + [x])[1..] == outbox[1..] + [x];
      ResultsInAppend(outbox[1..], x);
    }
  }

  // ------------------------------------------------------------ waiting lists

  lemma {:induction false} AllWaitingSet(waiting: Waiting, k: Key, tests: seq<Test>)
    ensures AllWaiting(Set(waiting, k, tests)) + multiset(WaitingFor(waiting, k))
         == AllWaiting(waiting) + multiset(tests)
  {
    if waiting != [] {
      if waiting[0].0 == k {
        assert ([(k, tests)] + waiting[1..])[1..] == waiting[1..];
      } else {
        AllWaitingSet(waiting[1..], k, tests);
        var rest := Set(waiting[1..], k, tests);
        assert ([waiting[0]] + rest)[1..] == rest;
        Shift(multiset(waiting[0].1), AllWaiting(rest), multiset(WaitingFor(waiting, k)),
              AllWaiting(waiting[1..]), multiset(tests));
      }
    }
  }

  lemma {:induction false} AllWaitingUnset(waiting: Waiting, k: Key)
    requires UniqueKeys(waiting)
    ensures AllWaiting(Unset(waiting, k)) + multiset(WaitingFor(waiting, k)) == AllWaiting(waiting)
  {
    if waiting != [] {
      if waiting[0].0 == k {
        UnsetAbsent(waiting[1..], k);
      } else {
        AllWaitingUnset(waiting[1..], k);
      }
    }
  }

  lemma {:induction false} UnsetAbsent<V>(a: Dict<Key, V>, k: Key)
    requires forall i :: 0 <= i < |a| ==> a[i].0 != k
    ensures Unset(a, k) == a
  {
    if a != [] { UnsetAbsent(a[1..], k); }
  }

  lemma {:induction false} AllWaitingEmpty(waiting: Waiting)
    requires forall k :: !Has(waiting, k)
    ensures waiting == [] && AllWaiting(waiting) == multiset{}
  {
    if waiting != [] {
      assert Has(waiting, waiting[0].0);
    }
  }

  // -------------------------------------------------------------- held keys

  lemma {:induction false} FirstHeldMeans(keys: seq<Key>, active: Dict<Key, int>)
    ensures match FirstHeld(keys, active)
            case Some(k) => k in keys && Has(active, k)
            case None => forall k :: k in keys ==> !Has(active, k)
  {
    if keys != [] && !Has(active, keys[0]) { FirstHeldMeans(keys[1..], active); }
  }

  lemma {:induction false} ClaimKeysMeans(active: Dict<Key, int>, keys: seq<Key>, w: nat)
    requires UniqueKeys(active)
    ensures UniqueKeys(ClaimKeys(active, keys, w))
    ensures forall k :: Get(ClaimKeys(active, keys, w), k) == if k in keys then Some(w) else Get(active, k)
    decreases |keys|
  {
    if keys != [] {
      SetMembers(active, keys[0], w);
      ClaimKeysMeans(Set(active, keys[0], w), keys[1..], w);
      forall k
        ensures Get(Set(active, keys[0], w), k) == if k == keys[0] then Some(w) else Get(active, k)
      {
        GetSet(active, keys[0], w, k);
      }
    }
  }

  lemma {:induction false} ClaimMeans(cfg: Config, active: Dict<Key, int>, files: seq<Test>, w: nat)
    requires UniqueKeys(active)
    ensures UniqueKeys(Claim(cfg, active, files, w))
    ensures forall k ::
      Get(Claim(cfg, active, files, w), k) == if Carries(cfg, files, k) then Some(w) else Get(active, k)
    decreases |files|
  {
    if files != [] {
      var claimed := ClaimKeys(active, cfg.conflicts(files[0]), w);
      ClaimKeysMeans(active, cfg.conflicts(files[0]), w);
      ClaimMeans(cfg, claimed, files[1..], w);
      forall k
        ensures Carries(cfg, files, k) <==> k in cfg.conflicts(files[0]) || Carries(cfg, files[1..], k)
      {
        if k in cfg.conflicts(files[0]) { assert files[0] in files; }
        if Carries(cfg, files[1..], k) {
          var t :| t in files[1..] && k in cfg.conflicts(t);
          assert t in files;
        }
      }
    }
  }

  // --------------------------------------------------------- popping a batch

  /** What holds of the tests met so far while a batch is being popped. */
  ghost predicate PoppingOk(cfg: Config, active: Dict<Key, int>, p: Popping) {
    && UniqueKeys(p.waiting)
    && (forall k :: Has(p.waiting, k) ==> Has(active, k))
    && (forall k, t :: t in WaitingFor(p.waiting, k) ==> k in cfg.conflicts(t))
    && (forall k :: Carries(cfg, p.files, k) ==> !Has(active, k))
  }

  function AllOf(p: Popping): multiset<Test> {
    multiset(p.stack) + AllWaiting(p.waiting) + multiset(p.files)
  }

  lemma DeferOk(cfg: Config, active: Dict<Key, int>, p: Popping, k: Key)
    requires PoppingOk(cfg, active, p) && p.stack != []
    requires k in cfg.conflicts(Last(p.stack)) && Has(active, k)
    ensures PoppingOk(cfg, active, Popping(DropLast(p.stack), Defer(p.waiting, k, Last(p.stack)), p.files))
    ensures forall q, t :: t in WaitingFor(Defer(p.waiting, k, Last(p.stack)), q) ==>
      t in WaitingFor(p.waiting, q) || t in p.stack
  {
    var file := Last(p.stack);
    var tests := WaitingFor(p.waiting, k) + [file];
    SetMembers(p.waiting, k, tests);
    forall q
      ensures Get(Defer(p.waiting, k, file), q) == if q == k then Some(tests) else Get(p.waiting, q)
    {
      GetSet(p.waiting, k, tests, q);
    }
    forall q, t | t in WaitingFor(Defer(p.waiting, k, file), q)
      ensures q in cfg.conflicts(t) && (t in WaitingFor(p.waiting, q) || t in p.stack)
    {
      if q == k {
        assert t in tests;
        assert t == file || t in WaitingFor(p.waiting, k);
      } else {
        assert t in WaitingFor(p.waiting, q);
      }
    }
  }

  lemma DeferKeepsAll(p: Popping, k: Key)
    requires p.stack != []
    ensures AllOf(Popping(DropLast(p.stack), Defer(p.waiting, k, Last(p.stack)), p.files)) == AllOf(p)
  {
    var file := Last(p.stack);
    var tests := WaitingFor(p.waiting, k);
    AllWaitingSet(p.waiting, k, tests + [file]);
    assert multiset(tests + [file]) == multiset(tests) + multiset{file};
    Cancel(AllWaiting(Defer(p.waiting, k, file)), multiset(tests), AllWaiting(p.waiting), multiset{file});
    assert AllWaiting(Defer(p.waiting, k, file)) == AllWaiting(p.waiting) + multiset{file};
    assert p.stack == DropLast(p.stack) + [file];
  }

  lemma TakeOk(cfg: Config, active: Dict<Key, int>, p: Popping)
    requires PoppingOk(cfg, active, p) && p.stack != []
    requires forall k :: k in cfg.conflicts(Last(p.stack)) ==> !Has(active, k)
    ensures PoppingOk(cfg, active, Popping(DropLast(p.stack), p.waiting, p.files + [Last(p.stack)]))
    ensures AllOf(Popping(DropLast(p.stack), p.waiting, p.files + [Last(p.stack)])) == AllOf(p)
  {
    assert p.stack == DropLast(p.stack) + [Last(p.stack)];
  }

  lemma {:induction false} PopBatchOk(cfg: Config, size: nat, active: Dict<Key, int>, p: Popping)
    requires PoppingOk(cfg, active, p)
    ensures var r := PopBatch(cfg, size, active, p);
      && PoppingOk(cfg, active, r) && AllOf(r) == AllOf(p)
      && (forall t :: t in r.stack || t in r.files ==> t in p.stack || t in p.files)
      && (forall q, t :: t in WaitingFor(r.waiting, q) ==> t in WaitingFor(p.waiting, q) || t in p.stack)
      && (r.files == [] ==> r.stack == [])
      && (active == [] && p.stack != [] ==> r.files != [])
      && (p.files != [] ==> r.files != [])
    decreases |p.stack|
  {
    if |p.files| <= size && p.stack != [] {
      var file := Last(p.stack);
      assert forall t :: t in DropLast(p.stack) ==> t in p.stack;
      FirstHeldMeans(cfg.conflicts(file), active);
      match FirstHeld(cfg.conflicts(file), active)
      case Some(k) =>
        DeferOk(cfg, active, p, k);
        DeferKeepsAll(p, k);
        PopBatchOk(cfg, size, active, Popping(DropLast(p.stack), Defer(p.waiting, k, file), p.files));
      case None =>
        TakeOk(cfg, active, p);
        PopBatchOk(cfg, size, active, Popping(DropLast(p.stack), p.waiting, p.files + [file]));
    }
  }

  // ------------------------------------------------------------ releasing keys

  /** Releasing worker w takes away exactly its keys, and returns to the stack exactly
      the tests that waited for one of them. */
  lemma {:induction false} ReleaseMeans(entries: Dict<Key, int>, m: Master, w: nat)
    requires UniqueKeys(m.active) && UniqueKeys(m.waiting)
    ensures var r := Release(entries, m, w);
      && UniqueKeys(r.active) && UniqueKeys(r.waiting)
      && (forall k :: Get(r.active, k) == if (k, w) in entries then None else Get(m.active, k))
      && (forall k :: Get(r.waiting, k) == if (k, w) in entries then None else Get(m.waiting, k))
      && multiset(r.stack) + AllWaiting(r.waiting) == multiset(m.stack) + AllWaiting(m.waiting)
      && (forall t :: t in r.stack ==> t in m.stack || exists k :: t in WaitingFor(m.waiting, k))
    decreases |entries|
  {
    if entries != [] {
      var k0 := entries[0].0;
      if entries[0].1 == w {
        var m' := m.(active := Unset(m.active, k0),
                     stack := m.stack + Reverse(WaitingFor(m.waiting, k0)),
                     waiting := Unset(m.waiting, k0));
        UnsetMembers(m.active, k0);
        UnsetMembers(m.waiting, k0);
        AllWaitingUnset(m.waiting, k0);
        ReverseMultiset(WaitingFor(m.waiting, k0));
        forall k
          ensures Get(m'.active, k) == if k == k0 then None else Get(m.active, k)
          ensures Get(m'.waiting, k) == if k == k0 then None else Get(m.waiting, k)
        {
          GetUnset(m.active, k0, k);
          GetUnset(m.waiting, k0, k);
        }
        ReleaseMeans(entries[1..], m', w);
        forall t | t in m'.stack && t !in m.stack
          ensures t in WaitingFor(m.waiting, k0)
        {
          assert t in Reverse(WaitingFor(m.waiting, k0));
        }
        forall k, t | t in WaitingFor(m'.waiting, k)
          ensures t in WaitingFor(m.waiting, k)
        {
        }
      } else {
        ReleaseMeans(entries[1..], m, w);
      }
      assert forall k :: (k, w) in entries <==> entries[0] == (k, w) || (k, w) in entries[1..];
    }
  }

  // ----------------------------------------------------- the steps of a worker

  /** Replacing a worker without touching its batch or what it owes. */
  lemma ReplaceWorkerOk(cfg: Config, files: seq<Test>, s: State, w: nat, worker: Worker, executed: seq<Test>)
    requires Inv(cfg, files, s) && w < |s.workers|
    requires worker.batch == s.workers[w].batch && Load(worker) == Load(s.workers[w])
    requires WorkerOk(worker, w in s.master.procs)
    ensures Inv(cfg, files, s.(workers := s.workers[w := worker], executed := executed))
  {
    InvMeans(cfg, files, s);
    var s' := s.(workers := s.workers[w := worker], executed := executed);
    InvMeans(cfg, files, s');
    SameBatches(s.workers, w, worker);
    LoadChange(s.workers, w, worker, Load(worker), Load(worker));
  }

  lemma SameBatches(ws: seq<Worker>, w: nat, worker: Worker)
    requires w < |ws| && worker.batch == ws[w].batch
    ensures Batches(ws[w := worker]) == Batches(ws)
  {
  }

  lemma TakeKeepsLoad(worker: Worker)
    requires Sent(worker)
    ensures Load(worker.(inbox := [], running := Some(worker.inbox[0]))) == Load(worker)
  {
  }

  lemma RunKeepsLoad(worker: Worker)
    requires Running(worker) && worker.running.value != []
    ensures var rest := worker.running.value;
      Load(worker.(running := Some(rest[1..]), outbox := worker.outbox + [Result(rest[0])])) == Load(worker)
  {
    var rest := worker.running.value;
    ResultsInAppend(worker.outbox, Result(rest[0]));
    assert rest == [rest[0]] + rest[1..];
    assert multiset(rest) == multiset{rest[0]} + multiset(rest[1..]);
    Regroup(ResultsIn(worker.outbox), multiset{rest[0]}, multiset(rest[1..]));
  }

  lemma Regroup(a: multiset<Test>, b: multiset<Test>, c: multiset<Test>)
    ensures a + (b + c) == a + b + c
  {
  }

  lemma FinishKeepsLoad(worker: Worker)
    requires Running(worker) && worker.running.value == []
    ensures Load(worker.(running := None, outbox := worker.outbox + [Finished])) == Load(worker)
    ensures Reporting(worker.(running := None, outbox := worker.outbox + [Finished]))
  {
    ResultsInAppend(worker.outbox, Finished);
    assert DropLast(worker.outbox + [Finished]) == worker.outbox;
  }

  lemma WorkerStepOk(cfg: Config, files: seq<Test>, s: State, step: Step)
    requires Inv(cfg, files, s) && Enabled(s, step) && !step.Receive?
    ensures Inv(cfg, files, Next(cfg, s, step))
  {
    var w := step.w;
    WorkerStepLoad(cfg, files, s, step);
    ReplaceWorkerOk(cfg, files, s, w, Next(cfg, s, step).workers[w], Next(cfg, s, step).executed);
  }

  /** A step of a worker leads to its next stage and changes neither its batch nor what it owes. */
  lemma WorkerStepLoad(cfg: Config, files: seq<Test>, s: State, step: Step)
    requires Inv(cfg, files, s) && Enabled(s, step) && !step.Receive?
    ensures var worker, worker' := s.workers[step.w], Next(cfg, s, step).workers[step.w];
      worker'.batch == worker.batch && Load(worker') == Load(worker) && WorkerOk(worker', step.w in s.master.procs)
  {
    var w := step.w;
    var worker := s.workers[w];
    StageOf(cfg, files, s, w);
    match step
    case Take(_) =>
      TakeKeepsLoad(worker);
      assert worker.inbox[1..] == [];
    case RunOne(_) =>
      var rest := worker.running.value;
      RunKeepsLoad(worker);
      assert forall t :: t in rest[1..] ==> t in Unexecuted(worker);
    case Finish(_) =>
      FinishKeepsLoad(worker);
  }

  lemma StageOf(cfg: Config, files: seq<Test>, s: State, w: nat)
    requires Inv(cfg, files, s) && w < |s.workers|
    ensures WorkerOk(s.workers[w], w in s.master.procs)
  {
    InvMeans(cfg, files, s);
  }

  // ----------------------------------------------------- the steps of the master

  const IDLE_WORKER := Worker([], None, [], [])

  ghost predicate AwaitingOk(cfg: Config, files: seq<Test>, s: State, w: nat) {
    && w in s.master.procs && w < |s.workers| && s.workers[w] == IDLE_WORKER
    && (forall v :: v in s.master.procs ==> v < |s.workers|)
    && (forall v: nat :: v < |s.workers| && v != w ==> WorkerOk(s.workers[v], v in s.master.procs))
    && MasterOk(cfg, s.master, Batches(s.workers))
    && multiset(files) == Everything(s.master, Unreported(s.workers), s.results)
  }

  /** The master owes worker w an answer; folded but for what an answer requires. */
  ghost predicate Awaiting(cfg: Config, files: seq<Test>, s: State, w: nat) {
    Agrees(AwaitingOk(cfg, files, s, w));
    var r: bool :| forall depth: nat {:trigger Inspected(depth)} :: Agree(r, AwaitingOk(cfg, files, s, w));
    w in s.master.procs && w < |s.workers| && s.workers[w] == IDLE_WORKER && r
  }

  lemma AwaitingMeans(cfg: Config, files: seq<Test>, s: State, w: nat)
    ensures Awaiting(cfg, files, s, w) <==> AwaitingOk(cfg, files, s, w)
  {
    assert Inspected(0);
  }

  lemma ResultOk(cfg: Config, files: seq<Test>, s: State, w: nat)
    requires Inv(cfg, files, s) && Enabled(s, Receive(w)) && s.workers[w].outbox[0].Result?
    ensures Inv(cfg, files, Next(cfg, s, Receive(w)))
  {
    InvMeans(cfg, files, s);
    var worker := s.workers[w];
    assert WorkerOk(worker, true);
    var s' := Next(cfg, s, Receive(w));
    ResultRead(worker);
    AfterResult(cfg, files, s, s', w, worker.(outbox := worker.outbox[1..]), worker.outbox[0].test);
  }

  /** Reading a result leaves a worker in a proper stage, with that test reported. */
  lemma ResultRead(worker: Worker)
    requires WorkerOk(worker, true) && worker.outbox != [] && worker.outbox[0].Result?
    ensures var worker' := worker.(outbox := worker.outbox[1..]);
      WorkerOk(worker', true) && Load(worker) == multiset{worker.outbox[0].test} + Load(worker')
  {
    var worker' := worker.(outbox := worker.outbox[1..]);
    if Reporting(worker) {
      assert DropLast(worker'.outbox) == DropLast(worker.outbox)[1..];
    }
  }

  lemma AfterResult(cfg: Config, files: seq<Test>, s: State, s': State, w: nat, worker': Worker, t: Test)
    requires InvOk(cfg, files, s) && w in s.master.procs && w < |s.workers|
    requires WorkerOk(worker', true) && worker'.batch == s.workers[w].batch
    requires Load(s.workers[w]) == multiset{t} + Load(worker')
    requires s'.workers == s.workers[w := worker'] && s'.master == s.master && s'.results == s.results + [t]
    ensures Inv(cfg, files, s')
  {
    InvMeans(cfg, files, s');
    assert Batches(s'.workers) == Batches(s.workers);
    UnreportedUpdate(s.workers, w, worker');
    OneReported(s.master, Unreported(s'.workers), Unreported(s.workers), Load(worker'), Load(s.workers[w]),
                s.results, t);
  }

  /** Reading a result moves one test from the worker's side to the results. */
  lemma OneReported(m: Master, after: multiset<Test>, before: multiset<Test>,
                    load': multiset<Test>, load: multiset<Test>, results: seq<Test>, t: Test)
    requires after + load == before + load' && load == multiset{t} + load'
    ensures Everything(m, after, results + [t]) == Everything(m, before, results)
  {
    forall x: Test
      ensures after[x] + multiset{t}[x] == before[x]
    {
      assert (after + load)[x] == (before + load')[x];
    }
    assert multiset(results + [t]) == multiset(results) + multiset{t};
    assert after + multiset{t} == before;
  }

  lemma ReadyOk(cfg: Config, files: seq<Test>, s: State, w: nat)
    requires Inv(cfg, files, s) && Enabled(s, Receive(w)) && s.workers[w].outbox[0] == Ready
    ensures Awaiting(cfg, files, s.(workers := s.workers[w := s.workers[w].(outbox := s.workers[w].outbox[1..])]), w)
  {
    assert Inspected(0);
    FirstMessage(s.workers[w]);
    var s' := s.(workers := s.workers[w := IDLE_WORKER]);
    assert Batches(s.workers)[w := []] == Batches(s.workers);
    AwaitingAfter(cfg, files, s, s', w);
  }

  /** `ready` is a worker's only message before its first command. */
  lemma FirstMessage(worker: Worker)
    requires WorkerOk(worker, true) && worker.outbox != [] && worker.outbox[0] == Ready
    ensures worker.(outbox := worker.outbox[1..]) == IDLE_WORKER && worker.batch == [] && Load(worker) == multiset{}
  {
    assert Starting(worker);
    assert ResultsIn([Ready]) == multiset{};
  }

  /** Freeing worker w's keys leaves every other worker's keys as they were. */
  lemma ReleaseOk(cfg: Config, m: Master, batches: seq<seq<Test>>, w: nat)
    requires MasterOk(cfg, m, batches) && w < |batches| && batches[w] != []
    ensures MasterOk(cfg, Release(m.active, m, w).(inProgress := m.inProgress - 1), batches[w := []])
    ensures var r := Release(m.active, m, w);
      multiset(r.stack) + AllWaiting(r.waiting) == multiset(m.stack) + AllWaiting(m.waiting)
  {
    var r := Release(m.active, m, w);
    var batches' := batches[w := []];
    ReleaseMeans(m.active, m, w);
    BusyUpdate(batches, w, []);
    forall k
      ensures (k, w) in m.active <==> Get(m.active, k) == Some(w)
    {
      MemberIffGet(m.active, k, w);
    }
    forall k, v: int
      ensures Get(r.active, k) == Some(v) <==> 0 <= v < |batches'| && Carries(cfg, batches'[v], k)
    {
      assert Get(m.active, k) == Some(v) <==> 0 <= v < |batches| && Carries(cfg, batches[v], k);
    }
    assert WaitingOk(cfg, r.active, r.waiting) by {
      forall k | Has(r.waiting, k)
        ensures Has(r.active, k)
      {
        assert Has(m.waiting, k) && Has(m.active, k);
      }
      forall k, t | t in WaitingFor(r.waiting, k)
        ensures k in cfg.conflicts(t)
      {
        assert t in WaitingFor(m.waiting, k);
      }
    }
    if |m.procs| > 1 {
      ReleaseParallel(cfg, m, r, batches, w);
    }
  }

  lemma ReleaseParallel(cfg: Config, m: Master, r: Master, batches: seq<seq<Test>>, w: nat)
    requires AllParallel(cfg, m, batches) && w < |batches|
    requires forall k :: Get(r.waiting, k) == None || Get(r.waiting, k) == Get(m.waiting, k)
    requires forall t :: t in r.stack ==> t in m.stack || exists k :: t in WaitingFor(m.waiting, k)
    ensures AllParallel(cfg, r, batches[w := []])
  {
    forall k
      ensures NoneSequential(cfg, WaitingFor(r.waiting, k))
    {
      assert NoneSequential(cfg, WaitingFor(m.waiting, k));
    }
    forall t | t in r.stack
      ensures !IsSequential(cfg, t)
    {
      if t !in m.stack {
        var k :| t in WaitingFor(m.waiting, k);
        assert NoneSequential(cfg, WaitingFor(m.waiting, k));
      }
    }
  }

  /** Swapping in a worker whose outstanding tests are fewer by `given`. */
  lemma LoadChange(ws: seq<Worker>, w: nat, worker: Worker, taken: multiset<Test>, given: multiset<Test>)
    requires w < |ws| && Load(ws[w]) == taken && Load(worker) == given
    ensures Unreported(ws[w := worker]) + taken == Unreported(ws) + given
    ensures taken == given ==> Unreported(ws[w := worker]) == Unreported(ws)
  {
    UnreportedUpdate(ws, w, worker);
    if taken == given {
      CancelSame(Unreported(ws[w := worker]), taken, Unreported(ws));
    }
  }

  lemma FinishedOk(cfg: Config, files: seq<Test>, s: State, w: nat)
    requires Inv(cfg, files, s) && Enabled(s, Receive(w)) && s.workers[w].outbox[0] == Finished
    ensures Awaiting(cfg, files,
      Ended(s.(workers := s.workers[w := s.workers[w].(outbox := s.workers[w].outbox[1..])]), w), w)
  {
    assert Inspected(0);
    var worker := s.workers[w];
    LastMessage(worker);
    var s' := Ended(s.(workers := s.workers[w := worker.(outbox := worker.outbox[1..])]), w);
    assert s'.workers == s.workers[w := IDLE_WORKER];
    ReleaseOk(cfg, s.master, Batches(s.workers), w);
    AwaitingAfter(cfg, files, s, s', w);
  }

  lemma AwaitingAfter(cfg: Config, files: seq<Test>, s: State, s': State, w: nat)
    requires Inv(cfg, files, s) && w in s.master.procs && w < |s.workers| && Load(s.workers[w]) == multiset{}
    requires s'.workers == s.workers[w := IDLE_WORKER] && s'.results == s.results
    requires MasterOk(cfg, s'.master, Batches(s.workers)[w := []])
    requires s'.master.procs == s.master.procs && s'.master.sequential == s.master.sequential
    requires multiset(s'.master.stack) + AllWaiting(s'.master.waiting)
          == multiset(s.master.stack) + AllWaiting(s.master.waiting)
    ensures Awaiting(cfg, files, s', w)
  {
    assert Inspected(0);
    assert Batches(s'.workers) == Batches(s.workers)[w := []];
    LoadChange(s.workers, w, IDLE_WORKER, multiset{}, multiset{});
    SameEverything(s.master, s'.master, Unreported(s'.workers), s.results);
  }

  /** `tests_finished` is the last message of its command. */
  lemma LastMessage(worker: Worker)
    requires WorkerOk(worker, true) && worker.outbox != [] && worker.outbox[0] == Finished
    ensures worker.outbox == [Finished] && worker.outbox[1..] == []
    ensures worker.inbox == [] && worker.running.None? && worker.batch != [] && Load(worker) == multiset{}
  {
    assert Reporting(worker);
    assert |worker.outbox| == 1;
    assert ResultsIn([Finished]) == multiset{};
  }

  lemma SameEverything(m: Master, m': Master, unreported: multiset<Test>, results: seq<Test>)
    requires multiset(m'.stack) + AllWaiting(m'.waiting) == multiset(m.stack) + AllWaiting(m.waiting)
    requires m'.sequential == m.sequential
    ensures Everything(m', unreported, results) == Everything(m, unreported, results)
  {
    forall x: Test
      ensures Everything(m', unreported, results)[x] == Everything(m, unreported, results)[x]
    {
      assert (multiset(m'.stack) + AllWaiting(m'.waiting))[x] == (multiset(m.stack) + AllWaiting(m.waiting))[x];
    }
  }

  /** What the pop loop has done to the tests of the merged master. */
  ghost predicate PoppedFrom(m: Master, p: Popping) {
    && AllOf(p) == AllOf(Popping(m.stack, m.waiting, []))
    && (forall t :: t in p.stack || t in p.files ==> t in m.stack)
    && (forall q, t :: t in WaitingFor(p.waiting, q) ==> t in WaitingFor(m.waiting, q) || t in m.stack)
  }

  ghost predicate PopsOk(cfg: Config, m: Master, p: Popping) {
    PoppingOk(cfg, m.active, p) && PoppedFrom(m, p) && (p.files == [] ==> p.stack == [])
  }

  /** A proper outcome of the pop loop; folded. */
  ghost predicate Pops(cfg: Config, m: Master, p: Popping) {
    Agrees(PopsOk(cfg, m, p));
    var r: bool :| forall depth: nat {:trigger Inspected(depth)} :: Agree(r, PopsOk(cfg, m, p));
    r
  }

  lemma PopsMeans(cfg: Config, m: Master, p: Popping)
    ensures Pops(cfg, m, p) <==> PopsOk(cfg, m, p)
  {
    assert Inspected(0);
  }

  /** The batch sent takes keys nobody holds, and only tests that were still to run. */
  lemma AnswerOk(cfg: Config, files: seq<Test>, s: State, w: nat)
    requires Awaiting(cfg, files, s, w)
    ensures Inv(cfg, files, Answer(cfg, s, w))
  {
    var m := Merged(s.master);
    MergedAwaits(cfg, files, s, w);
    var p := PopAll(cfg, m);
    if p.files == [] {
      RetireOk(cfg, files, s.(master := m), w, p);
    } else {
      assert IDLE_WORKER.inbox + [p.files] == [p.files];
      SendOk(cfg, files, s.(master := m), w, p);
    }
  }

  lemma MergedAwaits(cfg: Config, files: seq<Test>, s: State, w: nat)
    requires Awaiting(cfg, files, s, w)
    ensures Awaiting(cfg, files, s.(master := Merged(s.master)), w)
    ensures |s.master.procs| == 1 ==> Merged(s.master).sequential == []
    ensures Pops(cfg, Merged(s.master), PopAll(cfg, Merged(s.master)))
  {
    var m := Merged(s.master);
    AwaitingMeans(cfg, files, s, w);
    MergedOk(cfg, s.master, Batches(s.workers), Unreported(s.workers), s.results);
    AwaitingMeans(cfg, files, s.(master := m), w);
    PoppedOk(cfg, m);
    PopsMeans(cfg, m, PopAll(cfg, m));
  }

  function PopAll(cfg: Config, m: Master): Popping
    requires m.procs != {}
  {
    PopBatch(cfg, BatchSize(cfg, |m.procs|), m.active, Popping(m.stack, m.waiting, []))
  }

  lemma PoppedOk(cfg: Config, m: Master)
    requires m.procs != {} && WaitingOk(cfg, m.active, m.waiting)
    ensures var p := PopAll(cfg, m);
      PoppingOk(cfg, m.active, p) && PoppedFrom(m, p) && (p.files == [] ==> p.stack == [])
  {
    PopBatchOk(cfg, BatchSize(cfg, |m.procs|), m.active, Popping(m.stack, m.waiting, []));
  }

  lemma MergedOk(cfg: Config, m: Master, batches: seq<seq<Test>>, unreported: multiset<Test>, results: seq<Test>)
    requires MasterOk(cfg, m, batches)
    ensures MasterOk(cfg, Merged(m), batches)
    ensures Everything(Merged(m), unreported, results) == Everything(m, unreported, results)
    ensures |m.procs| == 1 ==> Merged(m).sequential == []
  {
    assert multiset(m.stack + m.sequential) == multiset(m.stack) + multiset(m.sequential);
  }

  lemma RetireOk(cfg: Config, files: seq<Test>, s: State, w: nat, p: Popping)
    requires Awaiting(cfg, files, s, w) && (|s.master.procs| == 1 ==> s.master.sequential == [])
    requires Pops(cfg, s.master, p) && p.files == []
    ensures Inv(cfg, files,
                s.(master := s.master.(stack := p.stack, waiting := p.waiting, procs := s.master.procs - {w})))
  {
    var m := s.master;
    var s' := s.(master := m.(stack := p.stack, waiting := p.waiting, procs := m.procs - {w}));
    AwaitingMeans(cfg, files, s, w);
    RetireMasterOk(cfg, m, Batches(s.workers), w, p);
    RetireWorkersOk(s, s', w);
    SameEverything(m, s'.master, Unreported(s.workers), s.results);
    InvMeans(cfg, files, s');
  }

  lemma RetireMasterOk(cfg: Config, m: Master, batches: seq<seq<Test>>, w: nat, p: Popping)
    requires MasterOk(cfg, m, batches) && w in m.procs && (|m.procs| == 1 ==> m.sequential == [])
    requires Pops(cfg, m, p) && p.files == []
    ensures MasterOk(cfg, m.(stack := p.stack, waiting := p.waiting, procs := m.procs - {w}), batches)
    ensures m.procs - {w} == {} ==> p.stack == [] && m.sequential == []
    ensures multiset(p.stack) + AllWaiting(p.waiting) == multiset(m.stack) + AllWaiting(m.waiting)
  {
    PopsMeans(cfg, m, p);
    OneLess(m.procs, w);
    if |m.procs| > 1 {
      PoppedParallel(cfg, m, p, batches);
    }
    NothingPopped(m, p);
  }

  lemma OneLess(procs: set<nat>, w: nat)
    requires w in procs
    ensures |procs - {w}| == |procs| - 1
    ensures procs - {w} == {} <==> |procs| == 1
  {
  }

  /** The retired worker is idle, the others stay as they are. */
  lemma RetireWorkersOk(s: State, s': State, w: nat)
    requires w < |s.workers| && s.workers[w] == IDLE_WORKER
    requires forall v :: v in s.master.procs ==> v < |s.workers|
    requires forall v: nat :: v < |s.workers| && v != w ==> WorkerOk(s.workers[v], v in s.master.procs)
    requires s'.workers == s.workers && s'.master.procs == s.master.procs - {w}
    ensures WorkersOk(s')
  {
    assert Retired(IDLE_WORKER);
  }

  lemma NothingPopped(m: Master, p: Popping)
    requires p.files == [] && AllOf(p) == AllOf(Popping(m.stack, m.waiting, []))
    ensures multiset(p.stack) + AllWaiting(p.waiting) == multiset(m.stack) + AllWaiting(m.waiting)
  {
    assert AllOf(p) == multiset(p.stack) + AllWaiting(p.waiting);
    assert AllOf(Popping(m.stack, m.waiting, [])) == multiset(m.stack) + AllWaiting(m.waiting);
  }

  lemma PoppedParallel(cfg: Config, m: Master, p: Popping, batches: seq<seq<Test>>)
    requires AllParallel(cfg, m, batches) && PoppedFrom(m, p)
    ensures NoneSequential(cfg, p.stack) && NoneSequential(cfg, p.files)
    ensures forall k :: NoneSequential(cfg, WaitingFor(p.waiting, k))
  {
    forall k
      ensures NoneSequential(cfg, WaitingFor(p.waiting, k))
    {
      assert NoneSequential(cfg, WaitingFor(m.waiting, k));
    }
  }

  /** Claiming the keys of a batch nobody's keys clash with. */
  lemma ClaimOk(cfg: Config, active: Dict<Key, int>, batches: seq<seq<Test>>, batch: seq<Test>, w: nat)
    requires ActiveOk(cfg, active, batches) && w < |batches| && batches[w] == []
    requires forall k :: Carries(cfg, batch, k) ==> !Has(active, k)
    ensures ActiveOk(cfg, Claim(cfg, active, batch, w), batches[w := batch])
  {
    ClaimMeans(cfg, active, batch, w);
  }

  lemma SendMasterOk(cfg: Config, m: Master, batches: seq<seq<Test>>, w: nat, p: Popping)
    requires MasterOk(cfg, m, batches) && w < |batches| && batches[w] == []
    requires Pops(cfg, m, p) && p.files != []
    ensures MasterOk(cfg, m.(stack := p.stack, waiting := p.waiting, active := Claim(cfg, m.active, p.files, w),
                             inProgress := m.inProgress + 1), batches[w := p.files])
  {
    PopsMeans(cfg, m, p);
    ClaimOk(cfg, m.active, batches, p.files, w);
    ClaimMeans(cfg, m.active, p.files, w);
    BusyUpdate(batches, w, p.files);
    if |m.procs| > 1 {
      PoppedParallel(cfg, m, p, batches);
    }
  }

  /** The other workers stay as they are; worker w gets a batch. */
  lemma SendWorkersOk(s: State, s': State, w: nat, batch: seq<Test>)
    requires w < |s.workers| && w in s.master.procs && batch != []
    requires forall v :: v in s.master.procs ==> v < |s.workers|
    requires forall v: nat :: v < |s.workers| && v != w ==> WorkerOk(s.workers[v], v in s.master.procs)
    requires s'.master.procs == s.master.procs && s'.workers == s.workers[w := Worker([batch], None, [], batch)]
    ensures WorkersOk(s')
  {
    assert WorkerOk(Worker([batch], None, [], batch), true);
  }

  lemma SendOk(cfg: Config, files: seq<Test>, s: State, w: nat, p: Popping)
    requires Awaiting(cfg, files, s, w) && Pops(cfg, s.master, p) && p.files != []
    ensures var m := s.master;
      Inv(cfg, files,
          s.(master := m.(stack := p.stack, waiting := p.waiting, active := Claim(cfg, m.active, p.files, w),
                          inProgress := m.inProgress + 1),
             workers := s.workers[w := Worker([p.files], None, [], p.files)]))
  {
    var m := s.master;
    var m' := m.(stack := p.stack, waiting := p.waiting, active := Claim(cfg, m.active, p.files, w),
                 inProgress := m.inProgress + 1);
    AwaitingMeans(cfg, files, s, w);
    SendMasterOk(cfg, m, Batches(s.workers), w, p);
    SendInvOk(cfg, files, s, m', w, p);
  }

  lemma SendInvOk(cfg: Config, files: seq<Test>, s: State, m': Master, w: nat, p: Popping)
    requires Awaiting(cfg, files, s, w) && Pops(cfg, s.master, p) && p.files != []
    requires m'.procs == s.master.procs && m'.sequential == s.master.sequential
    requires m'.stack == p.stack && m'.waiting == p.waiting
    requires MasterOk(cfg, m', Batches(s.workers)[w := p.files])
    ensures Inv(cfg, files, s.(master := m', workers := s.workers[w := Worker([p.files], None, [], p.files)]))
  {
    assert Inspected(0);
    var worker := Worker([p.files], None, [], p.files);
    var ws := s.workers[w := worker];
    var s' := s.(master := m', workers := ws);
    assert Batches(ws) == Batches(s.workers)[w := p.files];
    SendWorkersOk(s, s', w, p.files);
    LoadChange(s.workers, w, worker, multiset{}, multiset(p.files));
    SentEverything(s.master, m', p, Unreported(s.workers), Unreported(ws), s.results);
  }

  lemma SentEverything(m: Master, m': Master, p: Popping, before: multiset<Test>, after: multiset<Test>,
                       results: seq<Test>)
    requires m'.sequential == m.sequential && m'.stack == p.stack && m'.waiting == p.waiting
    requires AllOf(p) == AllOf(Popping(m.stack, m.waiting, []))
    requires after + multiset{} == before + multiset(p.files)
    ensures Everything(m', after, results) == Everything(m, before, results)
  {
    forall x: Test
      ensures Everything(m', after, results)[x] == Everything(m, before, results)[x]
    {
      assert AllOf(p)[x] == AllOf(Popping(m.stack, m.waiting, []))[x];
      assert (after + multiset{})[x] == (before + multiset(p.files))[x];
    }
  }

  // ------------------------------------------------------------------ all runs

  lemma StepOk(cfg: Config, files: seq<Test>, s: State, step: Step)
    requires Inv(cfg, files, s) && Enabled(s, step)
    ensures Inv(cfg, files, Next(cfg, s, step))
  {
    if step.Receive? {
      var w := step.w;
      var taken := s.(workers := s.workers[w := s.workers[w].(outbox := s.workers[w].outbox[1..])]);
      match s.workers[w].outbox[0]
      case Result(t) => ResultOk(cfg, files, s, w);
      case Ready =>
        ReadyOk(cfg, files, s, w);
        AnswerOk(cfg, files, taken, w);
      case Finished =>
        FinishedOk(cfg, files, s, w);
        AnswerOk(cfg, files, Ended(taken, w), w);
    } else {
      WorkerStepOk(cfg, files, s, step);
    }
  }

  lemma {:induction false} RunOk(cfg: Config, files: seq<Test>, s: State, steps: seq<Step>, t: State)
    requires Inv(cfg, files, s) && Run(cfg, s, steps, t)
    ensures Inv(cfg, files, t)
    decreases |steps|
  {
    if steps != [] {
      StepOk(cfg, files, s, steps[0]);
      RunOk(cfg, files, Next(cfg, s, steps[0]), steps[1..], t);
    }
  }

  lemma {:induction false} SelectMeans(cfg: Config, files: seq<Test>)
    ensures multiset(files) == multiset(Select(cfg, files, false)) + multiset(Select(cfg, files, true))
    ensures forall t, b :: t in Select(cfg, files, b) ==> IsSequential(cfg, t) == b
  {
    if files != [] {
      SelectMeans(cfg, files[1..]);
      HeadFirst(files);
      if IsSequential(cfg, files[0]) {
        HeadFirst(Select(cfg, files, true));
      } else {
        HeadFirst(Select(cfg, files, false));
      }
    }
  }

  lemma HeadFirst(tests: seq<Test>)
    requires tests != []
    ensures multiset(tests) == multiset{tests[0]} + multiset(tests[1..])
  {
    assert tests == [tests[0]] + tests[1..];
  }

  lemma {:induction false} AllStarting(ws: seq<Worker>)
    requires forall i :: 0 <= i < |ws| ==> ws[i] == Worker([], None, [Ready], [])
    ensures Busy(Batches(ws)) == 0 && Unreported(ws) == multiset{}
  {
    if ws != [] {
      AllStarting(ws[1..]);
      assert Batches(ws)[1..] == Batches(ws[1..]);
      assert Loads(ws)[1..] == Loads(ws[1..]);
      assert ResultsIn([Ready]) == multiset{};
    }
  }

  lemma StartMasterOk(cfg: Config, m: Master, batches: seq<seq<Test>>)
    requires m.active == [] && m.waiting == [] && m.inProgress == 0 == Busy(batches)
    requires forall i :: 0 <= i < |batches| ==> batches[i] == []
    requires NoneSequential(cfg, m.stack)
    requires forall t :: t in m.sequential ==> IsSequential(cfg, t)
    ensures MasterOk(cfg, m, batches)
  {
  }

  lemma StartWorkersOk(cfg: Config, files: seq<Test>, requested: nat)
    ensures WorkersOk(Start(cfg, files, requested))
    ensures Start(cfg, files, requested).master.procs != {}
  {
    var s := Start(cfg, files, requested);
    assert 0 in s.master.procs;
    forall w: nat | w < |s.workers|
      ensures WorkerOk(s.workers[w], w in s.master.procs)
    {
      assert Starting(s.workers[w]);
    }
  }

  lemma StartStackOk(cfg: Config, files: seq<Test>, requested: nat)
    ensures NoneSequential(cfg, Start(cfg, files, requested).master.stack)
    ensures multiset(Start(cfg, files, requested).master.stack) == multiset(Select(cfg, files, false))
  {
    var stack := Start(cfg, files, requested).master.stack;
    var parallel := Select(cfg, files, false);
    SelectMeans(cfg, files);
    ReverseMultiset(parallel);
    forall t | t in stack
      ensures !IsSequential(cfg, t)
    {
      assert t in multiset(stack);
      assert t in multiset(parallel);
    }
  }

  lemma StartOk(cfg: Config, files: seq<Test>, requested: nat)
    ensures Inv(cfg, files, Start(cfg, files, requested))
  {
    assert Inspected(0);
    var s := Start(cfg, files, requested);
    SelectMeans(cfg, files);
    StartStackOk(cfg, files, requested);
    AllStarting(s.workers);
    StartMasterOk(cfg, s.master, Batches(s.workers));
    StartWorkersOk(cfg, files, requested);
    assert Everything(s.master, Unreported(s.workers), s.results) == multiset(files);
  }

  ghost predicate Reachable(cfg: Config, files: seq<Test>, requested: nat, s: State) {
    exists steps :: Run(cfg, Start(cfg, files, requested), steps, s)
  }

  lemma ReachableOk(cfg: Config, files: seq<Test>, requested: nat, s: State)
    requires Reachable(cfg, files, requested, s)
    ensures Inv(cfg, files, s)
  {
    StartOk(cfg, files, requested);
    var steps :| Run(cfg, Start(cfg, files, requested), steps, s);
    RunOk(cfg, files, Start(cfg, files, requested), steps, s);
  }

  // -------------------------------------------------------------- the promises

  /** Worker w is running test t. */
  predicate Executing(s: State, w: nat, t: Test) {
    w < |s.workers| && s.workers[w].running.Some? && s.workers[w].running.value != []
    && s.workers[w].running.value[0] == t
  }

  /** While a test that conflicts with key k is running, no other worker runs a test
      that conflicts with k. */
  lemma KeysExclude(cfg: Config, files: seq<Test>, requested: nat, s: State,
                    w: nat, t: Test, v: nat, u: Test, k: Key)
    requires Reachable(cfg, files, requested, s)
    requires Executing(s, w, t) && Executing(s, v, u)
    requires k in cfg.conflicts(t) && k in cfg.conflicts(u)
    ensures w == v && t == u
  {
    ReachableOk(cfg, files, requested, s);
    InvMeans(cfg, files, s);
    assert WorkerOk(s.workers[w], w in s.master.procs) && WorkerOk(s.workers[v], v in s.master.procs);
    assert t in Unexecuted(s.workers[w]) && u in Unexecuted(s.workers[v]);
    var batches := Batches(s.workers);
    assert Carries(cfg, batches[w], k) && Carries(cfg, batches[v], k);
    assert Get(s.master.active, k) == Some(w) && Get(s.master.active, k) == Some(v);
  }

  /** While a test that conflicts with everything is running, no other worker lives. */
  lemma SequentialRunsAlone(cfg: Config, files: seq<Test>, requested: nat, s: State, w: nat, t: Test)
    requires Reachable(cfg, files, requested, s)
    requires Executing(s, w, t) && IsSequential(cfg, t)
    ensures s.master.procs == {w}
  {
    ReachableOk(cfg, files, requested, s);
    InvMeans(cfg, files, s);
    assert WorkerOk(s.workers[w], w in s.master.procs);
    assert t in Unexecuted(s.workers[w]) && t in Batches(s.workers)[w];
    assert |s.master.procs| <= 1;
    OneLess(s.master.procs, w);
  }

  /** Whoever waits, waits for a worker in progress. */
  lemma WaitingHasHolder(cfg: Config, s: State, k: Key)
    requires WorkersOk(s) && ActiveOk(cfg, s.master.active, Batches(s.workers))
    requires WaitingOk(cfg, s.master.active, s.master.waiting) && Has(s.master.waiting, k)
    ensures exists w: nat :: w < |s.workers| && w in s.master.procs && Carries(cfg, s.workers[w].batch, k)
  {
    assert Has(s.master.active, k);
    var w := Get(s.master.active, k).value;
    assert Get(s.master.active, k) == Some(w);
    assert Carries(cfg, Batches(s.workers)[w], k);
    assert WorkerOk(s.workers[w], w in s.master.procs);
  }

  /** The count of batches in progress is the number of workers with an unanswered
      batch, so the check for a negative count at the end never fires; and whatever
      waits, waits for a worker in progress. */
  lemma InProgressIsBusy(cfg: Config, files: seq<Test>, requested: nat, s: State)
    requires Reachable(cfg, files, requested, s)
    ensures s.master.inProgress == Busy(Batches(s.workers)) && s.master.inProgress >= 0
    ensures forall k :: Has(s.master.waiting, k) ==>
      exists w: nat :: w < |s.workers| && w in s.master.procs && Carries(cfg, s.workers[w].batch, k)
  {
    ReachableOk(cfg, files, requested, s);
    InvMeans(cfg, files, s);
    forall k | Has(s.master.waiting, k)
      ensures exists w: nat :: w < |s.workers| && w in s.master.procs && Carries(cfg, s.workers[w].batch, k)
    {
      WaitingHasHolder(cfg, s, k);
    }
  }
}
