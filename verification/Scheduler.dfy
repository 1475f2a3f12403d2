/** The parallel test scheduler of run-tests.php as a transition system: one
    master, numbered workers, and a FIFO channel each way per worker.

    The functions here say what one message makes the master do; `MasterProcess`
    implements them, and the modules `SchedulerSafety`, `SchedulerProgress` and
    `SchedulerOrder` prove what holds over every run. */
module Scheduler {
  import opened Options
  import opened PhpArray
  import opened Sequences

  type Test = string
  type Key = string
  type Waiting = Dict<Key, seq<Test>>

  /** What stays fixed during a run. `total` is the number of parallel tests. */
  datatype Config = Config(conflicts: Test -> seq<Key>, valgrind: bool, shuffle: bool, total: nat)

  /** The master's variables: `$test_files` (popped from the end), `$sequentialTests`,
      `$activeConflicts`, `$waitingTests`, the ids in `$workerProcs`, `$testsInProgress`. */
  datatype Master = Master(
    stack: seq<Test>,
    sequential: seq<Test>,
    active: Dict<Key, int>,
    waiting: Waiting,
    procs: set<nat>,
    inProgress: int)

  datatype Message = Ready | Result(test: Test) | Finished

  /** A worker with the `run_tests` commands under way to it, the tests of its current
      command still to run, and its messages under way to the master. `batch` records
      the command the master has sent and not yet heard the end of. */
  datatype Worker = Worker(
    inbox: seq<seq<Test>>,
    running: Option<seq<Test>>,
    outbox: seq<Message>,
    batch: seq<Test>)

  /** `executed` and `results` record the tests run, and the results received, in order. */
  datatype State = State(master: Master, workers: seq<Worker>, executed: seq<Test>, results: seq<Test>)

  // ------------------------------------------------------------------- start

  predicate IsSequential(cfg: Config, t: Test) {
    "all" in cfg.conflicts(t)
  }

  /** The tests that do (or do not) conflict with everything, in order. */
  function Select(cfg: Config, files: seq<Test>, sequential: bool): seq<Test> {
    if files == [] then []
    else (if IsSequential(cfg, files[0]) == sequential then [files[0]] else [])
         + Select(cfg, files[1..], sequential)
  }

  function WorkerCount(requested: nat, parallel: nat): nat {
    var n := if requested <= parallel then requested else parallel;
    if n >= 1 then n else 1
  }

  /** The worker ids: 0, 1, .. n - 1. */
  function Ids(n: nat): (ids: set<nat>)
    ensures forall i: nat :: i in ids <==> i < n
    ensures |ids| == n
  {
    if n == 0 then {} else Ids(n - 1) + {n - 1}
  }

  function Start(cfg: Config, files: seq<Test>, requested: nat): State {
    var parallel := Select(cfg, files, false);
    var n := WorkerCount(requested, |parallel|);
    State(Master(if cfg.shuffle then parallel else Reverse(parallel), Select(cfg, files, true),
                 [], [], Ids(n), 0),
          seq(n, _ => Worker([], None, [Ready], [])), [], [])
  }

  // -------------------------------------------------------- the master's reply

  function BatchSize(cfg: Config, live: nat): nat
    requires live > 0
  {
    var most := if cfg.valgrind then 1 else if cfg.shuffle then 4 else 32;
    var average := (cfg.total + live - 1) / live;
    var share := if average >= 1 then average else 1;
    if most <= share then most else share
  }

  /** The first of the keys some worker holds. */
  function FirstHeld(keys: seq<Key>, active: Dict<Key, int>): Option<Key> {
    if keys == [] then None
    else if Has(active, keys[0]) then Some(keys[0])
    else FirstHeld(keys[1..], active)
  }

  function WaitingFor(waiting: Waiting, k: Key): seq<Test> {
    match Get(waiting, k)
    case Some(tests) => tests
    case None => []
  }

  function Defer(waiting: Waiting, k: Key, t: Test): Waiting {
    Set(waiting, k, WaitingFor(waiting, k) + [t])
  }

  datatype Popping = Popping(stack: seq<Test>, waiting: Waiting, files: seq<Test>)

  /** Pop tests until the batch is full or the stack empty; a test one of whose keys is
      held waits for that key. A batch takes one test more than its nominal size. */
  function PopBatch(cfg: Config, size: nat, active: Dict<Key, int>, p: Popping): Popping
    decreases |p.stack|
  {
    if |p.files| > size || p.stack == [] then p
    else
      var file := Last(p.stack);
      match FirstHeld(cfg.conflicts(file), active)
      case Some(k) => PopBatch(cfg, size, active, Popping(DropLast(p.stack), Defer(p.waiting, k, file), p.files))
      case None => PopBatch(cfg, size, active, Popping(DropLast(p.stack), p.waiting, p.files + [file]))
  }

  function ClaimKeys(active: Dict<Key, int>, keys: seq<Key>, w: nat): Dict<Key, int>
    decreases |keys|
  {
    if keys == [] then active else ClaimKeys(Set(active, keys[0], w), keys[1..], w)
  }

  function Claim(cfg: Config, active: Dict<Key, int>, files: seq<Test>, w: nat): Dict<Key, int>
    decreases |files|
  {
    if files == [] then active
    else Claim(cfg, ClaimKeys(active, cfg.conflicts(files[0]), w), files[1..], w)
  }

  /** Sequential tests join the stack once a single worker is left. */
  function Merged(m: Master): Master {
    if |m.procs| == 1 && m.sequential != [] then m.(stack := m.stack + m.sequential, sequential := [])
    else m
  }

  /** Answer worker w: the new master state and the batch sent, empty when w is retired. */
  function Reply(cfg: Config, m0: Master, w: nat): (Master, seq<Test>)
    requires m0.procs != {}
  {
    var m := Merged(m0);
    var p := PopBatch(cfg, BatchSize(cfg, |m.procs|), m.active, Popping(m.stack, m.waiting, []));
    var m' := m.(stack := p.stack, waiting := p.waiting);
    if p.files != [] then
      (m'.(active := Claim(cfg, m.active, p.files, w), inProgress := m.inProgress + 1), p.files)
    else
      (m'.(procs := m.procs - {w}), [])
  }

  /** Drop worker w's keys, visiting the entries in order, and push the tests waiting
      for each back onto the stack, the longest-waiting one on top. */
  function Release(entries: Dict<Key, int>, m: Master, w: nat): (r: Master)
    ensures r.procs == m.procs && r.sequential == m.sequential && r.inProgress == m.inProgress
    decreases |entries|
  {
    if entries == [] then m
    else
      var k := entries[0].0;
      var m' := if entries[0].1 == w
                then m.(active := Unset(m.active, k),
                        stack := m.stack + Reverse(WaitingFor(m.waiting, k)),
                        waiting := Unset(m.waiting, k))
                else m;
      Release(entries[1..], m', w)
  }

  // -------------------------------------------------------------------- steps

  datatype Step =
    | Receive(w: nat)  // the master handles the next message of worker w
    | Take(w: nat)     // worker w reads its command
    | RunOne(w: nat)   // worker w runs one test and reports its result
    | Finish(w: nat)   // worker w has run its command and says so

  predicate LoopActive(m: Master) {
    m.stack != [] || m.sequential != [] || m.inProgress > 0
  }

  predicate Enabled(s: State, step: Step) {
    step.w < |s.workers| &&
    var worker := s.workers[step.w];
    match step
    case Receive(w) => LoopActive(s.master) && w in s.master.procs && worker.outbox != []
    case Take(w) => worker.running.None? && worker.inbox != []
    case RunOne(w) => worker.running.Some? && worker.running.value != []
    case Finish(w) => worker.running == Some([])
  }

  /** The master answers worker w, whose message it has taken off the channel. */
  function Answer(cfg: Config, s: State, w: nat): State
    requires w < |s.workers| && s.master.procs != {}
  {
    var (m, files) := Reply(cfg, s.master, w);
    if files == [] then s.(master := m)
    else
      var worker := s.workers[w].(inbox := s.workers[w].inbox + [files], batch := files);
      s.(master := m, workers := s.workers[w := worker])
  }

  /** A `tests_finished` message ends worker w's batch and frees its keys. */
  function Ended(s: State, w: nat): State
    requires w < |s.workers|
  {
    s.(master := Release(s.master.active, s.master, w).(inProgress := s.master.inProgress - 1),
       workers := s.workers[w := s.workers[w].(batch := [])])
  }

  function Next(cfg: Config, s: State, step: Step): State
    requires Enabled(s, step)
  {
    var w := step.w;
    var worker := s.workers[w];
    match step
    case Receive(_) => (
      var taken := s.(workers := s.workers[w := worker.(outbox := worker.outbox[1..])]);
      match worker.outbox[0]
      case Result(t) => taken.(results := s.results + [t])
      case Ready => Answer(cfg, taken, w)
      case Finished => Answer(cfg, Ended(taken, w), w))
    case Take(_) =>
      s.(workers := s.workers[w := worker.(inbox := worker.inbox[1..], running := Some(worker.inbox[0]))])
    case RunOne(_) =>
      var t := worker.running.value[0];
      s.(workers := s.workers[w := worker.(running := Some(worker.running.value[1..]),
                                           outbox := worker.outbox + [Result(t)])],
         executed := s.executed + [t])
    case Finish(_) =>
      s.(workers := s.workers[w := worker.(running := None, outbox := worker.outbox + [Finished])])
  }

  /** `steps` lead from s to t. */
  ghost predicate Run(cfg: Config, s: State, steps: seq<Step>, t: State)
    decreases |steps|
  {
    if steps == [] then s == t
    else Enabled(s, steps[0]) && Run(cfg, Next(cfg, s, steps[0]), steps[1..], t)
  }
}
