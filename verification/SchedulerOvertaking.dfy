/** The scheduler's order promise fails for tests with two keys: while such a test waits
    for one of them, a later test may take the other. */
module SchedulerOvertaking {
  import opened Options
  import opened PhpArray
  import opened Sequences
  import opened Scheduler
  import opened SchedulerOrder
  import opened SchedulerSequential

  /** Four tests: x carries key k, y none and only fills the first batch, t carries k and
      q, and u carries q. */
  datatype Crossing = Crossing(cfg: Config, k: Key, q: Key, x: Test, y: Test, t: Test, u: Test)

  ghost predicate Crosses(c: Crossing) {
    && c.k != c.q && c.k != ALL && c.q != ALL
    && c.x != c.y && c.x != c.t && c.x != c.u && c.y != c.t && c.y != c.u && c.t != c.u
    && c.cfg.conflicts(c.x) == [c.k] && c.cfg.conflicts(c.y) == []
    && c.cfg.conflicts(c.t) == [c.k, c.q] && c.cfg.conflicts(c.u) == [c.q]
    && c.cfg.valgrind && !c.cfg.shuffle
  }

  function Files(c: Crossing): seq<Test> {
    [c.x, c.y, c.t, c.u]
  }

  // ------------------------------------------------------------------ the start

  lemma SelectOne(cfg: Config, test: Test, rest: seq<Test>)
    requires !IsSequential(cfg, test)
    ensures Select(cfg, [test] + rest, false) == [test] + Select(cfg, rest, false)
    ensures Select(cfg, [test] + rest, true) == Select(cfg, rest, true)
  {
    assert ([test] + rest)[1..] == rest;
  }

  lemma SelectAll(c: Crossing)
    requires Crosses(c)
    ensures Select(c.cfg, Files(c), false) == Files(c) && Select(c.cfg, Files(c), true) == []
  {
    SelectOne(c.cfg, c.u, []);
    SelectOne(c.cfg, c.t, [c.u]);
    SelectOne(c.cfg, c.y, [c.t, c.u]);
    SelectOne(c.cfg, c.x, [c.y, c.t, c.u]);
    assert [c.x] + [c.y, c.t, c.u] == Files(c) && [c.y] + [c.t, c.u] == [c.y, c.t, c.u];
    assert [c.t] + [c.u] == [c.t, c.u] && [c.u] + [] == [c.u];
  }

  const W0 := Worker([], None, [Ready], [])

  /** n workers that have announced themselves. */
  function Announced(n: nat): (ws: seq<Worker>)
    ensures |ws| == n && forall i :: 0 <= i < n ==> ws[i] == W0
  {
    seq(n, _ => W0)
  }

  function S0(c: Crossing, n: nat): State {
    State(Master([c.u, c.t, c.y, c.x], [], [], [], Ids(n), 0), Announced(n), [], [])
  }

  lemma StartState(c: Crossing, requested: nat)
    requires Crosses(c)
    ensures Start(c.cfg, Files(c), requested) == S0(c, WorkerCount(requested, 4))
  {
    SelectAll(c);
    assert Reverse(Files(c)) == [c.u, c.t, c.y, c.x];
    assert Start(c.cfg, Files(c), requested).workers == Announced(WorkerCount(requested, 4));
  }

  // ---------------------------------------------------------------- the replies

  lemma PopDeferred(cfg: Config, size: nat, active: Dict<Key, int>, p: Popping, rest: seq<Test>, test: Test, k: Key)
    requires p.stack == rest + [test] && |p.files| <= size && FirstHeld(cfg.conflicts(test), active) == Some(k)
    ensures PopBatch(cfg, size, active, p)
         == PopBatch(cfg, size, active, Popping(rest, Defer(p.waiting, k, test), p.files))
  {
    assert Last(p.stack) == test && DropLast(p.stack) == rest;
  }

  lemma PopGiven(cfg: Config, size: nat, active: Dict<Key, int>, p: Popping, rest: seq<Test>, test: Test)
    requires p.stack == rest + [test] && |p.files| <= size && FirstHeld(cfg.conflicts(test), active) == None
    ensures PopBatch(cfg, size, active, p) == PopBatch(cfg, size, active, Popping(rest, p.waiting, p.files + [test]))
  {
    assert Last(p.stack) == test && DropLast(p.stack) == rest;
  }

  lemma PopDone(cfg: Config, size: nat, active: Dict<Key, int>, p: Popping)
    requires |p.files| > size || p.stack == []
    ensures PopBatch(cfg, size, active, p) == p
  {
  }

  lemma FirstPops(c: Crossing)
    requires Crosses(c)
    ensures PopBatch(c.cfg, 1, [], Popping([c.u, c.t, c.y, c.x], [], [])) == Popping([c.u, c.t], [], [c.x, c.y])
  {
    var p := Popping([c.u, c.t, c.y, c.x], [], []);
    assert [c.k][1..] == [] && [] + [c.x] == [c.x] && [c.x] + [c.y] == [c.x, c.y];
    PopGiven(c.cfg, 1, [], p, [c.u, c.t, c.y], c.x);
    PopGiven(c.cfg, 1, [], Popping([c.u, c.t, c.y], [], [c.x]), [c.u, c.t], c.y);
    PopDone(c.cfg, 1, [], Popping([c.u, c.t], [], [c.x, c.y]));
  }

  lemma FirstClaims(c: Crossing)
    requires Crosses(c)
    ensures Claim(c.cfg, [], [c.x, c.y], 0) == [(c.k, 0)]
  {
    assert [c.k][1..] == [] && [c.x, c.y][1..] == [c.y] && [c.y][1..] == [];
    assert ClaimKeys([], [c.k], 0) == [(c.k, 0)];
    assert Claim(c.cfg, [(c.k, 0)], [c.y], 0) == [(c.k, 0)];
  }

  function M1(c: Crossing, n: nat): Master {
    Master([c.u, c.t], [], [(c.k, 0)], [], Ids(n), 1)
  }

  /** Worker 0 asks first and is given x and y. */
  lemma FirstReply(c: Crossing, n: nat)
    requires Crosses(c) && n >= 2
    ensures S0(c, n).master.procs != {} && Reply(c.cfg, S0(c, n).master, 0) == (M1(c, n), [c.x, c.y])
  {
    FirstPops(c);
    FirstClaims(c);
    assert BatchSize(c.cfg, n) == 1;
  }

  lemma HeldNow(c: Crossing)
    requires Crosses(c)
    ensures FirstHeld([c.k, c.q], [(c.k, 0)]) == Some(c.k) && FirstHeld([c.q], [(c.k, 0)]) == None
  {
    var held: Dict<Key, int> := [(c.k, 0)];
    assert held[1..] == [] && [c.q][1..] == [];
    assert Get(held, c.k) == Some(0) && Get(held, c.q) == None;
  }

  lemma SecondPops(c: Crossing)
    requires Crosses(c)
    ensures PopBatch(c.cfg, 1, [(c.k, 0)], Popping([c.u, c.t], [], [])) == Popping([], [(c.k, [c.t])], [c.u])
  {
    var held: Dict<Key, int> := [(c.k, 0)];
    HeldNow(c);
    assert [] + [c.t] == [c.t] && [] + [c.u] == [c.u];
    PopDeferred(c.cfg, 1, held, Popping([c.u, c.t], [], []), [c.u], c.t, c.k);
    assert Defer([], c.k, c.t) == [(c.k, [c.t])];
    PopGiven(c.cfg, 1, held, Popping([c.u], [(c.k, [c.t])], []), [], c.u);
    PopDone(c.cfg, 1, held, Popping([], [(c.k, [c.t])], [c.u]));
  }

  lemma SecondClaims(c: Crossing)
    requires Crosses(c)
    ensures Claim(c.cfg, [(c.k, 0)], [c.u], 1) == [(c.k, 0), (c.q, 1)]
  {
    var held: Dict<Key, int> := [(c.k, 0)];
    assert [c.q][1..] == [] && [c.u][1..] == [] && held[1..] == [];
    assert Set(held, c.q, 1) == [(c.k, 0), (c.q, 1)];
    assert ClaimKeys(held, [c.q], 1) == [(c.k, 0), (c.q, 1)];
  }

  function M2(c: Crossing, n: nat): Master {
    Master([], [], [(c.k, 0), (c.q, 1)], [(c.k, [c.t])], Ids(n), 2)
  }

  /** Worker 1 asks next: t has to wait for k, and u is given away before it. */
  lemma SecondReply(c: Crossing, n: nat)
    requires Crosses(c) && n >= 2
    ensures M1(c, n).procs != {} && Reply(c.cfg, M1(c, n), 1) == (M2(c, n), [c.u])
  {
    SecondPops(c);
    SecondClaims(c);
    assert BatchSize(c.cfg, n) == 1;
  }

  // -------------------------------------------------------------------- the run

  function S1(c: Crossing, n: nat): State
    requires n >= 2
  {
    State(M1(c, n), Announced(n)[0 := Worker([[c.x, c.y]], None, [], [c.x, c.y])], [], [])
  }

  function After(c: Crossing, n: nat, worker: Worker, executed: seq<Test>): State
    requires n >= 2
  {
    State(M2(c, n), S1(c, n).workers[1 := worker], executed, [])
  }

  function S2(c: Crossing, n: nat): State
    requires n >= 2
  {
    After(c, n, Worker([[c.u]], None, [], [c.u]), [])
  }

  function S3(c: Crossing, n: nat): State
    requires n >= 2
  {
    After(c, n, Worker([], Some([c.u]), [], [c.u]), [])
  }

  function S4(c: Crossing, n: nat): State
    requires n >= 2
  {
    After(c, n, Worker([], Some([]), [Result(c.u)], [c.u]), [c.u])
  }

  lemma FirstStep(c: Crossing, n: nat)
    requires Crosses(c) && n >= 2
    ensures Enabled(S0(c, n), Receive(0)) && Next(c.cfg, S0(c, n), Receive(0)) == S1(c, n)
  {
    FirstReply(c, n);
    assert W0.outbox[1..] == [] && W0.inbox + [[c.x, c.y]] == [[c.x, c.y]];
    assert Next(c.cfg, S0(c, n), Receive(0)).workers == S1(c, n).workers;
  }

  lemma SecondStep(c: Crossing, n: nat)
    requires Crosses(c) && n >= 2
    ensures Enabled(S1(c, n), Receive(1)) && Next(c.cfg, S1(c, n), Receive(1)) == S2(c, n)
  {
    SecondReply(c, n);
    assert W0.outbox[1..] == [] && W0.inbox + [[c.u]] == [[c.u]];
    assert Next(c.cfg, S1(c, n), Receive(1)).workers == S2(c, n).workers;
  }

  lemma LastSteps(c: Crossing, n: nat)
    requires Crosses(c) && n >= 2
    ensures Enabled(S2(c, n), Take(1)) && Next(c.cfg, S2(c, n), Take(1)) == S3(c, n)
    ensures Enabled(S3(c, n), RunOne(1)) && Next(c.cfg, S3(c, n), RunOne(1)) == S4(c, n)
  {
    var none: seq<Test> := [];
    var silent: seq<Message> := [];
    assert [[c.u]][1..] == [] && [c.u][1..] == [];
    assert none + [c.u] == [c.u] && silent + [Result(c.u)] == [Result(c.u)];
    assert Next(c.cfg, S2(c, n), Take(1)).workers == S3(c, n).workers;
    assert Next(c.cfg, S3(c, n), RunOne(1)).workers == S4(c, n).workers;
  }

  const STEPS := [Receive(0), Receive(1), Take(1), RunOne(1)]

  lemma WholeRun(c: Crossing, n: nat)
    requires Crosses(c) && n >= 2
    ensures Run(c.cfg, S0(c, n), STEPS, S4(c, n))
  {
    FirstStep(c, n);
    SecondStep(c, n);
    LastSteps(c, n);
    var end := S4(c, n);
    assert STEPS[1..] == [Receive(1), Take(1), RunOne(1)] && STEPS[1..][1..] == [Take(1), RunOne(1)];
    assert STEPS[1..][1..][1..] == [RunOne(1)] && STEPS[1..][1..][1..][1..] == [];
    assert Run(c.cfg, end, [], end);
    assert Run(c.cfg, S3(c, n), [RunOne(1)], end);
    assert Run(c.cfg, S2(c, n), [Take(1), RunOne(1)], end);
    assert Run(c.cfg, S1(c, n), [Receive(1), Take(1), RunOne(1)], end);
  }

  /** With two or more workers there is a run in which u is run although t, which shares
      key q with it and was given first, has not been. */
  lemma OrderBroken(c: Crossing, requested: nat)
    requires Crosses(c) && requested >= 2
    ensures Run(c.cfg, Start(c.cfg, Files(c), requested), STEPS, S4(c, WorkerCount(requested, 4)))
    ensures Carrying(c.cfg, c.q, Files(c)) == [c.t, c.u]
    ensures Carrying(c.cfg, c.q, S4(c, WorkerCount(requested, 4)).executed) == [c.u]
    ensures !Sole(c.cfg, Files(c), c.q)
  {
    StartState(c, requested);
    WholeRun(c, WorkerCount(requested, 4));
    CarryingOfFiles(c);
    NotSole(c);
  }

  lemma NotSole(c: Crossing)
    requires Crosses(c)
    ensures !Sole(c.cfg, Files(c), c.q)
  {
    var keys := c.cfg.conflicts(c.t);
    assert Files(c)[2] in Files(c) && keys[0] in keys && keys[1] in keys;
  }

  lemma CarryingOfFiles(c: Crossing)
    requires Crosses(c)
    ensures Carrying(c.cfg, c.q, Files(c)) == [c.t, c.u] && Carrying(c.cfg, c.q, [c.u]) == [c.u]
  {
    var q := c.q;
    assert Files(c)[1..] == [c.y, c.t, c.u] && [c.y, c.t, c.u][1..] == [c.t, c.u] && [c.t, c.u][1..] == [c.u];
    assert [c.u][1..] == [];
    var keys := c.cfg.conflicts(c.t);
    assert keys[1] in keys;
    assert Carrying(c.cfg, q, [c.u]) == [c.u];
    assert Carrying(c.cfg, q, [c.t, c.u]) == [c.t, c.u];
    assert Carrying(c.cfg, q, [c.y, c.t, c.u]) == [c.t, c.u];
  }

  // -------------------------------------------------------------- such tests exist

  const EXAMPLE := Crossing(Config(ExampleKeys, true, false, 4), "A", "B", "1", "2", "3", "4")

  function ExampleKeys(test: Test): seq<Key> {
    if test == "1" then ["A"] else if test == "3" then ["A", "B"] else if test == "4" then ["B"] else []
  }

  lemma ExampleCrosses()
    ensures Crosses(EXAMPLE)
  {
    assert "1"[0] != "2"[0] && "1"[0] != "3"[0] && "1"[0] != "4"[0];
    assert "2"[0] != "3"[0] && "2"[0] != "4"[0] && "3"[0] != "4"[0];
    assert "A"[0] != "B"[0] && |ALL| == 3;
  }
}
