/** How many tests a reply holds: what the batch size is, what the pop loop takes, exactly,
    and when that is more than the size asked for. */
module SchedulerBatch {
  import opened Options
  import opened PhpArray
  import opened Sequences
  import opened Scheduler

  /** The stacked tests none of whose keys is held, from the top of the stack down. */
  function Free(cfg: Config, active: Dict<Key, int>, stack: seq<Test>): seq<Test> {
    if stack == [] then []
    else if FirstHeld(cfg.conflicts(Last(stack)), active).None? then
      [Last(stack)] + Free(cfg, active, DropLast(stack))
    else Free(cfg, active, DropLast(stack))
  }

  /** Adding tests one by one until there are more than `size`. */
  function Filled(files: seq<Test>, tests: seq<Test>, size: nat): seq<Test>
    decreases |tests|
  {
    if |files| > size || tests == [] then files else Filled(files + [tests[0]], tests[1..], size)
  }

  function Prefix(tests: seq<Test>, n: nat): seq<Test> {
    if n <= |tests| then tests[..n] else tests
  }

  lemma {:induction false} FilledIsPrefix(files: seq<Test>, tests: seq<Test>, size: nat)
    requires |files| <= size + 1
    ensures Filled(files, tests, size) == files + Prefix(tests, size + 1 - |files|)
    decreases |tests|
  {
    if |files| <= size && tests != [] {
      FilledIsPrefix(files + [tests[0]], tests[1..], size);
    }
  }

  /** A deferred test leaves the batch alone; any other one is the next of it. */
  lemma {:induction false} BatchIsFilled(cfg: Config, size: nat, active: Dict<Key, int>, p: Popping)
    ensures PopBatch(cfg, size, active, p).files == Filled(p.files, Free(cfg, active, p.stack), size)
    decreases |p.stack|
  {
    if |p.files| <= size && p.stack != [] {
      var t, rest := Last(p.stack), DropLast(p.stack);
      match FirstHeld(cfg.conflicts(t), active)
      case Some(k) =>
        BatchIsFilled(cfg, size, active, Popping(rest, Defer(p.waiting, k, t), p.files));
      case None =>
        BatchIsFilled(cfg, size, active, Popping(rest, p.waiting, p.files + [t]));
        assert ([t] + Free(cfg, active, rest))[1..] == Free(cfg, active, rest);
    }
  }

  /** A batch is the first size + 1 free tests of the stack. */
  lemma BatchIsPrefix(cfg: Config, size: nat, active: Dict<Key, int>, stack: seq<Test>, waiting: Waiting)
    ensures PopBatch(cfg, size, active, Popping(stack, waiting, [])).files == Prefix(Free(cfg, active, stack), size + 1)
  {
    BatchIsFilled(cfg, size, active, Popping(stack, waiting, []));
    FilledIsPrefix([], Free(cfg, active, stack), size);
  }

  /** A batch keeps to its size if and only if no more tests than that are free. */
  lemma WithinSizeIff(cfg: Config, size: nat, active: Dict<Key, int>, stack: seq<Test>, waiting: Waiting)
    ensures var files := PopBatch(cfg, size, active, Popping(stack, waiting, [])).files;
      var n := |Free(cfg, active, stack)|;
      && |files| == (if n <= size + 1 then n else size + 1)
      && (|files| <= size <==> n <= size)
  {
    BatchIsPrefix(cfg, size, active, stack, waiting);
  }

  /** Under valgrind, where the size is 1, two free tests on top of the stack go out together. */
  lemma TwoAtOnce(cfg: Config, m: Master, w: nat, rest: seq<Test>, t: Test, u: Test)
    requires m.procs != {} && cfg.valgrind && (|m.procs| > 1 || m.sequential == []) && m.stack == rest + [u, t]
    requires FirstHeld(cfg.conflicts(t), m.active).None? && FirstHeld(cfg.conflicts(u), m.active).None?
    ensures BatchSize(cfg, |m.procs|) == 1 && Reply(cfg, m, w).1 == [t, u]
  {
    assert DropLast(m.stack) == rest + [u] && DropLast(rest + [u]) == rest;
    var below := Free(cfg, m.active, rest);
    assert Free(cfg, m.active, m.stack) == [t] + ([u] + below);
    BatchIsPrefix(cfg, 1, m.active, m.stack, m.waiting);
    assert Prefix([t] + ([u] + below), 2) == [t, u];
  }

  /** The size is the least with which the live workers could share all parallel tests, but
      at least 1, and at most 1 under valgrind, 4 if shuffled and 32 otherwise. */
  lemma BatchSizeMeans(cfg: Config, live: nat)
    requires live > 0
    ensures var size := BatchSize(cfg, live);
      var most := if cfg.valgrind then 1 else if cfg.shuffle then 4 else 32;
      && 1 <= size <= most
      && (size * live >= cfg.total || size == most)
      && ((size - 1) * live < cfg.total || size == 1)
  {
    var size, average := BatchSize(cfg, live), (cfg.total + live - 1) / live;
    RoundedUp(cfg.total, live, average);
    if size < average {
      MulMonotone(size, average - 1, live);
    } else {
      MulMonotone(average, size, live);
    }
    if size > 1 { MulMonotone(size - 1, average - 1, live); }
  }

  lemma RoundedUp(total: nat, live: nat, average: nat)
    requires live > 0 && average == (total + live - 1) / live
    ensures average * live - live < total <= average * live && (average - 1) * live == average * live - live
  {
    assert total + live - 1 == average * live + (total + live - 1) % live;
  }

  lemma MulMonotone(a: int, b: int, c: nat)
    requires a <= b
    ensures a * c <= b * c
  {
  }

  /** The stack a reply draws from: with the sequential tests on top once a single worker
      is left. */
  function Drawn(m: Master): seq<Test> {
    if |m.procs| == 1 then m.stack + m.sequential else m.stack
  }

  /** A reply is the first free tests of that stack, one more than the batch size if there
      are as many. */
  lemma ReplyIsPrefix(cfg: Config, m: Master, w: nat)
    requires m.procs != {}
    ensures var free, size := Free(cfg, m.active, Drawn(m)), BatchSize(cfg, |m.procs|);
      && Reply(cfg, m, w).1 == Prefix(free, size + 1)
      && |Reply(cfg, m, w).1| == (if |free| <= size + 1 then |free| else size + 1)
  {
    assert m.sequential == [] ==> m.stack + m.sequential == m.stack;
    BatchIsPrefix(cfg, BatchSize(cfg, |m.procs|), m.active, Drawn(m), m.waiting);
  }

  /** Four workers, a thousand free tests, no valgrind, not shuffled: 33 go out at once. */
  lemma ThirtyThreeAtOnce(cfg: Config, m: Master, w: nat)
    requires |m.procs| == 4 && cfg.total == 1000 && !cfg.valgrind && !cfg.shuffle
    requires |Free(cfg, m.active, m.stack)| == 1000
    ensures |Reply(cfg, m, w).1| == 33
  {
    BatchSizeMeans(cfg, 4);
    ReplyIsPrefix(cfg, m, w);
  }

  /** A deferred test waits for the first of its keys that is held. */
  lemma {:induction false} FirstHeldIsFirst(keys: seq<Key>, active: Dict<Key, int>) returns (i: nat)
    ensures i <= |keys| && forall j :: 0 <= j < i ==> !Has(active, keys[j])
    ensures FirstHeld(keys, active) == if i < |keys| then Some(keys[i]) else None
    ensures i < |keys| ==> Has(active, keys[i])
    decreases |keys|
  {
    if keys == [] || Has(active, keys[0]) {
      i := 0;
    } else {
      i := FirstHeldIsFirst(keys[1..], active);
      i := i + 1;
    }
  }
}
