/** The master of the scheduler in the form the code has: variables changed in place by
    the handlers of `ready` and `tests_finished`. Every method is tied to the function
    of module `Scheduler` the proofs over all runs are about. */
module SchedulerMaster {
  import opened PhpArray
  import opened Sequences
  import opened Scheduler

  class MasterProcess {
    const cfg: Config
    var stack: seq<Test>
    var sequential: seq<Test>
    var active: Dict<Key, int>
    var waiting: Waiting
    var procs: set<nat>
    var inProgress: int

    function View(): Master
      reads this
    {
      Master(stack, sequential, active, waiting, procs, inProgress)
    }

    /** Set the sequential tests apart, and reverse the others unless shuffled. */
    constructor (conflicts: Test -> seq<Key>, valgrind: bool, shuffle: bool, files: seq<Test>, requested: nat)
      ensures cfg == Config(conflicts, valgrind, shuffle, |Select(cfg, files, false)|)
      ensures View() == Start(cfg, files, requested).master
    {
      var c := Config(conflicts, valgrind, shuffle, 0);
      var parallel, apart := SetApart(c, files);
      cfg := Config(conflicts, valgrind, shuffle, |parallel|);
      SelectIgnoresTotal(c, Config(conflicts, valgrind, shuffle, |parallel|), files);
      stack := if shuffle then parallel else Reverse(parallel);
      sequential := apart;
      active, waiting := [], [];
      procs := Ids(WorkerCount(requested, |parallel|));
      inProgress := 0;
    }

    /** A worker has run its batch: free its keys and wake the tests waiting for them. */
    method TestsFinished(w: nat)
      modifies this
      ensures View() == Release(old(active), old(View()), w).(inProgress := old(inProgress) - 1)
    {
      inProgress := inProgress - 1;
      ghost var before := View();
      var entries := active;
      var i := 0;
      while i < |entries|
        invariant 0 <= i <= |entries|
        invariant Release(entries[i..], View(), w) == Release(entries, before, w)
      {
        if entries[i].1 == w {
          WakeWaiting(entries[i].0);
        }
        i := i + 1;
      }
      ReleaseIgnoresCount(entries, old(View()), w, before.inProgress);
    }

    /** Forget key k, pushing the tests that wait for it from the newest to the oldest. */
    method WakeWaiting(k: Key)
      modifies this
      ensures View() == old(View()).(
        active := Unset(old(active), k),
        stack := old(stack) + Reverse(WaitingFor(old(waiting), k)),
        waiting := Unset(old(waiting), k))
    {
      active := Unset(active, k);
      if Has(waiting, k) {
        var list := Get(waiting, k).value;
        ghost var all := list;
        while list != []
          invariant |list| <= |all| && list == all[..|list|]
          invariant stack == old(stack) + Reverse(all[|list|..])
          invariant active == Unset(old(active), k) && waiting == old(waiting)
          invariant sequential == old(sequential) && procs == old(procs) && inProgress == old(inProgress)
          decreases |list|
        {
          var test := Last(list);
          ghost var n := |list|;
          list := DropLast(list);
          stack := stack + [test];
          assert all[n - 1..] == [test] + all[n..];
        }
        waiting := Unset(waiting, k);
      } else {
        UnsetMissing(waiting, k);
      }
    }

    /** Answer worker w with a batch, or retire it when there is none. */
    method Respond(w: nat) returns (files: seq<Test>)
      requires procs != {}
      modifies this
      ensures (View(), files) == Reply(cfg, old(View()), w)
    {
      if |procs| == 1 && sequential != [] {
        stack := stack + sequential;
        sequential := [];
      }
      ghost var merged := View();
      files := PopTests(BatchSize(cfg, |procs|));
      if files != [] {
        ClaimAll(files, w);
        inProgress := inProgress + 1;
      } else {
        procs := procs - {w};
      }
    }

    method PopTests(batchSize: nat) returns (files: seq<Test>)
      modifies this`stack, this`waiting
      ensures Popping(stack, waiting, files)
           == PopBatch(cfg, batchSize, active, Popping(old(stack), old(waiting), []))
    {
      files := [];
      while |files| <= batchSize && stack != []
        invariant PopBatch(cfg, batchSize, active, Popping(stack, waiting, files))
               == PopBatch(cfg, batchSize, active, Popping(old(stack), old(waiting), []))
        decreases |stack|
      {
        var file := Last(stack);
        stack := DropLast(stack);
        var keys := cfg.conflicts(file);
        var i := 0;
        while i < |keys| && !Has(active, keys[i])
          invariant 0 <= i <= |keys|
          invariant FirstHeld(keys[i..], active) == FirstHeld(keys, active)
        {
          i := i + 1;
        }
        if i < |keys| {
          waiting := Defer(waiting, keys[i], file);
        } else {
          files := files + [file];
        }
      }
    }

    method ClaimAll(files: seq<Test>, w: nat)
      modifies this`active
      ensures active == Claim(cfg, old(active), files, w)
    {
      var i := 0;
      while i < |files|
        invariant 0 <= i <= |files|
        invariant Claim(cfg, active, files[i..], w) == Claim(cfg, old(active), files, w)
      {
        var keys := cfg.conflicts(files[i]);
        ghost var before := active;
        var j := 0;
        while j < |keys|
          invariant 0 <= j <= |keys|
          invariant ClaimKeys(active, keys[j..], w) == ClaimKeys(before, keys, w)
        {
          active := Set(active, keys[j], w);
          assert keys[j..][1..] == keys[j + 1..];
          j := j + 1;
        }
        assert files[i..][1..] == files[i + 1..];
        i := i + 1;
      }
    }
  }

  /** Split off the tests that conflict with everything. */
  method SetApart(cfg: Config, files: seq<Test>) returns (parallel: seq<Test>, apart: seq<Test>)
    ensures parallel == Select(cfg, files, false) && apart == Select(cfg, files, true)
  {
    parallel, apart := [], [];
    var i := 0;
    while i < |files|
      invariant 0 <= i <= |files|
      invariant parallel + Select(cfg, files[i..], false) == Select(cfg, files, false)
      invariant apart + Select(cfg, files[i..], true) == Select(cfg, files, true)
    {
      assert files[i..][1..] == files[i + 1..];
      if "all" in cfg.conflicts(files[i]) {
        apart := apart + [files[i]];
      } else {
        parallel := parallel + [files[i]];
      }
      i := i + 1;
    }
  }

  lemma {:induction false} SelectIgnoresTotal(c: Config, d: Config, files: seq<Test>)
    requires c.conflicts == d.conflicts
    ensures Select(c, files, false) == Select(d, files, false) && Select(c, files, true) == Select(d, files, true)
  {
    if files != [] { SelectIgnoresTotal(c, d, files[1..]); }
  }

  lemma {:induction false} ReleaseIgnoresCount(entries: Dict<Key, int>, m: Master, w: nat, n: int)
    ensures Release(entries, m.(inProgress := n), w) == Release(entries, m, w).(inProgress := n)
    decreases |entries|
  {
    if entries != [] {
      var k := entries[0].0;
      var m' := if entries[0].1 == w
                then m.(active := Unset(m.active, k), stack := m.stack + Reverse(WaitingFor(m.waiting, k)),
                        waiting := Unset(m.waiting, k))
                else m;
      ReleaseIgnoresCount(entries[1..], m', w, n);
    }
  }

  lemma {:induction false} UnsetMissing<V>(a: Dict<Key, V>, k: Key)
    requires !Has(a, k)
    ensures Unset(a, k) == a
  {
    if a != [] { UnsetMissing(a[1..], k); }
  }
}
