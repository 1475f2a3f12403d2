/** What the insertion order of the master's arrays decides: where the tests end up that a
    finished worker's keys kept waiting. Also how a run begins. */
module SchedulerWaking {
  import opened PhpArray
  import opened Sequences
  import opened Scheduler

  // ------------------------------------------------------------------- arrays

  /** The keys of an array, in the order in which `foreach` comes to them. */
  function KeysOf<K, V>(a: Dict<K, V>): (r: seq<K>)
    ensures |r| == |a| && forall i :: 0 <= i < |a| ==> r[i] == a[i].0
  {
    if a == [] then [] else [a[0].0] + KeysOf(a[1..])
  }

  /** Writing a key that is there leaves all keys in place; a new one comes last. */
  lemma {:induction false} SetKeys<K, V>(a: Dict<K, V>, k: K, v: V)
    ensures KeysOf(Set(a, k, v)) == if Has(a, k) then KeysOf(a) else KeysOf(a) + [k]
  {
    if a != [] && a[0].0 != k {
      SetKeys(a[1..], k, v);
      assert Set(a, k, v)[1..] == Set(a[1..], k, v);
    }
  }

  function Except<K(==)>(keys: seq<K>, k: K): seq<K> {
    if keys == [] then [] else (if keys[0] == k then [] else [keys[0]]) + Except(keys[1..], k)
  }

  /** Removing a key leaves the others in their order. */
  lemma {:induction false} UnsetKeys<K, V>(a: Dict<K, V>, k: K)
    ensures KeysOf(Unset(a, k)) == Except(KeysOf(a), k)
  {
    if a != [] {
      UnsetKeys(a[1..], k);
      assert KeysOf(a)[1..] == KeysOf(a[1..]);
      if a[0].0 != k { assert Unset(a, k)[1..] == Unset(a[1..], k); }
    }
  }

  // ------------------------------------------------------------------- claims

  /** Further keys, each new one behind those before it. */
  function Joined<K(==)>(keys: seq<K>, more: seq<K>): seq<K>
    decreases |more|
  {
    if more == [] then keys else Joined(if more[0] in keys then keys else keys + [more[0]], more[1..])
  }

  function AllKeys(cfg: Config, files: seq<Test>): seq<Key> {
    if files == [] then [] else cfg.conflicts(files[0]) + AllKeys(cfg, files[1..])
  }

  lemma {:induction false} JoinedTwice<K>(keys: seq<K>, a: seq<K>, b: seq<K>)
    ensures Joined(keys, a + b) == Joined(Joined(keys, a), b)
    decreases |a|
  {
    if a == [] {
      assert a + b == b;
    } else {
      assert (a + b)[1..] == a[1..] + b;
      JoinedTwice(if a[0] in keys then keys else keys + [a[0]], a[1..], b);
    }
  }

  lemma {:induction false} ClaimKeysJoins(active: Dict<Key, int>, keys: seq<Key>, w: nat)
    ensures KeysOf(ClaimKeys(active, keys, w)) == Joined(KeysOf(active), keys)
    decreases |keys|
  {
    if keys != [] {
      SetKeys(active, keys[0], w);
      GetIsMember(active, keys[0]);
      assert Has(active, keys[0]) <==> keys[0] in KeysOf(active);
      ClaimKeysJoins(Set(active, keys[0], w), keys[1..], w);
    }
  }

  /** A batch claims the keys of its tests in the order of the batch. */
  lemma {:induction false} ClaimJoins(cfg: Config, active: Dict<Key, int>, files: seq<Test>, w: nat)
    ensures KeysOf(Claim(cfg, active, files, w)) == Joined(KeysOf(active), AllKeys(cfg, files))
    decreases |files|
  {
    if files != [] {
      var keys := cfg.conflicts(files[0]);
      ClaimKeysJoins(active, keys, w);
      ClaimJoins(cfg, ClaimKeys(active, keys, w), files[1..], w);
      JoinedTwice(KeysOf(active), keys, AllKeys(cfg, files[1..]));
    }
  }

  // ------------------------------------------------------------------- waking

  /** The keys worker w holds, in the order of the array. */
  function HeldBy(active: Dict<Key, int>, w: nat): seq<Key> {
    if active == [] then [] else (if active[0].1 == w then [active[0].0] else []) + HeldBy(active[1..], w)
  }

  /** Key by key the tests that wait for it, the longest-waiting one on top. */
  function Woken(keys: seq<Key>, waiting: Waiting): seq<Test> {
    if keys == [] then [] else Reverse(WaitingFor(waiting, keys[0])) + Woken(keys[1..], waiting)
  }

  lemma {:induction false} WokenWithout(keys: seq<Key>, waiting: Waiting, k: Key)
    requires k !in keys
    ensures Woken(keys, Unset(waiting, k)) == Woken(keys, waiting)
  {
    if keys != [] {
      GetUnset(waiting, k, keys[0]);
      WokenWithout(keys[1..], waiting, k);
    }
  }

  lemma {:induction false} HeldByMembers(active: Dict<Key, int>, w: nat)
    ensures forall k :: k in HeldBy(active, w) ==> exists i :: 0 <= i < |active| && active[i] == (k, w as int)
  {
    if active != [] {
      HeldByMembers(active[1..], w);
      forall k | k in HeldBy(active, w) ensures exists i :: 0 <= i < |active| && active[i] == (k, w as int) {
        if k in HeldBy(active[1..], w) {
          var i :| 0 <= i < |active[1..]| && active[1..][i] == (k, w as int);
          assert active[i + 1] == (k, w as int);
        } else {
          assert active[0] == (k, w as int);
        }
      }
    }
  }

  lemma WokenStep(entries: Dict<Key, int>, waiting: Waiting, w: nat)
    requires entries != [] && UniqueKeys(entries)
    ensures var k, rest := entries[0].0, HeldBy(entries[1..], w);
      Woken(HeldBy(entries, w), waiting)
        == if entries[0].1 == w then Reverse(WaitingFor(waiting, k)) + Woken(rest, Unset(waiting, k))
           else Woken(rest, waiting)
  {
    var k, rest := entries[0].0, HeldBy(entries[1..], w);
    if entries[0].1 == w {
      HeldByMembers(entries[1..], w);
      WokenWithout(rest, waiting, k);
      assert HeldBy(entries, w) == [k] + rest && ([k] + rest)[1..] == rest;
    } else {
      assert HeldBy(entries, w) == [] + rest == rest;
    }
  }

  /** The tests woken for the keys of a finished worker come onto the stack in the order in
      which the keys were claimed: those of the last one are on top. */
  lemma {:induction false} ReleaseWakes(entries: Dict<Key, int>, m: Master, w: nat)
    requires UniqueKeys(entries)
    ensures Release(entries, m, w).stack == m.stack + Woken(HeldBy(entries, w), m.waiting)
    decreases |entries|
  {
    if entries != [] {
      WokenStep(entries, m.waiting, w);
      var k := entries[0].0;
      var tests := Reverse(WaitingFor(m.waiting, k));
      var m' := m.(active := Unset(m.active, k), stack := m.stack + tests, waiting := Unset(m.waiting, k));
      ReleaseWakes(entries[1..], if entries[0].1 == w then m' else m, w);
    }
  }

  // ------------------------------------------------------------------ the start

  /** No more workers are started than asked for, nor more than there are parallel tests,
      but always one; and no fewer than that. */
  lemma WorkerCountMeans(requested: nat, parallel: nat)
    ensures var n := WorkerCount(requested, parallel);
      && n >= 1 && (n == 1 || (n <= requested && n <= parallel))
      && (n >= requested || n >= parallel)
  {
  }

  /** The tests are popped in the order given, or from the end of a shuffled list. */
  lemma StartOrder(cfg: Config, files: seq<Test>, requested: nat, i: nat)
    requires i < |Select(cfg, files, false)|
    ensures var stack, given := Start(cfg, files, requested).master.stack, Select(cfg, files, false);
      |stack| == |given| && stack[|stack| - 1 - i] == (if cfg.shuffle then given[|given| - 1 - i] else given[i])
  {
  }

  /** One worker each for the ids from 0 on, and each has said that it is ready. */
  lemma StartWorkers(cfg: Config, files: seq<Test>, requested: nat)
    ensures var s := Start(cfg, files, requested);
      && |s.workers| == |s.master.procs| == WorkerCount(requested, |Select(cfg, files, false)|)
      && (forall w: nat :: w in s.master.procs <==> w < |s.workers|)
      && forall w :: 0 <= w < |s.workers| ==> s.workers[w].outbox == [Ready]
  {
  }
}
