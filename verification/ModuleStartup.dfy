/** `zend_sort_modules` in place and `zend_startup_modules` over its result. Modules are
    objects whose `started` flag startup sets; `View` gives the values the graph
    theory of `ModuleGraph` is about. */
module ModuleStartup {
  import opened Folded
  import opened Options
  import opened ModuleGraph
  import opened ModuleKept
  import opened ModuleNames

  class ModuleEntry {
    const name: string
    const deps: seq<Dep>
    var started: bool

    constructor (name: string, deps: seq<Dep>)
      ensures this.name == name && this.deps == deps && !started
    {
      this.name, this.deps, started := name, deps, false;
    }

    function View(): Mod
      reads this
    {
      Mod(Fold(name), deps, started)
    }
  }

  function Views(s: seq<ModuleEntry>): (r: seq<Mod>)
    reads s
    ensures |r| == |s| && forall i :: 0 <= i < |s| ==> r[i] == s[i].View()
  {
    seq(|s|, i requires 0 <= i < |s| reads s => s[i].View())
  }

  /** Sort a registry in place; any acyclic one ends up with no unstarted module before
      one it requires or optionally depends on. */
  method SortModules(a: array<ModuleEntry>)
    requires UniqueNames(Views(a[..])) && Acyclic(ModSet(Views(a[..])))
    modifies a
    ensures multiset(a[..]) == old(multiset(a[..]))
    ensures SettledBefore(Views(a[..]), a.Length)
    ensures UniqueNames(Views(a[..])) && ModSet(Views(a[..])) == ModSet(old(Views(a[..])))
    ensures exists n :: Steps(Sorting(old(Views(a[..])), 0), n) == Sorting(Views(a[..]), a.Length)
  {
    ghost var start := Sorting(Views(a[..]), 0);
    ghost var n := 0;
    ghost var st := start;
    var b1 := 0;
    SortStarts(start);
    while b1 < a.Length
      invariant 0 <= b1 <= a.Length && st == Sorting(Views(a[..]), b1)
      invariant multiset(a[..]) == old(multiset(a[..]))
      invariant UnderWay(start, n, st)
      decreases a.Length - b1, RankAt(ModSet(start.s), st)
    {
      SortStep(start, n, st);
      var b2 := FindTarget(a, b1);
      n, st := n + 1, Step(st);
      if b2.Some? {
        SwapBuckets(a, b1, b2.value);
      } else {
        b1 := b1 + 1;
      }
    }
    SortEnds(start, n, st);
  }


  ghost predicate UnderWayOk(start: Sorting, n: nat, st: Sorting) {
    && SortingOk(st) && ModSet(st.s) == ModSet(start.s) && Acyclic(ModSet(start.s))
    && Steps(start, n) == st
  }

  /** The sort of `start` is at st after n steps; folded. */
  ghost predicate UnderWay(start: Sorting, n: nat, st: Sorting) {
    Agrees(UnderWayOk(start, n, st));
    var r: bool :| forall depth: nat {:trigger Inspected(depth)} :: Agree(r, UnderWayOk(start, n, st));
    r
  }

  lemma SortStarts(start: Sorting)
    requires start.p == 0 && UniqueNames(start.s) && Acyclic(ModSet(start.s))
    ensures UnderWay(start, 0, start)
  {
    assert Inspected(0);
  }

  lemma SortStep(start: Sorting, n: nat, st: Sorting)
    requires UnderWay(start, n, st) && st.p < |st.s|
    ensures UnderWay(start, n + 1, Step(st))
    ensures Step(st).p > st.p || (Step(st).p == st.p && RankAt(ModSet(start.s), Step(st)) < RankAt(ModSet(start.s), st))
    ensures SwapTarget(st.s, st.p).Some? ==> st.p < SwapTarget(st.s, st.p).value < |st.s|
  {
    assert Inspected(0);
    StepOk(st);
    OneMoreStep(start, n);
    SwapTargetMeans(st.s, st.p);
  }

  lemma SortEnds(start: Sorting, n: nat, st: Sorting)
    requires UnderWay(start, n, st) && st.p == |st.s|
    ensures SettledBefore(st.s, |st.s|) && UniqueNames(st.s) && ModSet(st.s) == ModSet(start.s) && Steps(start, n) == st
  {
    assert Inspected(0);
  }

  method SwapBuckets(a: array<ModuleEntry>, p: nat, q: nat)
    requires p < q < a.Length
    modifies a
    ensures a[..] == Swap(old(a[..]), p, q) && Views(a[..]) == Swap(old(Views(a[..])), p, q)
    ensures multiset(a[..]) == old(multiset(a[..]))
  {
    var tmp := a[p];
    a[p] := a[q];
    a[q] := tmp;
    assert a[..] == Swap(old(a[..]), p, q);
  }

  lemma {:induction false} OneMoreStep(st: Sorting, n: nat)
    requires Steps(st, n).p < |st.s|
    ensures Steps(st, n + 1) == Step(Steps(st, n))
    decreases n
  {
    if n > 0 && st.p < |st.s| { OneMoreStep(Step(st), n - 1); }
  }

  /** Search behind b1 for the first registered dependency of the module at b1. */
  method FindTarget(a: array<ModuleEntry>, b1: nat) returns (found: Option<nat>)
    requires b1 < a.Length
    ensures found == SwapTarget(Views(a[..]), b1)
  {
    var m := a[b1];
    ghost var s := Views(a[..]);
    if m.started { return None; }
    var dep := 0;
    while dep < |m.deps|
      invariant 0 <= dep <= |m.deps|
      invariant FirstLater(s, b1, dep) == FirstLater(s, b1, 0)
    {
      if m.deps[dep].kind.Required? || m.deps[dep].kind.Optional? {
        var b2 := b1 + 1;
        while b2 < a.Length
          invariant b1 < b2 <= a.Length
          invariant Position(s, b2, Fold(m.deps[dep].name)) == Position(s, b1 + 1, Fold(m.deps[dep].name))
        {
          if Fold(m.deps[dep].name) == Fold(a[b2].name) { return Some(b2); }
          b2 := b2 + 1;
        }
      }
      dep := dep + 1;
    }
    return None;
  }

  // ------------------------------------------------------------------ startup

  /** The ordered registry, and the modules whose startup function has been called. */
  class Registry {
    var table: seq<ModuleEntry>
    var log: seq<ModuleEntry>

    constructor (table: seq<ModuleEntry>)
      ensures this.table == table && log == []
    {
      this.table, log := table, [];
    }

    method Find(name: string) returns (found: Option<ModuleEntry>)
      ensures found.Some? ==> found.value in table && Fold(found.value.name) == Fold(name)
      ensures found.None? ==> forall r :: r in table ==> Fold(r.name) != Fold(name)
    {
      var i := 0;
      while i < |table|
        invariant 0 <= i <= |table|
        invariant forall j :: 0 <= j < i ==> Fold(table[j].name) != Fold(name)
      {
        if Fold(table[i].name) == Fold(name) { return Some(table[i]); }
        i := i + 1;
      }
      return None;
    }

    /** Start one module if everything it requires is registered and started; a module
        counts as started while its own requirements are checked. */
    method StartupModule(m: ModuleEntry) returns (ok: bool)
      requires m in table && OnePerName(table)
      modifies m`started, this`log
      ensures ok <==> old(Startable(table, m))
      ensures m.started == ok
      ensures log == if ok && !old(m.started) then old(log) + [m] else old(log)
    {
      if m.started { return true; }
      m.started := true;
      var dep := 0;
      while dep < |m.deps|
        invariant 0 <= dep <= |m.deps| && m.started && log == old(log)
        invariant forall e :: 0 <= e < dep && m.deps[e].kind.Required? ==>
          exists r :: r in table && Fold(r.name) == Fold(m.deps[e].name) && (r == m || r.started)
      {
        var d := m.deps[dep];
        if d.kind.Required? {
          var found := Find(d.name);
          if found.None? || !found.value.started {
            m.started := false;
            NotRequirable(table, m, d, found);
            return false;
          }
        }
        dep := dep + 1;
      }
      log := log + [m];
      return true;
    }

    /** Sort the registry, then start its modules in order and drop those that cannot be
        started. What is left does not depend on the registration order. */
    method StartupModules()
      requires UniqueNames(Views(table)) && Acyclic(ModSet(Views(table)))
      modifies this, table
      ensures forall m :: m in old(table) ==>
        (m in table <==> !Broken(old(ModSet(Views(table))), old(m.View())))
      ensures forall m :: m in table ==> m in old(table) && m.started
      ensures forall m :: m in old(table) && m !in table ==> !m.started
      ensures log == old(log) + Without(table, old(set m | m in table && m.started))
      ensures forall m :: m in log[|old(log)|..] <==> m in table && !old(m.started)
      ensures forall i, j :: |old(log)| <= i < j < |log| ==> log[i] != log[j]
      ensures StartedInOrder(log, |old(log)|, old(set m | m in table && m.started))
    {
      ghost var registered := table;
      ghost var mods := ModSet(Views(table));
      ghost var before := set m | m in table && m.started;
      SortTable();
      ghost var sorted, views, n := table, Views(table), |log|;
      FixedFacts(sorted, views, mods);
      forall j | 0 <= j < |sorted|
        ensures sorted[j] in before <==> views[j].started
      {
        assert sorted[j] in registered;
      }
      ApplyStartup(sorted, views, mods, before, Members(sorted));
      Distinct(sorted, views, mods);
      CalledOnce(sorted, views, mods, |sorted|);
      CalledIsKept(sorted, views, mods, before, |sorted|);
      assert log[n..] == Called(sorted, views, mods, |sorted|);
      Outcome(table, log[n..], sorted, views, mods);
      forall m | m in registered
        ensures m in sorted && views[IndexOf(sorted, m)] == old(m.View())
      {
      }
    }

    method SortTable()
      requires UniqueNames(Views(table)) && Acyclic(ModSet(Views(table)))
      modifies this`table
      ensures Members(table) == Members(old(table)) && (forall m :: m in table <==> m in old(table))
      ensures UniqueNames(Views(table)) && SettledBefore(Views(table), |table|)
      ensures ModSet(Views(table)) == old(ModSet(Views(table)))
    {
      var a := new ModuleEntry[|table|](i requires 0 <= i < |table| reads this => table[i]);
      assert a[..] == table;
      SortModules(a);
      SameMembers(table, a[..]);
      table := a[..];
    }

    /** Start the modules of a sorted registry one by one, removing those that fail. */
    method ApplyStartup(ghost sorted: seq<ModuleEntry>, ghost views: seq<Mod>, ghost mods: set<Mod>,
                        ghost before: set<ModuleEntry>, ghost owned: set<ModuleEntry>)
      requires owned == Members(sorted)
      requires table == sorted && views == Views(sorted) && Fixed(sorted, views, mods)
      requires forall j :: 0 <= j < |sorted| ==> (sorted[j] in before <==> views[j].started)
      modifies this, owned
      ensures table == Kept(sorted, views, mods, |sorted|)
      ensures StartedUpTo(table, sorted, Flags(sorted), views, mods, |sorted|)
      ensures log == old(log) + Called(sorted, views, mods, |sorted|)
      ensures LoggedUpTo(Called(sorted, views, mods, |sorted|), sorted, views, mods, |sorted|)
      ensures StartedInOrder(log, |old(log)|, before)
    {
      ghost var n := |log|;
      var k := 0;
      ghost var i := 0;
      TriedNone(sorted, views, mods, log, before);
      assert table[..0] == [] && log[..n] == log;
      while k < |table|
        invariant 0 <= k <= |table| && 0 <= i <= |sorted| && table[k..] == sorted[i..]
        invariant Tried(table[..k], sorted, Flags(sorted), views, mods, i, log, n, before)
        invariant |log| >= n && log[..n] == old(log)
        decreases |table| - k
      {
        k := StartOrRemove(k, sorted, views, mods, i, n, before, owned);
        i := i + 1;
      }
      assert table[..k] == table && log == log[..n] + log[n..];
      TriedMeans(table, sorted, Flags(sorted), views, mods, i, log, n, before);
    }

    method StartOrRemove(k: nat, ghost sorted: seq<ModuleEntry>, ghost views: seq<Mod>, ghost mods: set<Mod>,
                         ghost i: nat, ghost n: nat, ghost before: set<ModuleEntry>,
                         ghost owned: set<ModuleEntry>) returns (k': nat)
      requires owned == Members(sorted)
      requires k < |table| && i < |sorted| == |views| && table[k..] == sorted[i..] && |log| >= n
      requires Tried(table[..k], sorted, Flags(sorted), views, mods, i, log, n, before)
      modifies this, owned
      ensures k' <= |table| && table[k'..] == sorted[i + 1..] && |table| - k' < |old(table)| - k
      ensures Tried(table[..k'], sorted, Flags(sorted), views, mods, i + 1, log, n, before)
      ensures |log| >= n && log[..n] == old(log[..n])
    {
      var m := table[k];
      assert m == table[k..][0] == sorted[i];
      ghost var flags, fine := Flags(sorted), !Broken(mods, views[i]);
      ghost var kept' := if fine then table[..k] + [m] else table[..k];
      ghost var log' := if fine && !views[i].started then log + [m] else log;
      StartStep(table, k, sorted, views, mods, i, log, n, before);
      var ok := StartupModule(m);
      OneFlag(flags, Flags(sorted), i, ok);
      assert log == log';
      if ok {
        k' := k + 1;
      } else {
        table := table[..k] + table[k + 1..];
        k' := k;
      }
      assert table[..k'] == kept';
    }
  }

  ghost predicate TriedOk(kept: seq<ModuleEntry>, sorted: seq<ModuleEntry>, flags: seq<bool>, views: seq<Mod>,
                          mods: set<Mod>, i: nat, log: seq<ModuleEntry>, n: nat, before: set<ModuleEntry>)
  {
    && Fixed(sorted, views, mods) && i <= |sorted| && StartedUpTo(kept, sorted, flags, views, mods, i)
    && kept == Kept(sorted, views, mods, i) && |log| >= n && log[n..] == Called(sorted, views, mods, i)
    && |log| >= n && LoggedUpTo(log[n..], sorted, views, mods, i) && StartedInOrder(log, n, before)
    && forall j :: 0 <= j < |sorted| ==> (sorted[j] in before <==> views[j].started)
  }

  /** The state of affairs after the first i modules have been tried; folded. */
  ghost predicate Tried(kept: seq<ModuleEntry>, sorted: seq<ModuleEntry>, flags: seq<bool>, views: seq<Mod>,
                        mods: set<Mod>, i: nat, log: seq<ModuleEntry>, n: nat, before: set<ModuleEntry>)
  {
    Agrees(TriedOk(kept, sorted, flags, views, mods, i, log, n, before));
    var r: bool :| forall depth: nat {:trigger Inspected(depth)} ::
      Agree(r, TriedOk(kept, sorted, flags, views, mods, i, log, n, before));
    r
  }

  lemma TriedMeans(kept: seq<ModuleEntry>, sorted: seq<ModuleEntry>, flags: seq<bool>, views: seq<Mod>,
                   mods: set<Mod>, i: nat, log: seq<ModuleEntry>, n: nat, before: set<ModuleEntry>)
    ensures Tried(kept, sorted, flags, views, mods, i, log, n, before)
        <==> TriedOk(kept, sorted, flags, views, mods, i, log, n, before)
  {
    assert Inspected(0);
  }

  lemma TriedNone(sorted: seq<ModuleEntry>, views: seq<Mod>, mods: set<Mod>, log: seq<ModuleEntry>,
                  before: set<ModuleEntry>)
    requires views == Views(sorted) && Fixed(sorted, views, mods)
    requires forall j :: 0 <= j < |sorted| ==> (sorted[j] in before <==> views[j].started)
    ensures Tried([], sorted, Flags(sorted), views, mods, 0, log, |log|, before)
  {
    TriedMeans([], sorted, Flags(sorted), views, mods, 0, log, |log|, before);
  }

  /** All that trying the module at position i changes. */
  lemma StartStep(table: seq<ModuleEntry>, k: nat, sorted: seq<ModuleEntry>, views: seq<Mod>, mods: set<Mod>, i: nat,
                  log: seq<ModuleEntry>, n: nat, before: set<ModuleEntry>)
    requires i < |sorted| == |views| && k < |table| && table[k..] == sorted[i..] && |log| >= n
    requires Tried(table[..k], sorted, Flags(sorted), views, mods, i, log, n, before)
    ensures sorted[i] in table && OnePerName(table)
    ensures forall j :: 0 <= j < |sorted| && j != i ==> sorted[j] != sorted[i]
    ensures Startable(table, sorted[i]) <==> !Broken(mods, views[i])
    ensures sorted[i].started == views[i].started
    ensures var fine := !Broken(mods, views[i]);
      var kept' := if fine then table[..k] + [sorted[i]] else table[..k];
      var log' := if fine && !views[i].started then log + [sorted[i]] else log;
      Tried(kept', sorted, Flags(sorted)[i := fine], views, mods, i + 1, log', n, before)
  {
    TriedMeans(table[..k], sorted, Flags(sorted), views, mods, i, log, n, before);
    Decision(table, k, sorted, views, mods, i);
    InTable(table, k, sorted, views, mods, i);
    OneOfEachName(table, sorted, views, mods);
    var fine := !Broken(mods, views[i]);
    var kept' := if fine then table[..k] + [sorted[i]] else table[..k];
    var log' := if fine && !views[i].started then log + [sorted[i]] else log;
    StartedOneMore(table[..k], kept', sorted, Flags(sorted), views, mods, i);
    LogOneMore(table, k, sorted, views, mods, i, log, log', n, before);
    TryOneMore(sorted, views, mods, i, log, n);
    TriedMeans(kept', sorted, Flags(sorted)[i := fine], views, mods, i + 1, log', n, before);
  }

  lemma LogOneMore(table: seq<ModuleEntry>, k: nat, sorted: seq<ModuleEntry>, views: seq<Mod>, mods: set<Mod>, i: nat,
                   log: seq<ModuleEntry>, log': seq<ModuleEntry>, n: nat, before: set<ModuleEntry>)
    requires Fixed(sorted, views, mods) && i < |sorted| && k < |table| && table[k..] == sorted[i..]
    requires StartedUpTo(table[..k], sorted, Flags(sorted), views, mods, i)
    requires |log| >= n && LoggedUpTo(log[n..], sorted, views, mods, i) && StartedInOrder(log, n, before)
    requires forall j :: 0 <= j < |sorted| ==> (sorted[j] in before <==> views[j].started)
    requires log' == if !Broken(mods, views[i]) && !views[i].started then log + [sorted[i]] else log
    ensures LoggedUpTo(log'[n..], sorted, views, mods, i + 1) && StartedInOrder(log', n, before)
  {
    var fine := !Broken(mods, views[i]);
    Distinct(sorted, views, mods);
    LoggedOneMore(log[n..], log'[n..], sorted, views, mods, i);
    if fine && !views[i].started {
      LogStep(table, k, sorted, views, mods, i, log[n..], before);
      OrderOneMore(log, n, sorted[i], before);
    }
  }

  // ------------------------------------------------- what the startup loop keeps

  /** What the sort leaves fixed: `views` are the sorted modules as they were before
      any was started. */
  ghost predicate Fixed(sorted: seq<ModuleEntry>, views: seq<Mod>, mods: set<Mod>) {
    && |sorted| == |views| && mods == ModSet(views) && UniqueInSet(mods)
    && UniqueNames(views) && SettledBefore(views, |views|)
    && forall j :: 0 <= j < |views| ==> views[j].key == Fold(sorted[j].name) && views[j].deps == sorted[j].deps
  }

  lemma FixedFacts(sorted: seq<ModuleEntry>, views: seq<Mod>, mods: set<Mod>)
    requires views == Views(sorted) && mods == ModSet(views)
    requires UniqueNames(views) && SettledBefore(views, |views|)
    ensures Fixed(sorted, views, mods)
  {
    forall m, r | m in mods && r in mods && m.key == r.key
      ensures m == r
    {
      var i :| 0 <= i < |views| && views[i] == m;
      var j :| 0 <= j < |views| && views[j] == r;
    }
  }

  function Flags(s: seq<ModuleEntry>): (r: seq<bool>)
    reads s
    ensures |r| == |s| && forall i :: 0 <= i < |s| ==> r[i] == s[i].started
  {
    seq(|s|, i requires 0 <= i < |s| reads s => s[i].started)
  }

  lemma OneFlag(flags: seq<bool>, flags': seq<bool>, i: nat, ok: bool)
    requires |flags'| == |flags| > i && flags'[i] == ok
    requires forall j :: 0 <= j < |flags| && j != i ==> flags'[j] == flags[j]
    ensures flags' == flags[i := ok]
  {
  }

  /** The first i modules have been tried; exactly the unbroken ones are kept and started. */
  ghost predicate StartedUpTo(kept: seq<ModuleEntry>, sorted: seq<ModuleEntry>, flags: seq<bool>, views: seq<Mod>,
                              mods: set<Mod>, i: nat)
  {
    && i <= |sorted| == |views| == |flags|
    && (forall j :: 0 <= j < i ==> (sorted[j] in kept <==> !Broken(mods, views[j])))
    && (forall j :: 0 <= j < i ==> flags[j] == !Broken(mods, views[j]))
    && (forall j :: i <= j < |sorted| ==> flags[j] == views[j].started)
    && (forall m :: m in kept ==> m in sorted[..i])
  }

  ghost predicate LoggedUpTo(log: seq<ModuleEntry>, sorted: seq<ModuleEntry>, views: seq<Mod>, mods: set<Mod>, i: nat) {
    && i <= |sorted| == |views|
    && (forall j :: 0 <= j < i ==> (sorted[j] in log <==> !views[j].started && !Broken(mods, views[j])))
    && (forall m :: m in log ==> m in sorted[..i])
  }

  /** Of the first i modules those that nothing is missing for, in order. */
  ghost function Kept(sorted: seq<ModuleEntry>, views: seq<Mod>, mods: set<Mod>, i: nat): seq<ModuleEntry>
    requires i <= |sorted| == |views|
  {
    if i == 0 then []
    else if Broken(mods, views[i - 1]) then Kept(sorted, views, mods, i - 1)
    else Kept(sorted, views, mods, i - 1) + [sorted[i - 1]]
  }

  /** Of the first i modules those whose startup is called, in order. */
  ghost function Called(sorted: seq<ModuleEntry>, views: seq<Mod>, mods: set<Mod>, i: nat): seq<ModuleEntry>
    requires i <= |sorted| == |views|
  {
    if i == 0 then []
    else if Broken(mods, views[i - 1]) || views[i - 1].started then Called(sorted, views, mods, i - 1)
    else Called(sorted, views, mods, i - 1) + [sorted[i - 1]]
  }

  /** The modules of s that are not in `before`, in order. */
  ghost function Without(s: seq<ModuleEntry>, before: set<ModuleEntry>): seq<ModuleEntry> {
    if s == [] then []
    else if s[|s| - 1] in before then Without(s[..|s| - 1], before)
    else Without(s[..|s| - 1], before) + [s[|s| - 1]]
  }

  lemma WithoutLast(s: seq<ModuleEntry>, m: ModuleEntry, before: set<ModuleEntry>)
    ensures Without(s + [m], before) == Without(s, before) + if m in before then [] else [m]
  {
    assert (s + [m])[..|s|] == s;
  }

  /** The startups called are those of the modules kept that were not started before. */
  lemma {:induction false} CalledIsKept(sorted: seq<ModuleEntry>, views: seq<Mod>, mods: set<Mod>,
                                        before: set<ModuleEntry>, i: nat)
    requires i <= |sorted| == |views| && forall j :: 0 <= j < |sorted| ==> (sorted[j] in before <==> views[j].started)
    ensures Called(sorted, views, mods, i) == Without(Kept(sorted, views, mods, i), before)
  {
    if i > 0 {
      CalledIsKept(sorted, views, mods, before, i - 1);
      WithoutLast(Kept(sorted, views, mods, i - 1), sorted[i - 1], before);
    }
  }

  ghost predicate EachOnce(s: seq<ModuleEntry>) {
    forall i, j :: 0 <= i < j < |s| ==> s[i] != s[j]
  }

  /** No startup is called twice. */
  lemma {:induction false} CalledOnce(sorted: seq<ModuleEntry>, views: seq<Mod>, mods: set<Mod>, i: nat)
    requires i <= |sorted| == |views| && EachOnce(sorted)
    ensures EachOnce(Called(sorted, views, mods, i))
    ensures forall m :: m in Called(sorted, views, mods, i) ==> m in sorted[..i]
  {
    if i > 0 {
      CalledOnce(sorted, views, mods, i - 1);
      assert sorted[..i] == sorted[..i - 1] + [sorted[i - 1]];
      NotYetKept(Called(sorted, views, mods, i - 1), sorted, i - 1);
    }
  }

  lemma TryOneMore(sorted: seq<ModuleEntry>, views: seq<Mod>, mods: set<Mod>, i: nat, log: seq<ModuleEntry>, n: nat)
    requires i < |sorted| == |views| && |log| >= n && log[n..] == Called(sorted, views, mods, i)
    ensures Kept(sorted, views, mods, i + 1)
         == if Broken(mods, views[i]) then Kept(sorted, views, mods, i) else Kept(sorted, views, mods, i) + [sorted[i]]
    ensures (if !Broken(mods, views[i]) && !views[i].started then log + [sorted[i]] else log)[n..]
         == Called(sorted, views, mods, i + 1)
  {
  }

  /** The requirement check at position i, as `StartupModule` makes it. */
  ghost predicate Startable(table: seq<ModuleEntry>, m: ModuleEntry)
    reads table, m
  {
    m.started || forall d :: d in m.deps && d.kind.Required? ==>
      exists r :: r in table && Fold(r.name) == Fold(d.name) && (r == m || r.started)
  }

  lemma StartedOneMore(kept: seq<ModuleEntry>, kept': seq<ModuleEntry>, sorted: seq<ModuleEntry>, flags: seq<bool>,
                       views: seq<Mod>, mods: set<Mod>, i: nat)
    requires Fixed(sorted, views, mods) && i < |sorted| && StartedUpTo(kept, sorted, flags, views, mods, i)
    requires kept' == if Broken(mods, views[i]) then kept else kept + [sorted[i]]
    ensures StartedUpTo(kept', sorted, flags[i := !Broken(mods, views[i])], views, mods, i + 1)
  {
    Distinct(sorted, views, mods);
    assert sorted[..i + 1] == sorted[..i] + [sorted[i]];
    NotYetKept(kept, sorted, i);
    forall j | 0 <= j <= i
      ensures sorted[j] in kept' <==> !Broken(mods, views[j])
    {
      if j < i { assert sorted[j] != sorted[i]; }
    }
  }

  lemma NotYetKept(kept: seq<ModuleEntry>, sorted: seq<ModuleEntry>, i: nat)
    requires i < |sorted| && (forall m :: m in kept ==> m in sorted[..i])
    requires EachOnce(sorted)
    ensures sorted[i] !in kept
  {
    assert sorted[i] !in sorted[..i];
  }

  lemma LoggedOneMore(log: seq<ModuleEntry>, log': seq<ModuleEntry>, sorted: seq<ModuleEntry>, views: seq<Mod>,
                      mods: set<Mod>, i: nat)
    requires i < |sorted| == |views| && LoggedUpTo(log, sorted, views, mods, i)
    requires EachOnce(sorted)
    requires log' == if !Broken(mods, views[i]) && !views[i].started then log + [sorted[i]] else log
    ensures LoggedUpTo(log', sorted, views, mods, i + 1)
  {
    assert sorted[..i + 1] == sorted[..i] + [sorted[i]];
    NotYetKept(log, sorted, i);
    forall j | 0 <= j <= i
      ensures sorted[j] in log' <==> !views[j].started && !Broken(mods, views[j])
    {
      if j < i { assert sorted[j] != sorted[i]; }
    }
  }

  lemma Distinct(sorted: seq<ModuleEntry>, views: seq<Mod>, mods: set<Mod>)
    requires Fixed(sorted, views, mods)
    ensures EachOnce(sorted)
  {
    forall i, j | 0 <= i < j < |sorted|
      ensures sorted[i] != sorted[j]
    {
      assert views[i].key != views[j].key;
    }
  }

  lemma OneOfEachName(table: seq<ModuleEntry>, sorted: seq<ModuleEntry>, views: seq<Mod>, mods: set<Mod>)
    requires Fixed(sorted, views, mods) && forall m :: m in table ==> m in sorted
    ensures OnePerName(table)
    ensures EachOnce(sorted)
  {
    Distinct(sorted, views, mods);
    forall m, r | m in table && r in table && Fold(m.name) == Fold(r.name)
      ensures m == r
    {
      var i :| 0 <= i < |sorted| && sorted[i] == m;
      var j :| 0 <= j < |sorted| && sorted[j] == r;
      assert views[i].key == views[j].key;
    }
  }

  /** What a module about to be started requires was started before it. */
  lemma LogStep(table: seq<ModuleEntry>, k: nat, sorted: seq<ModuleEntry>, views: seq<Mod>, mods: set<Mod>, i: nat,
                calls: seq<ModuleEntry>, before: set<ModuleEntry>)
    requires Fixed(sorted, views, mods) && i < |sorted| && k <= |table| && table[k..] == sorted[i..]
    requires StartedUpTo(table[..k], sorted, Flags(sorted), views, mods, i) && LoggedUpTo(calls, sorted, views, mods, i)
    requires forall j :: 0 <= j < |sorted| ==> (sorted[j] in before <==> views[j].started)
    requires !views[i].started && !Broken(mods, views[i])
    ensures forall d :: d in sorted[i].deps && d.kind.Required? && Fold(d.name) != Fold(sorted[i].name) ==>
      exists r :: r in before + Members(calls) && Fold(r.name) == Fold(d.name)
  {
    forall d | d in sorted[i].deps && d.kind.Required? && Fold(d.name) != Fold(sorted[i].name)
      ensures exists r :: r in before + Members(calls) && Fold(r.name) == Fold(d.name)
    {
      UnbrokenStarts(table, k, sorted, views, mods, i, d);
      InTable(table, k, sorted, views, mods, i);
      var r :| r in table && Fold(r.name) == Fold(d.name) && (r == sorted[i] || r.started);
      var j :| 0 <= j < |sorted| && sorted[j] == r;
      assert Requires(views[i], views[j].key);
      RequiredComesFirst(views, i, j);
      assert r in before + Members(calls);
    }
  }

  lemma OrderOneMore(log: seq<ModuleEntry>, n: nat, m: ModuleEntry, before: set<ModuleEntry>)
    requires |log| >= n && StartedInOrder(log, n, before)
    requires forall d :: d in m.deps && d.kind.Required? && Fold(d.name) != Fold(m.name) ==>
      exists r :: r in before + Members(log[n..]) && Fold(r.name) == Fold(d.name)
    ensures StartedInOrder(log + [m], n, before)
  {
    var log' := log + [m];
    forall i, d | n <= i < |log'| && d in log'[i].deps && d.kind.Required? && Fold(d.name) != Fold(log'[i].name)
      ensures exists r :: r in before + Members(log'[n..i]) && Fold(r.name) == Fold(d.name)
    {
      if i < |log| {
        assert log'[n..i] == log[n..i];
      } else {
        assert log'[n..i] == log[n..];
      }
    }
  }

  function IndexOf(s: seq<ModuleEntry>, m: ModuleEntry): (i: nat)
    requires m in s
    ensures i < |s| && s[i] == m
  {
    if s[0] == m then 0 else 1 + IndexOf(s[1..], m)
  }

  /** The loop's invariants at the end, module by module. */
  lemma Outcome(table: seq<ModuleEntry>, calls: seq<ModuleEntry>, sorted: seq<ModuleEntry>, views: seq<Mod>,
                mods: set<Mod>)
    requires Fixed(sorted, views, mods)
    requires StartedUpTo(table, sorted, Flags(sorted), views, mods, |sorted|)
      && LoggedUpTo(calls, sorted, views, mods, |sorted|)
    ensures forall m :: m in sorted ==> (m in table <==> !Broken(mods, views[IndexOf(sorted, m)]))
    ensures forall m :: m in sorted ==> m.started == (m in table)
    ensures forall m :: m in sorted ==> (m in calls <==> m in table && !views[IndexOf(sorted, m)].started)
    ensures forall m :: m in table ==> m in sorted
  {
    assert sorted[..|sorted|] == sorted;
  }

  /** A registered module some earlier position holds is in the table exactly if kept. */
  lemma InTable(table: seq<ModuleEntry>, k: nat, sorted: seq<ModuleEntry>, views: seq<Mod>, mods: set<Mod>, i: nat)
    requires Fixed(sorted, views, mods) && i < |sorted| && k <= |table| && table[k..] == sorted[i..]
    requires StartedUpTo(table[..k], sorted, Flags(sorted), views, mods, i)
    ensures forall j :: i <= j < |sorted| ==> sorted[j] in table
    ensures forall j :: 0 <= j < i && !Broken(mods, views[j]) ==> sorted[j] in table
    ensures forall r :: r in table ==> r in sorted
  {
    assert table == table[..k] + sorted[i..];
    forall j | i <= j < |sorted|
      ensures sorted[j] in table
    {
      assert sorted[j] == table[k..][j - i];
    }
  }

  /** In a sorted registry a required module stands no later than what requires it. */
  lemma RequiredComesFirst(views: seq<Mod>, i: nat, j: nat)
    requires UniqueNames(views) && SettledBefore(views, |views|)
    requires i < |views| && j < |views| && Requires(views[i], views[j].key)
    ensures j <= i
  {
    assert j != i ==> Edge(views[i], views[j]);
  }

  /** A module with everything it needs passes the check. */
  lemma UnbrokenStarts(table: seq<ModuleEntry>, k: nat, sorted: seq<ModuleEntry>, views: seq<Mod>, mods: set<Mod>,
                       i: nat, d: Dep)
    requires Fixed(sorted, views, mods) && i < |sorted| && k <= |table| && table[k..] == sorted[i..]
    requires StartedUpTo(table[..k], sorted, Flags(sorted), views, mods, i)
    requires !views[i].started && !Broken(mods, views[i]) && d in sorted[i].deps && d.kind.Required?
    ensures exists r :: r in table && Fold(r.name) == Fold(d.name) && (r == sorted[i] || r.started)
  {
    InTable(table, k, sorted, views, mods, i);
    var m := views[i];
    assert Requires(m, Fold(d.name));
    if !Registered(mods, Fold(d.name)) { BrokenByMissing(mods, m, Fold(d.name)); }
    var v :| v in mods && v.key == Fold(d.name);
    var j :| 0 <= j < |views| && views[j] == v;
    RequiredComesFirst(views, i, j);
    if j < i && Broken(mods, v) { BrokenByRequired(mods, m, v); }
    assert sorted[j] in table;
  }

  /** A module with something missing fails the check. */
  lemma BrokenFails(table: seq<ModuleEntry>, k: nat, sorted: seq<ModuleEntry>, views: seq<Mod>, mods: set<Mod>, i: nat)
    requires Fixed(sorted, views, mods) && i < |sorted| && k <= |table| && table[k..] == sorted[i..]
    requires StartedUpTo(table[..k], sorted, Flags(sorted), views, mods, i) && Broken(mods, views[i])
    ensures !Startable(table, sorted[i])
  {
    InTable(table, k, sorted, views, mods, i);
    var key := BrokenMeans(mods, views[i]);
    var d :| d in views[i].deps && d.kind.Required? && Fold(d.name) == key;
    forall r | r in table && Fold(r.name) == key
      ensures r != sorted[i] && !r.started
    {
      var j :| 0 <= j < |sorted| && sorted[j] == r;
      assert views[j] in mods && views[j].key == key;
      RequiredComesFirst(views, i, j);
    }
  }

  /** The check passes exactly for the modules nothing is missing for. */
  lemma Decision(table: seq<ModuleEntry>, k: nat, sorted: seq<ModuleEntry>, views: seq<Mod>, mods: set<Mod>, i: nat)
    requires Fixed(sorted, views, mods) && i < |sorted| && k <= |table| && table[k..] == sorted[i..]
    requires StartedUpTo(table[..k], sorted, Flags(sorted), views, mods, i)
    ensures Startable(table, sorted[i]) <==> !Broken(mods, views[i])
  {
    assert sorted[i].started == views[i].started;
    if Broken(mods, views[i]) {
      BrokenFails(table, k, sorted, views, mods, i);
    } else if !views[i].started {
      forall d | d in sorted[i].deps && d.kind.Required?
        ensures exists r :: r in table && Fold(r.name) == Fold(d.name) && (r == sorted[i] || r.started)
      {
        UnbrokenStarts(table, k, sorted, views, mods, i, d);
      }
    }
  }

  function Members(s: seq<ModuleEntry>): set<ModuleEntry> {
    set x | x in s
  }

  /** Each module logged from n on was started after all it requires: those were started
      before this startup, or stand earlier in the log. */
  ghost predicate StartedInOrder(log: seq<ModuleEntry>, n: nat, before: set<ModuleEntry>) {
    forall i, d :: n <= i < |log| && d in log[i].deps && d.kind.Required? && Fold(d.name) != Fold(log[i].name) ==>
      exists r :: r in before + Members(log[n..i]) && Fold(r.name) == Fold(d.name)
  }

  lemma SameMembers<T>(s: seq<T>, t: seq<T>)
    requires multiset(s) == multiset(t)
    ensures forall x :: x in s <==> x in t
  {
    forall x
      ensures x in s <==> x in t
    {
      assert x in multiset(s) <==> x in multiset(t);
    }
  }

  lemma NotRequirable(table: seq<ModuleEntry>, m: ModuleEntry, d: Dep, found: Option<ModuleEntry>)
    requires OnePerName(table) && d in m.deps
    requires found.None? ==> forall r :: r in table ==> Fold(r.name) != Fold(d.name)
    requires found.Some? ==> found.value in table && Fold(found.value.name) == Fold(d.name)
    requires found.Some? ==> found.value != m && !found.value.started
    ensures !exists r :: r in table && Fold(r.name) == Fold(d.name) && (r == m || r.started)
  {
    forall r | r in table && Fold(r.name) == Fold(d.name)
      ensures r == found.value
    {
    }
  }

  ghost predicate OnePerName(table: seq<ModuleEntry>) {
    forall m, r {:trigger Fold(m.name), Fold(r.name)} ::
      m in table && r in table && Fold(m.name) == Fold(r.name) ==> m == r
  }
}
