/** Module dependencies as a graph, the step machine of `zend_sort_modules`, and when
    it comes to an end. */
module ModuleGraph {
  import opened ModuleNames
  import opened Options

  datatype DepType = Required | Optional | Conflicts
  datatype Dep = Dep(name: string, kind: DepType)

  /** What sorting and startup see of a module: its lower-cased name, what it depends
      on, and whether it is started. */
  datatype Mod = Mod(key: string, deps: seq<Dep>, started: bool)

  ghost predicate UniqueNames(s: seq<Mod>) {
    forall i, j {:trigger s[i].key, s[j].key} :: 0 <= i < j < |s| ==> s[i].key != s[j].key
  }

  /** m is unstarted and requires, or optionally depends on, another module r. */
  ghost predicate Edge(m: Mod, r: Mod) {
    && !m.started && m.key != r.key
    && exists d :: d in m.deps && !d.kind.Conflicts? && Fold(d.name) == r.key
  }

  // ------------------------------------------------------------------- cycles

  ghost predicate Path(mods: set<Mod>, path: seq<Mod>) {
    && |path| >= 2
    && (forall i :: 0 <= i < |path| ==> path[i] in mods)
    && (forall i :: 0 <= i < |path| - 1 ==> Edge(path[i], path[i + 1]))
  }

  ghost predicate Reaches(mods: set<Mod>, m: Mod, r: Mod) {
    exists path :: Path(mods, path) && path[0] == m && path[|path| - 1] == r
  }

  /** No registered module depends, over any number of steps, on itself. */
  ghost predicate Acyclic(mods: set<Mod>) {
    forall m :: m in mods ==> !Reaches(mods, m, m)
  }

  lemma EdgeReaches(mods: set<Mod>, m: Mod, r: Mod)
    requires m in mods && r in mods && Edge(m, r)
    ensures Reaches(mods, m, r)
  {
    assert Path(mods, [m, r]);
  }

  lemma ReachesTransitive(mods: set<Mod>, m: Mod, r: Mod, q: Mod)
    requires Reaches(mods, m, r) && Reaches(mods, r, q)
    ensures Reaches(mods, m, q)
  {
    var a :| Path(mods, a) && a[0] == m && a[|a| - 1] == r;
    var b :| Path(mods, b) && b[0] == r && b[|b| - 1] == q;
    assert Path(mods, a + b[1..]);
  }

  /** How many modules m depends on, directly or not. */
  ghost function Rank(mods: set<Mod>, m: Mod): nat {
    |set x | x in mods && Reaches(mods, m, x)|
  }

  /** Following a dependency leads to a module with fewer dependencies. */
  lemma EdgeLowersRank(mods: set<Mod>, m: Mod, r: Mod)
    requires Acyclic(mods) && m in mods && r in mods && Edge(m, r)
    ensures Rank(mods, r) < Rank(mods, m)
  {
    var below := set x | x in mods && Reaches(mods, r, x);
    var above := set x | x in mods && Reaches(mods, m, x);
    EdgeReaches(mods, m, r);
    forall x | x in below
      ensures x in above
    {
      ReachesTransitive(mods, m, r, x);
    }
    assert r in above && r !in below;
    SmallerSubset(below, above);
  }

  lemma SmallerSubset<T>(a: set<T>, b: set<T>)
    requires a < b
    ensures |a| < |b|
  {
    assert b == a + (b - a);
    assert a !! (b - a);
    assert b - a != {};
  }

  // ---------------------------------------------------------------- the sort

  /** The position, after p, of the module the sort swaps to p: that of the first
      dependency in m's list that is registered there. */
  function FirstLater(s: seq<Mod>, p: nat, d: nat): Option<nat>
    requires p < |s|
    decreases |s[p].deps| - d
  {
    if d >= |s[p].deps| then None
    else
      var found := if s[p].deps[d].kind.Conflicts? then None else Position(s, p + 1, Fold(s[p].deps[d].name));
      if found.Some? then found else FirstLater(s, p, d + 1)
  }

  function Position(s: seq<Mod>, from: nat, key: string): (r: Option<nat>)
    ensures r.Some? ==> from <= r.value < |s| && s[r.value].key == key
    ensures r.None? ==> forall i :: from <= i < |s| ==> s[i].key != key
    decreases |s| - from
  {
    if from >= |s| then None
    else if s[from].key == key then Some(from)
    else Position(s, from + 1, key)
  }

  function SwapTarget(s: seq<Mod>, p: nat): Option<nat>
    requires p < |s|
  {
    if s[p].started then None else FirstLater(s, p, 0)
  }

  lemma {:induction false} FirstLaterMeans(s: seq<Mod>, p: nat, d: nat)
    requires p < |s| && UniqueNames(s) && !s[p].started
    ensures var r := FirstLater(s, p, d);
      && (r.Some? ==> p < r.value < |s| && Edge(s[p], s[r.value]))
      && (r.None? ==> forall q, e :: p < q < |s| && d <= e < |s[p].deps| && !s[p].deps[e].kind.Conflicts? ==>
            Fold(s[p].deps[e].name) != s[q].key)
    decreases |s[p].deps| - d
  {
    if d < |s[p].deps| {
      FirstLaterMeans(s, p, d + 1);
      assert s[p].deps[d] in s[p].deps;
    }
  }

  /** No later module is the d-th dependency of s[p]; a conflict is none. */
  ghost predicate NotLater(s: seq<Mod>, p: nat, d: nat)
    requires p < |s| && d < |s[p].deps|
  {
    s[p].deps[d].kind.Conflicts? || forall q :: p < q < |s| ==> s[q].key != Fold(s[p].deps[d].name)
  }

  /** The module swapped is the first of the dependencies, in the order in which they are
      declared, that is registered later. */
  lemma {:induction false} FirstLaterIsFirst(s: seq<Mod>, p: nat, d: nat) returns (e: nat)
    requires p < |s| && d <= |s[p].deps|
    ensures d <= e <= |s[p].deps| && forall f :: d <= f < e ==> NotLater(s, p, f)
    ensures FirstLater(s, p, d).None? ==> e == |s[p].deps|
    ensures FirstLater(s, p, d).Some? ==>
      && e < |s[p].deps| && !s[p].deps[e].kind.Conflicts?
      && p < FirstLater(s, p, d).value < |s| && s[FirstLater(s, p, d).value].key == Fold(s[p].deps[e].name)
    decreases |s[p].deps| - d
  {
    e := d;
    if d < |s[p].deps| && NotLater(s, p, d) {
      e := FirstLaterIsFirst(s, p, d + 1);
    }
  }

  /** The sort swaps exactly when a later module is one s[p] depends on; never when s[p] is
      started. */
  lemma SwapTargetMeans(s: seq<Mod>, p: nat)
    requires p < |s| && UniqueNames(s)
    ensures s[p].started ==> SwapTarget(s, p).None?
    ensures var r := SwapTarget(s, p);
      && (r.Some? ==> p < r.value < |s| && Edge(s[p], s[r.value]))
      && (r.None? ==> forall q :: p < q < |s| ==> !Edge(s[p], s[q]))
  {
    if !s[p].started {
      FirstLaterMeans(s, p, 0);
      if SwapTarget(s, p).None? {
        forall q | p < q < |s|
          ensures !Edge(s[p], s[q])
        {
          forall d | d in s[p].deps && !d.kind.Conflicts?
            ensures Fold(d.name) != s[q].key
          {
            var e :| 0 <= e < |s[p].deps| && s[p].deps[e] == d;
          }
        }
      }
    }
  }

  function Swap<T>(s: seq<T>, p: nat, q: nat): seq<T>
    requires p < q < |s|
  {
    s[p := s[q]][q := s[p]]
  }

  /** A moment of the sort: everything before p is settled. */
  datatype Sorting = Sorting(s: seq<Mod>, p: nat)

  function Step(st: Sorting): (r: Sorting)
    requires st.p < |st.s|
    ensures |r.s| == |st.s|
  {
    var target := SwapTarget(st.s, st.p);
    if target.Some? && st.p < target.value < |st.s| then Sorting(Swap(st.s, st.p, target.value), st.p)
    else Sorting(st.s, st.p + 1)
  }

  function Steps(st: Sorting, n: nat): (r: Sorting)
    ensures |r.s| == |st.s|
    decreases n
  {
    if n == 0 || st.p >= |st.s| then st else Steps(Step(st), n - 1)
  }

  function ModSet(s: seq<Mod>): set<Mod> {
    set m | m in s
  }

  /** No unstarted module before p precedes a module it depends on. */
  ghost predicate SettledBefore(s: seq<Mod>, p: nat) {
    forall i, j {:trigger Edge(s[i], s[j])} :: 0 <= i < p && i < j < |s| ==> !Edge(s[i], s[j])
  }

  lemma SwapKeeps(s: seq<Mod>, p: nat, q: nat)
    requires p < q < |s| && UniqueNames(s) && SettledBefore(s, p)
    ensures var r := Swap(s, p, q);
      && UniqueNames(r) && SettledBefore(r, p) && multiset(r) == multiset(s) && ModSet(r) == ModSet(s)
  {
    SwapKeepsNames(s, p, q);
    SwapKeepsSettled(s, p, q);
    SwapKeepsMembers(s, p, q);
  }

  lemma SwapKeepsNames(s: seq<Mod>, p: nat, q: nat)
    requires p < q < |s| && UniqueNames(s)
    ensures UniqueNames(Swap(s, p, q))
  {
    var r := Swap(s, p, q);
    forall i, j | 0 <= i < j < |r|
      ensures r[i].key != r[j].key
    {
      assert s[p].key != s[q].key;
      if i != p && i != q { assert s[i].key != s[p].key && s[i].key != s[q].key; }
      if j != p && j != q { assert s[j].key != s[p].key && s[j].key != s[q].key; }
    }
  }

  lemma SwapKeepsSettled(s: seq<Mod>, p: nat, q: nat)
    requires p < q < |s| && SettledBefore(s, p)
    ensures SettledBefore(Swap(s, p, q), p)
  {
    var r := Swap(s, p, q);
    forall i, j | 0 <= i < p && i < j < |s|
      ensures !Edge(r[i], r[j])
    {
      assert !Edge(s[i], s[if j == p then q else if j == q then p else j]);
    }
  }

  lemma SwapKeepsMembers(s: seq<Mod>, p: nat, q: nat)
    requires p < q < |s|
    ensures multiset(Swap(s, p, q)) == multiset(s) && ModSet(Swap(s, p, q)) == ModSet(s)
  {
    var r := Swap(s, p, q);
    forall m
      ensures m in r <==> m in s
    {
      assert m in multiset(r) <==> m in multiset(s);
    }
  }

  ghost predicate SortingOk(st: Sorting) {
    st.p <= |st.s| && UniqueNames(st.s) && SettledBefore(st.s, st.p)
  }

  lemma StepOk(st: Sorting)
    requires SortingOk(st) && st.p < |st.s|
    ensures SortingOk(Step(st)) && multiset(Step(st).s) == multiset(st.s) && ModSet(Step(st).s) == ModSet(st.s)
    ensures Acyclic(ModSet(st.s)) ==>
      Step(st).p > st.p || (Step(st).p == st.p && Rank(ModSet(st.s), Step(st).s[st.p]) < Rank(ModSet(st.s), st.s[st.p]))
  {
    SwapTargetMeans(st.s, st.p);
    var target := SwapTarget(st.s, st.p);
    if target.Some? {
      SwapKeeps(st.s, st.p, target.value);
      if Acyclic(ModSet(st.s)) {
        EdgeLowersRank(ModSet(st.s), st.s[st.p], st.s[target.value]);
      }
    }
  }

  // -------------------------------------------------------- when the sort ends

  lemma StepDescends(st: Sorting)
    requires SortingOk(st) && Acyclic(ModSet(st.s)) && st.p < |st.s|
    ensures SortingOk(Step(st)) && Acyclic(ModSet(Step(st).s)) && multiset(Step(st).s) == multiset(st.s)
    ensures Step(st).p > st.p ||
      (Step(st).p == st.p && RankAt(ModSet(Step(st).s), Step(st)) < RankAt(ModSet(st.s), st))
  {
    StepOk(st);
  }

  lemma StepFirst(st: Sorting, n: nat)
    requires st.p < |st.s|
    ensures Steps(st, n + 1) == Steps(Step(st), n)
  {
  }

  /** Without a cycle the sort reaches the end: each retry moves to a lower rank. */
  lemma {:induction false} AcyclicEnds(st: Sorting) returns (n: nat)
    requires SortingOk(st) && Acyclic(ModSet(st.s))
    ensures Steps(st, n).p == |st.s| && SortingOk(Steps(st, n)) && multiset(Steps(st, n).s) == multiset(st.s)
    decreases |st.s| - st.p, RankAt(ModSet(st.s), st)
  {
    if st.p == |st.s| {
      n := 0;
    } else {
      StepDescends(st);
      n := AcyclicEnds(Step(st));
      StepFirst(st, n);
      n := n + 1;
    }
  }

  /** The rank of the module at hand. */
  ghost function RankAt(mods: set<Mod>, st: Sorting): nat {
    if st.p < |st.s| then Rank(mods, st.s[st.p]) else 0
  }

  /** The modules of a cycle all stay at or after p. */
  ghost predicate CycleAhead(st: Sorting, cycle: seq<Mod>) {
    && st.p <= |st.s| && UniqueNames(st.s)
    && Path(ModSet(st.s), cycle) && cycle[0] == cycle[|cycle| - 1]
    && forall i :: 0 <= i < |cycle| ==> cycle[i] in st.s[st.p..]
  }

  lemma SwapKeepsAhead(s: seq<Mod>, p: nat, q: nat, m: Mod)
    requires p < q < |s| && m in s[p..]
    ensures m in Swap(s, p, q)[p..]
  {
    var r := Swap(s, p, q);
    var i :| p <= i < |s| && s[i] == m;
    var j := if i == p then q else if i == q then p else i;
    assert r[p..][j - p] == m;
  }

  /** The sort can pass no module of a cycle while the next one lies ahead. */
  lemma CycleStaysAhead(st: Sorting, cycle: seq<Mod>)
    requires CycleAhead(st, cycle) && SettledBefore(st.s, st.p) && st.p < |st.s|
    ensures CycleAhead(Step(st), cycle) && SettledBefore(Step(st).s, Step(st).p)
  {
    StepOk(st);
    SwapTargetMeans(st.s, st.p);
    var target := SwapTarget(st.s, st.p);
    forall i | 0 <= i < |cycle|
      ensures cycle[i] in Step(st).s[Step(st).p..]
    {
      if target.Some? {
        SwapKeepsAhead(st.s, st.p, target.value, cycle[i]);
      } else {
        NotPassed(st, cycle, i);
      }
    }
  }

  lemma NotPassed(st: Sorting, cycle: seq<Mod>, i: nat)
    requires CycleAhead(st, cycle) && i < |cycle| && st.p < |st.s|
    requires forall q :: st.p < q < |st.s| ==> !Edge(st.s[st.p], st.s[q])
    ensures cycle[i] in st.s[st.p + 1..]
  {
    var next := if i < |cycle| - 1 then i + 1 else 1;
    assert Edge(cycle[if i < |cycle| - 1 then i else 0], cycle[next]);
    assert Edge(cycle[i], cycle[next]);
    assert cycle[next] in st.s[st.p..] && cycle[i] in st.s[st.p..];
    var q :| st.p <= q < |st.s| && st.s[q] == cycle[next];
    var k :| st.p <= k < |st.s| && st.s[k] == cycle[i];
    assert k != st.p;
    assert st.s[st.p + 1..][k - st.p - 1] == cycle[i];
  }

  lemma {:induction false} CycleNeverEnds(st: Sorting, cycle: seq<Mod>, n: nat)
    requires CycleAhead(st, cycle) && SettledBefore(st.s, st.p)
    ensures Steps(st, n).p < |st.s|
    decreases n
  {
    assert cycle[0] in st.s[st.p..];
    if n > 0 {
      CycleStaysAhead(st, cycle);
      CycleNeverEnds(Step(st), cycle, n - 1);
    }
  }

  /** The sort of a registry ends exactly when its unstarted modules depend on each
      other without a cycle. */
  lemma SortEndsIffAcyclic(s: seq<Mod>)
    requires UniqueNames(s)
    ensures Acyclic(ModSet(s)) <==> exists n :: Steps(Sorting(s, 0), n).p == |s|
  {
    var st := Sorting(s, 0);
    if Acyclic(ModSet(s)) {
      var n := AcyclicEnds(st);
    } else {
      var m :| m in ModSet(s) && Reaches(ModSet(s), m, m);
      var cycle :| Path(ModSet(s), cycle) && cycle[0] == m && cycle[|cycle| - 1] == m;
      assert s[0..] == s;
      assert CycleAhead(st, cycle);
      forall n: nat
        ensures Steps(st, n).p != |s|
      {
        CycleNeverEnds(st, cycle, n);
      }
    }
  }

  /** Two modules that depend on each other are swapped for ever. */
  lemma TwoModuleCycle(m: Mod, r: Mod, n: nat)
    requires Edge(m, r) && Edge(r, m)
    ensures Steps(Sorting([m, r], 0), n).p < 2
  {
    var st, cycle := Sorting([m, r], 0), [m, r, m];
    assert [m, r][0] in ModSet([m, r]) && [m, r][1] in ModSet([m, r]);
    assert [m, r][0..] == [m, r];
    assert [m, r][0] in [m, r] && [m, r][1] in [m, r];
    assert CycleAhead(st, cycle);
    CycleNeverEnds(st, cycle, n);
  }

  lemma CycleExample(n: nat)
    ensures UniqueNames([MOD_A, MOD_B]) && Steps(Sorting([MOD_A, MOD_B], 0), n).p < 2
  {
    assert "a"[0] != "b"[0];
    FoldedNames();
    assert MOD_A.deps[0] in MOD_A.deps && MOD_B.deps[0] in MOD_B.deps;
    TwoModuleCycle(MOD_A, MOD_B, n);
  }

  const MOD_A := Mod("a", [Dep("b", Required)], false)
  const MOD_B := Mod("b", [Dep("A", Optional)], false)

  lemma FoldedNames()
    ensures Fold("b") == "b" && Fold("A") == "a"
  {
    assert "b"[..0] == "" && "A"[..0] == "";
  }
}
