/** Which modules survive startup: a statement about the set of registered modules
    alone, whatever order they were registered in. */
module ModuleKept {
  import opened ModuleGraph
  import opened ModuleNames

  /** An unstarted module requires the name `key`. */
  ghost predicate Requires(m: Mod, key: string) {
    !m.started && exists d :: d in m.deps && d.kind.Required? && Fold(d.name) == key
  }

  ghost predicate Registered(mods: set<Mod>, key: string) {
    exists r :: r in mods && r.key == key
  }

  /** A chain of requirements through registered modules that ends in a name. */
  ghost predicate Chain(mods: set<Mod>, path: seq<Mod>, key: string) {
    && path != []
    && (forall i :: 0 <= i < |path| ==> path[i] in mods)
    && (forall i :: 0 <= i < |path| - 1 ==> Requires(path[i], path[i + 1].key))
    && Requires(path[|path| - 1], key)
  }

  /** Something m requires, over any number of steps, is not registered. */
  ghost predicate Broken(mods: set<Mod>, m: Mod) {
    exists path, key :: Chain(mods, path, key) && path[0] == m && !Registered(mods, key)
  }

  ghost predicate UniqueInSet(mods: set<Mod>) {
    forall m, r {:trigger m.key, r.key} :: m in mods && r in mods && m.key == r.key ==> m == r
  }

  lemma BrokenByMissing(mods: set<Mod>, m: Mod, key: string)
    requires m in mods && Requires(m, key) && !Registered(mods, key)
    ensures Broken(mods, m)
  {
    assert Chain(mods, [m], key);
  }

  lemma BrokenByRequired(mods: set<Mod>, m: Mod, r: Mod)
    requires m in mods && r in mods && Requires(m, r.key) && Broken(mods, r)
    ensures Broken(mods, m)
  {
    var path, key :| Chain(mods, path, key) && path[0] == r && !Registered(mods, key);
    assert Chain(mods, [m] + path, key);
  }

  /** A broken module directly requires a name that is missing or another that is broken. */
  lemma BrokenMeans(mods: set<Mod>, m: Mod) returns (key: string)
    requires UniqueInSet(mods) && Broken(mods, m)
    ensures m in mods && Requires(m, key)
    ensures forall r :: r in mods && r.key == key ==> r != m && Broken(mods, r)
  {
    var path, end :| Chain(mods, path, end) && path[0] == m && !Registered(mods, end);
    key := BrokenPath(mods, path, end);
  }

  lemma {:induction false} BrokenPath(mods: set<Mod>, path: seq<Mod>, end: string) returns (key: string)
    requires UniqueInSet(mods) && Chain(mods, path, end) && !Registered(mods, end)
    ensures Requires(path[0], key)
    ensures forall r :: r in mods && r.key == key ==> r != path[0] && Broken(mods, r)
    decreases |path|
  {
    if |path| == 1 {
      key := end;
    } else {
      assert Chain(mods, path[1..], end);
      if path[1] == path[0] {
        key := BrokenPath(mods, path[1..], end);
      } else {
        key := path[1].key;
        assert Broken(mods, path[1]);
      }
    }
  }

  /** A registered module is broken exactly if it directly requires a name that no module
      has, or that only another, broken module has. */
  lemma BrokenIff(mods: set<Mod>, m: Mod)
    requires UniqueInSet(mods) && m in mods
    ensures Broken(mods, m) <==>
      exists key :: Requires(m, key) && forall r :: r in mods && r.key == key ==> r != m && Broken(mods, r)
  {
    if Broken(mods, m) {
      var key := BrokenMeans(mods, m);
    }
    if key :| Requires(m, key) && forall r :: r in mods && r.key == key ==> r != m && Broken(mods, r) {
      if Registered(mods, key) {
        var r :| r in mods && r.key == key;
        BrokenByRequired(mods, m, r);
      } else {
        BrokenByMissing(mods, m, key);
      }
    }
  }
}
