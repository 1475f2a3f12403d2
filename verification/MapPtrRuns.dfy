/** Whole runs of the map_ptr table: which slots a caller can rely on, whatever else is
    called in between. */
module MapPtrRuns {
  import opened MapPtr

  datatype Call =
    | NewSlot
    | NewStaticSlot
    | Extend(last': nat)
    | Reset
    | EndStartup
    | Put(position: int, p: Ptr)

  /** What callers see of a table: nothing of the buffer and its size. */
  datatype Account = Account(last: nat, globalLast: nat, staticLast: nat, contents: map<int, Ptr>)

  const EMPTY := Account(0, 0, 0, map[])

  ghost function AccountOf(t: Table): Account
    reads t
  {
    Account(t.last, t.globalLast, t.staticLast, t.contents)
  }

  ghost function After(a: Account, c: Call): Account {
    match c
    case NewSlot => a.(last := a.last + 1, contents := a.contents[a.last as int := 0])
    case NewStaticSlot =>
      a.(staticLast := a.staticLast + 1, contents := a.contents[StaticPosition(a.staticLast) := 0])
    case Extend(last') =>
      if last' <= a.last then a
      else a.(last := last', contents := a.contents + Nulls(a.last, last'))
    case Reset =>
      a.(last := a.globalLast, contents := map r | r in a.contents && r < a.globalLast :: a.contents[r])
    case EndStartup => a.(globalLast := a.last)
    case Put(r, p) => if r in a.contents then a.(contents := a.contents[r := p]) else a
  }

  ghost function AfterAll(a: Account, calls: seq<Call>): Account {
    if calls == [] then a else After(AfterAll(a, calls[..|calls| - 1]), calls[|calls| - 1])
  }

  /** Make a call; one that writes to a slot which is not live is passed over. */
  method Make(t: Table, c: Call)
    requires t.Valid()
    modifies t, t.buffer
    ensures t.Valid() && (t.buffer == old(t.buffer) || fresh(t.buffer))
    ensures AccountOf(t) == After(old(AccountOf(t)), c)
  {
    match c
    case NewSlot => var offset := t.New();
    case NewStaticSlot => var offset := t.NewStatic();
    case Extend(last') => t.Extend(last');
    case Reset => t.Reset();
    case EndStartup => t.EndStartup();
    case Put(r, p) => PutIfLive(t, r, p);
  }

  method PutIfLive(t: Table, r: int, p: Ptr)
    requires t.Valid()
    modifies t`contents, t.buffer
    ensures t.Valid() && AccountOf(t) == After(old(AccountOf(t)), Put(r, p))
  {
    assert r in t.contents <==> t.Live(r);
    if 0 <= r < t.last || StaticTaken(t.staticLast, t.staticSize, r) {
      t.Put(OffsetOf(r), p);
    }
  }

  /** Any calls in any order. */
  method Run(calls: seq<Call>) returns (t: Table)
    ensures fresh(t) && fresh(t.buffer)
    ensures t.Valid() && AccountOf(t) == AfterAll(EMPTY, calls)
  {
    t := new Table();
    var i := 0;
    while i < |calls|
      invariant 0 <= i <= |calls| && fresh(t) && fresh(t.buffer)
      invariant t.Valid() && AccountOf(t) == AfterAll(EMPTY, calls[..i])
    {
      Make(t, calls[i]);
      assert calls[..i + 1][..i] == calls[..i];
      i := i + 1;
    }
    assert calls[..i] == calls;
  }

  // ------------------------------------------------------- what can be relied on

  ghost predicate Static(a: Account, r: int) {
    exists k: nat :: k < a.staticLast && StaticPosition(k) == r
  }

  /** Live are the request slots in use and the static slots, and no others. */
  ghost predicate Consistent(a: Account) {
    a.globalLast <= a.last && forall r :: r in a.contents <==> 0 <= r < a.last || Static(a, r)
  }

  lemma StaticInFront(a: Account, r: int)
    requires Static(a, r)
    ensures r < 0
  {
    var k: nat :| k < a.staticLast && StaticPosition(k) == r;
  }

  lemma NextStaticIsNew(a: Account)
    ensures !Static(a, StaticPosition(a.staticLast))
  {
    if k: nat :| k < a.staticLast && StaticPosition(k) == StaticPosition(a.staticLast) {
      StaticPositionsApart(k, a.staticLast);
    }
  }

  lemma ConsistentAfter(a: Account, c: Call)
    requires Consistent(a)
    ensures Consistent(After(a, c))
  {
    var a' := After(a, c);
    forall r ensures r in a'.contents <==> 0 <= r < a'.last || Static(a', r) {
      if Static(a, r) { StaticInFront(a, r); }
      if k: nat :| k < a.staticLast && StaticPosition(k) == r { assert k < a'.staticLast; }
      if c.NewStaticSlot? && r == StaticPosition(a.staticLast) { assert a.staticLast < a'.staticLast; }
      if k: nat :| k < a'.staticLast && StaticPosition(k) == r { assert k < a.staticLast || k == a.staticLast; }
    }
  }

  lemma {:induction false} ConsistentRun(a: Account, calls: seq<Call>)
    requires Consistent(a)
    ensures Consistent(AfterAll(a, calls))
  {
    if calls != [] {
      ConsistentRun(a, calls[..|calls| - 1]);
      ConsistentAfter(AfterAll(a, calls[..|calls| - 1]), calls[|calls| - 1]);
    }
  }

  /** Static slots and those below the global mark outlive every request. */
  ghost predicate Lasting(a: Account, r: int) {
    r in a.contents && r < a.globalLast
  }

  lemma CallKeeps(a: Account, c: Call, r: int)
    requires Consistent(a) && r in a.contents && (c.Put? ==> c.position != r) && (c.Reset? ==> r < a.globalLast)
    ensures r in After(a, c).contents && After(a, c).contents[r] == a.contents[r]
    ensures r < a.globalLast ==> r < After(a, c).globalLast
  {
    if Static(a, r) { StaticInFront(a, r); }
    NextStaticIsNew(a);
  }

  /** A slot holds what it held until it is written or, unless it is a lasting one, the
      request ends: whatever other slots are made, written or dropped in between, and
      however the buffer moves. */
  lemma {:induction false} RunKeeps(a: Account, calls: seq<Call>, r: int)
    requires Consistent(a) && r in a.contents
    requires forall i :: 0 <= i < |calls| && calls[i].Put? ==> calls[i].position != r
    requires Lasting(a, r) || Reset !in calls
    ensures r in AfterAll(a, calls).contents && AfterAll(a, calls).contents[r] == a.contents[r]
    ensures Lasting(a, r) ==> Lasting(AfterAll(a, calls), r)
  {
    if calls != [] {
      var rest, c := calls[..|calls| - 1], calls[|calls| - 1];
      assert c in calls && forall d :: d in rest ==> d in calls;
      RunKeeps(a, rest, r);
      ConsistentRun(a, rest);
      CallKeeps(AfterAll(a, rest), c, r);
    }
  }

  lemma {:induction false} AfterConcat(a: Account, first: seq<Call>, second: seq<Call>)
    ensures AfterAll(a, first + second) == AfterAll(AfterAll(a, first), second)
  {
    if second == [] {
      assert first + second == first;
    } else {
      AfterConcat(a, first, second[..|second| - 1]);
      assert (first + second)[..|first + second| - 1] == first + second[..|second| - 1];
    }
  }

  /** From the first call on: what was put last into a slot is what it holds. */
  lemma LastPutHolds(before: seq<Call>, r: int, p: Ptr, later: seq<Call>)
    requires r in AfterAll(EMPTY, before).contents
    requires forall i :: 0 <= i < |later| && later[i].Put? ==> later[i].position != r
    requires Lasting(AfterAll(EMPTY, before), r) || Reset !in later
    ensures r in AfterAll(EMPTY, before + [Put(r, p)] + later).contents
    ensures AfterAll(EMPTY, before + [Put(r, p)] + later).contents[r] == p
  {
    var written := before + [Put(r, p)];
    assert written[..|written| - 1] == before;
    ConsistentRun(EMPTY, written);
    RunKeeps(AfterAll(EMPTY, written), later, r);
    AfterConcat(EMPTY, written, later);
  }

  /** A slot that is not a lasting one is gone once the request ends. */
  lemma ResetDrops(before: seq<Call>, r: int)
    requires r in AfterAll(EMPTY, before).contents
    ensures r in AfterAll(EMPTY, before + [Reset]).contents <==> Lasting(AfterAll(EMPTY, before), r)
  {
    assert (before + [Reset])[..|before|] == before;
  }
}
