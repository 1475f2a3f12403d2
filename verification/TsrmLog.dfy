/** The life of thread-safe resources, as the record of what is done to every slot.

    A slot belongs to one thread entry, identified by its serial number, and one
    resource id. The lemmas say what each operation of the manager adds to the record. */
module TsrmLog {
  import opened Folded

  /** `fastOffset` is 0 for an ordinary resource; a fast one lives that far inside the
      entry's own block. */
  datatype ResourceType = ResourceType(size: nat, hasCtor: bool, hasDtor: bool, fastOffset: nat, done: bool)

  datatype Event =
    | Malloc(entry: nat, id: nat)
    | Ctor(entry: nat, id: nat)
    | Dtor(entry: nat, id: nat)
    | Free(entry: nat, id: nat)

  /** What happens when a slot is set up, and when it is torn down. */
  function Made(ty: ResourceType, s: nat, j: nat): seq<Event> {
    (if ty.fastOffset == 0 then [Malloc(s, j)] else []) + (if ty.hasCtor then [Ctor(s, j)] else [])
  }

  function Dropped(ty: ResourceType, s: nat, j: nat): seq<Event> {
    (if ty.hasDtor then [Dtor(s, j)] else []) + (if ty.fastOffset == 0 then [Free(s, j)] else [])
  }

  /** The part of a record that concerns one slot. */
  function About(log: seq<Event>, s: nat, j: nat): seq<Event> {
    if log == [] then []
    else (if log[0].entry == s && log[0].id == j then [log[0]] else []) + About(log[1..], s, j)
  }

  /** A slot's record: nothing, a set-up, or a set-up followed by a tear-down; it is a
      set-up alone exactly for the undone resources of the entries in the table. */
  ghost predicate SlotOk(log: seq<Event>, serials: set<nat>, next: nat, types: seq<ResourceType>, s: nat, j: nat) {
    if j >= |types| || s >= next then About(log, s, j) == []
    else if s in serials && !types[j].done then About(log, s, j) == Made(types[j], s, j)
    else About(log, s, j) == [] || About(log, s, j) == Made(types[j], s, j) + Dropped(types[j], s, j)
  }

  ghost predicate LogOk(log: seq<Event>, serials: set<nat>, next: nat, types: seq<ResourceType>) {
    && (forall s :: s in serials ==> s < next)
    && forall s: nat, j: nat :: SlotOk(log, serials, next, types, s, j)
  }

  lemma {:induction false} AboutConcat(a: seq<Event>, b: seq<Event>, s: nat, j: nat)
    ensures About(a + b, s, j) == About(a, s, j) + About(b, s, j)
  {
    if a == [] {
      assert a + b == b;
    } else {
      assert (a + b)[1..] == a[1..] + b;
      AboutConcat(a[1..], b, s, j);
    }
  }

  /** All events are about slot j of entry s. */
  ghost predicate Concerns(events: seq<Event>, s: nat, j: nat) {
    forall i :: 0 <= i < |events| ==> events[i].entry == s && events[i].id == j
  }

  lemma {:induction false} AboutOwn(events: seq<Event>, s: nat, j: nat, s': nat, j': nat)
    requires Concerns(events, s, j)
    ensures About(events, s', j') == if s == s' && j == j' then events else []
  {
    if events != [] { AboutOwn(events[1..], s, j, s', j'); }
  }

  /** The same for a resource that may be done, whose slots are left alone. */
  function MadeHere(ty: ResourceType, s: nat, j: nat): seq<Event> {
    if ty.done then [] else Made(ty, s, j)
  }

  function DroppedHere(ty: ResourceType, s: nat, j: nat): seq<Event> {
    if ty.done then [] else Dropped(ty, s, j)
  }

  /** One slot's events before others. */
  lemma AboutOwnFirst(events: seq<Event>, rest: seq<Event>, s: nat, j: nat, s': nat, j': nat)
    requires Concerns(events, s, j)
    ensures About(events + rest, s', j') == (if s == s' && j == j' then events else []) + About(rest, s', j')
  {
    AboutConcat(events, rest, s', j');
    AboutOwn(events, s, j, s', j');
  }

  /** One slot's events after others. */
  lemma AboutOwnLast(events: seq<Event>, rest: seq<Event>, s: nat, j: nat, s': nat, j': nat)
    requires Concerns(events, s, j)
    ensures About(rest + events, s', j') == About(rest, s', j') + (if s == s' && j == j' then events else [])
  {
    AboutConcat(rest, events, s', j');
    AboutOwn(events, s, j, s', j');
  }

  /** Slots 0 .. n - 1 of entry s one after the other; `f(j)` are the events of slot j. */
  function Ascending(f: nat -> seq<Event>, n: nat): seq<Event> {
    if n == 0 then [] else Ascending(f, n - 1) + f(n - 1)
  }

  function Descending(f: nat -> seq<Event>, n: nat): seq<Event> {
    if n == 0 then [] else f(n - 1) + Descending(f, n - 1)
  }

  lemma DescendingStep(log: seq<Event>, log': seq<Event>, f: nat -> seq<Event>, n: nat)
    requires log' == log + f(n)
    ensures log' + Descending(f, n) == log + Descending(f, n + 1)
  {
  }

  lemma {:induction false} AboutAscending(f: nat -> seq<Event>, n: nat, s: nat, s': nat, j: nat)
    requires forall k: nat :: Concerns(f(k), s, k)
    ensures About(Ascending(f, n), s', j) == if s == s' && j < n then f(j) else []
    decreases n
  {
    if n > 0 {
      AboutAscending(f, n - 1, s, s', j);
      AboutOwnLast(f(n - 1), Ascending(f, n - 1), s, n - 1, s', j);
    }
  }

  lemma {:induction false} AboutDescending(f: nat -> seq<Event>, n: nat, s: nat, s': nat, j: nat)
    requires forall k: nat :: Concerns(f(k), s, k)
    ensures About(Descending(f, n), s', j) == if s == s' && j < n then f(j) else []
    decreases n
  {
    if n > 0 {
      AboutDescending(f, n - 1, s, s', j);
      AboutOwnFirst(f(n - 1), Descending(f, n - 1), s, n - 1, s', j);
    }
  }

  lemma {:induction false} DescendingIds(f: nat -> seq<Event>, n: nat, s: nat)
    requires forall k: nat :: Concerns(f(k), s, k)
    ensures forall i :: 0 <= i < |Descending(f, n)| ==> Descending(f, n)[i].id < n
    ensures forall i, k :: 0 <= i < k < |Descending(f, n)| ==> Descending(f, n)[i].id >= Descending(f, n)[k].id
    decreases n
  {
    if n > 0 {
      DescendingIds(f, n - 1, s);
      assert Concerns(f(n - 1), s, n - 1);
    }
  }

  /** Slot j of the entries in `order`, one after the other; `f(s)` are the events of
      entry s. */
  function OverEntries(f: nat -> seq<Event>, order: seq<nat>): seq<Event> {
    if order == [] then [] else OverEntries(f, order[..|order| - 1]) + f(order[|order| - 1])
  }

  ghost predicate NoRepeats(order: seq<nat>) {
    forall i, k :: 0 <= i < k < |order| ==> order[i] != order[k]
  }

  lemma LastIsNew(order: seq<nat>, s: nat)
    requires order != [] && NoRepeats(order)
    ensures var rest, last := order[..|order| - 1], order[|order| - 1];
      NoRepeats(rest) && last !in rest && (s in order <==> s in rest || s == last)
  {
    assert order == order[..|order| - 1] + [order[|order| - 1]];
  }

  lemma {:induction false} AboutEntries(f: nat -> seq<Event>, order: seq<nat>, j: nat, s: nat, j': nat)
    requires NoRepeats(order) && forall r: nat :: Concerns(f(r), r, j)
    ensures About(OverEntries(f, order), s, j') == if s in order && j == j' then f(s) else []
    decreases |order|
  {
    if order != [] {
      var rest, last := order[..|order| - 1], order[|order| - 1];
      LastIsNew(order, s);
      AboutEntries(f, rest, j, s, j');
      assert Concerns(f(last), last, j);
      AboutOwnLast(f(last), OverEntries(f, rest), last, j, s, j');
    }
  }

  // ------------------------------------------------------------ a thread comes

  function MadeSlots(types: seq<ResourceType>, s: nat): nat -> seq<Event> {
    (j: nat) => if j < |types| then MadeHere(types[j], s, j) else []
  }

  /** Setting up the slots of a new entry for resources 0 .. n - 1. */
  function MadeUpTo(types: seq<ResourceType>, s: nat, n: nat): seq<Event> {
    Ascending(MadeSlots(types, s), n)
  }

  lemma MadeUpToStep(log: seq<Event>, types: seq<ResourceType>, s: nat, n: nat)
    requires n < |types|
    ensures log + MadeUpTo(types, s, n + 1) == log + MadeUpTo(types, s, n) + MadeHere(types[n], s, n)
  {
  }

  lemma MadeUpToNone(log: seq<Event>, types: seq<ResourceType>, s: nat)
    ensures log + MadeUpTo(types, s, 0) == log
  {
  }

  lemma {:induction false} AboutMadeUpTo(types: seq<ResourceType>, s: nat, s': nat, j: nat)
    ensures About(MadeUpTo(types, s, |types|), s', j)
         == if s == s' && j < |types| then MadeHere(types[j], s, j) else []
  {
    AboutAscending(MadeSlots(types, s), |types|, s, s', j);
  }

  lemma {:induction false} EntryMade(log: seq<Event>, serials: set<nat>, next: nat, types: seq<ResourceType>)
    requires LogOk(log, serials, next, types)
    ensures LogOk(log + Setup(types, next), serials + {next}, next + 1, types)
  {
    assert Inspected(0);
    var events, serials', next' := Setup(types, next), serials + {next}, next + 1;
    forall s: nat, j: nat
      ensures SlotOk(log + events, serials', next', types, s, j)
    {
      assert SlotOk(log, serials, next, types, s, j);
      AboutConcat(log, events, s, j);
      AboutMadeUpTo(types, next, s, j);
    }
  }

  // ------------------------------------------------------------ a thread goes

  function DroppedSlots(types: seq<ResourceType>, s: nat): nat -> seq<Event> {
    (j: nat) => if j < |types| then DroppedHere(types[j], s, j) else []
  }

  /** Tearing down the slots of an entry, from resource n - 1 down to 0. */
  function TornDown(types: seq<ResourceType>, s: nat, n: nat): seq<Event> {
    Descending(DroppedSlots(types, s), n)
  }

  lemma TornDownStep(log: seq<Event>, log': seq<Event>, types: seq<ResourceType>, s: nat, n: nat)
    requires n < |types| && log' == log + DroppedHere(types[n], s, n)
    ensures log' + TornDown(types, s, n) == log + TornDown(types, s, n + 1)
  {
    DescendingStep(log, log', DroppedSlots(types, s), n);
  }

  lemma TornDownNone(log: seq<Event>, types: seq<ResourceType>, s: nat)
    ensures log + TornDown(types, s, 0) == log
  {
  }

  lemma {:induction false} AboutTornDown(types: seq<ResourceType>, s: nat, s': nat, j: nat)
    ensures About(TornDown(types, s, |types|), s', j)
         == if s == s' && j < |types| then DroppedHere(types[j], s, j) else []
  {
    AboutDescending(DroppedSlots(types, s), |types|, s, s', j);
  }

  lemma {:induction false} EntryDropped(log: seq<Event>, serials: set<nat>, next: nat, types: seq<ResourceType>,
                                        s0: nat)
    requires LogOk(log, serials, next, types) && s0 in serials
    ensures LogOk(log + Teardown(types, s0), serials - {s0}, next, types)
  {
    assert Inspected(0);
    var events, serials' := Teardown(types, s0), serials - {s0};
    forall s: nat, j: nat
      ensures SlotOk(log + events, serials', next, types, s, j)
    {
      assert SlotOk(log, serials, next, types, s, j);
      AboutConcat(log, events, s, j);
      AboutTornDown(types, s0, s, j);
    }
  }

  // --------------------------------------------------------- a resource comes

  function MadeIn(ty: ResourceType, j: nat): nat -> seq<Event> {
    (s: nat) => Made(ty, s, j)
  }

  /** Setting up a new resource j in every entry, in table order. */
  function MadeForAll(ty: ResourceType, order: seq<nat>, j: nat): seq<Event> {
    OverEntries(MadeIn(ty, j), order)
  }

  lemma {:induction false} AboutMadeForAll(ty: ResourceType, order: seq<nat>, j: nat, s: nat, j': nat)
    requires NoRepeats(order)
    ensures About(MadeForAll(ty, order, j), s, j') == if s in order && j == j' then Made(ty, s, j) else []
  {
    AboutEntries(MadeIn(ty, j), order, j, s, j');
  }

  lemma {:induction false} TypeMade(log: seq<Event>, serials: set<nat>, next: nat, types: seq<ResourceType>,
                                    ty: ResourceType, order: seq<nat>)
    requires LogOk(log, serials, next, types) && !ty.done
    requires NoRepeats(order) && forall s :: s in order <==> s in serials
    ensures LogOk(log + SetupIn(ty, order, |types|), serials, next, types + [ty])
  {
    assert Inspected(0);
    var events, types' := SetupIn(ty, order, |types|), types + [ty];
    forall s: nat, j: nat
      ensures SlotOk(log + events, serials, next, types', s, j)
    {
      assert SlotOk(log, serials, next, types, s, j);
      AboutConcat(log, events, s, j);
      AboutMadeForAll(ty, order, |types|, s, j);
    }
  }

  // ---------------------------------------------------------- a resource goes

  function DroppedIn(ty: ResourceType, j: nat): nat -> seq<Event> {
    (s: nat) => DroppedHere(ty, s, j)
  }

  /** Tearing down resource j in every entry, in table order, unless it is done already. */
  function DroppedForAll(ty: ResourceType, order: seq<nat>, j: nat): seq<Event> {
    OverEntries(DroppedIn(ty, j), order)
  }

  lemma {:induction false} AboutDroppedForAll(ty: ResourceType, order: seq<nat>, j: nat, s: nat, j': nat)
    requires NoRepeats(order)
    ensures About(DroppedForAll(ty, order, j), s, j') == if s in order && j == j' then DroppedHere(ty, s, j) else []
  {
    AboutEntries(DroppedIn(ty, j), order, j, s, j');
  }

  /** The types when resource j has been freed. */
  function Done(types: seq<ResourceType>, j: nat): (r: seq<ResourceType>)
    requires j < |types|
    ensures types[j].done ==> r == types
  {
    types[j := types[j].(done := true)]
  }

  lemma {:induction false} TypeDropped(log: seq<Event>, serials: set<nat>, next: nat, types: seq<ResourceType>,
                                       j0: nat, order: seq<nat>)
    requires LogOk(log, serials, next, types) && j0 < |types|
    requires NoRepeats(order) && forall s :: s in order <==> s in serials
    ensures LogOk(log + TeardownIn(types[j0], order, j0), serials, next, Done(types, j0))
  {
    assert Inspected(0);
    var events := TeardownIn(types[j0], order, j0);
    var types' := Done(types, j0);
    forall s: nat, j: nat
      ensures SlotOk(log + events, serials, next, types', s, j)
    {
      assert SlotOk(log, serials, next, types, s, j);
      AboutConcat(log, events, s, j);
      AboutDroppedForAll(types[j0], order, j0, s, j);
    }
  }

  // ---------------------------------------------------------- whole operations

  /** MadeUpTo, TornDown, MadeForAll and DroppedForAll for an operation as a whole. */
  ghost function Setup(types: seq<ResourceType>, s: nat): seq<Event> {
    Agrees(MadeUpTo(types, s, |types|));
    var r: seq<Event> :| forall depth: nat {:trigger Inspected(depth)} :: Agree(r, MadeUpTo(types, s, |types|));
    r
  }

  ghost function Teardown(types: seq<ResourceType>, s: nat): seq<Event> {
    Agrees(TornDown(types, s, |types|));
    var r: seq<Event> :| forall depth: nat {:trigger Inspected(depth)} :: Agree(r, TornDown(types, s, |types|));
    r
  }

  ghost function SetupIn(ty: ResourceType, order: seq<nat>, j: nat): seq<Event> {
    Agrees(MadeForAll(ty, order, j));
    var r: seq<Event> :| forall depth: nat {:trigger Inspected(depth)} :: Agree(r, MadeForAll(ty, order, j));
    r
  }

  ghost function TeardownIn(ty: ResourceType, order: seq<nat>, j: nat): seq<Event> {
    Agrees(DroppedForAll(ty, order, j));
    var r: seq<Event> :| forall depth: nat {:trigger Inspected(depth)} :: Agree(r, DroppedForAll(ty, order, j));
    r
  }

  lemma Unfolded(types: seq<ResourceType>, s: nat)
    ensures Setup(types, s) == MadeUpTo(types, s, |types|) && Teardown(types, s) == TornDown(types, s, |types|)
  {
    assert Inspected(0);
  }

  lemma UnfoldedIn(ty: ResourceType, order: seq<nat>, j: nat)
    ensures SetupIn(ty, order, j) == MadeForAll(ty, order, j) && TeardownIn(ty, order, j) == DroppedForAll(ty, order, j)
  {
    assert Inspected(0);
  }

  lemma OneMoreEntry(ty: ResourceType, order: seq<nat>, s: nat, j: nat)
    ensures SetupIn(ty, order + [s], j) == SetupIn(ty, order, j) + Made(ty, s, j)
    ensures TeardownIn(ty, order + [s], j) == TeardownIn(ty, order, j) + DroppedHere(ty, s, j)
  {
    UnfoldedIn(ty, order, j);
    UnfoldedIn(ty, order + [s], j);
    assert (order + [s])[..|order|] == order;
  }

  lemma NoEntry(ty: ResourceType, j: nat)
    ensures SetupIn(ty, [], j) == [] && TeardownIn(ty, [], j) == []
  {
    UnfoldedIn(ty, [], j);
  }

  /** A tear-down destroys resources in decreasing order of id. */
  lemma TeardownDecreasing(types: seq<ResourceType>, s: nat)
    ensures forall i, k :: 0 <= i < k < |Teardown(types, s)| ==> Teardown(types, s)[i].id >= Teardown(types, s)[k].id
  {
    assert Inspected(0);
    DescendingIds(DroppedSlots(types, s), |types|, s);
  }

  lemma {:induction false} AscendingIds(f: nat -> seq<Event>, n: nat, s: nat)
    requires forall k: nat :: Concerns(f(k), s, k)
    ensures forall i :: 0 <= i < |Ascending(f, n)| ==> Ascending(f, n)[i].id < n
    ensures forall i, k :: 0 <= i < k < |Ascending(f, n)| ==> Ascending(f, n)[i].id <= Ascending(f, n)[k].id
    decreases n
  {
    if n > 0 {
      AscendingIds(f, n - 1, s);
      assert Concerns(f(n - 1), s, n - 1);
    }
  }

  /** A set-up constructs resources in increasing order of id. */
  lemma SetupIncreasing(types: seq<ResourceType>, s: nat)
    ensures forall i, k :: 0 <= i < k < |Setup(types, s)| ==> Setup(types, s)[i].id <= Setup(types, s)[k].id
  {
    assert Inspected(0);
    AscendingIds(MadeSlots(types, s), |types|, s);
  }

  // ------------------------------------------------------------- the balance

  function Times(log: seq<Event>, e: Event): nat {
    multiset(log)[e]
  }

  lemma {:induction false} TimesAbout(log: seq<Event>, e: Event)
    ensures Times(log, e) == Times(About(log, e.entry, e.id), e)
  {
    if log != [] {
      TimesAbout(log[1..], e);
      var head := if log[0].entry == e.entry && log[0].id == e.id then [log[0]] else [];
      assert multiset(log) == multiset{log[0]} + multiset(log[1..]) by { assert log == [log[0]] + log[1..]; }
      assert multiset(About(log, e.entry, e.id)) == multiset(head) + multiset(About(log[1..], e.entry, e.id));
    }
  }

  /** What a slot's own record amounts to, event by event. */
  lemma TimesOfSlot(ty: ResourceType, s: nat, j: nat)
    ensures Times(Made(ty, s, j), Malloc(s, j)) == (if ty.fastOffset == 0 then 1 else 0)
    ensures Times(Made(ty, s, j), Ctor(s, j)) == (if ty.hasCtor then 1 else 0)
    ensures Times(Made(ty, s, j), Dtor(s, j)) == 0 == Times(Made(ty, s, j), Free(s, j))
    ensures Times(Dropped(ty, s, j), Free(s, j)) == (if ty.fastOffset == 0 then 1 else 0)
    ensures Times(Dropped(ty, s, j), Dtor(s, j)) == (if ty.hasDtor then 1 else 0)
    ensures Times(Dropped(ty, s, j), Malloc(s, j)) == 0 == Times(Dropped(ty, s, j), Ctor(s, j))
  {
  }

  lemma {:induction false} TimesConcat(a: seq<Event>, b: seq<Event>, e: Event)
    ensures Times(a + b, e) == Times(a, e) + Times(b, e)
  {
    assert multiset(a + b) == multiset(a) + multiset(b);
  }

  /** How often an event occurs in a slot's record before and after its tear-down. */
  lemma {:induction false} TimesInLife(log: seq<Event>, serials: set<nat>, next: nat, types: seq<ResourceType>,
                                       e: Event)
    requires LogOk(log, serials, next, types) && e.id < |types|
    ensures var ty, s, j := types[e.id], e.entry, e.id;
      var n := Times(log, e);
      if s in serials && !ty.done then n == Times(Made(ty, s, j), e)
      else if About(log, s, j) == [] then n == 0
      else n == Times(Made(ty, s, j), e) + Times(Dropped(ty, s, j), e)
  {
    assert SlotOk(log, serials, next, types, e.entry, e.id);
    TimesAbout(log, e);
    TimesConcat(Made(types[e.id], e.entry, e.id), Dropped(types[e.id], e.entry, e.id), e);
  }

  /** Every constructor call is matched by at most one destructor call and every
      allocation by at most one release; as long as entry and resource are there by none,
      and once one of them is gone by exactly one. */
  lemma {:induction false} Balanced(log: seq<Event>, serials: set<nat>, next: nat, types: seq<ResourceType>, s: nat,
                                    j: nat)
    requires LogOk(log, serials, next, types) && j < |types|
    ensures Times(log, Free(s, j)) <= Times(log, Malloc(s, j)) <= 1
    ensures types[j].hasCtor && types[j].hasDtor ==> Times(log, Dtor(s, j)) <= Times(log, Ctor(s, j)) <= 1
    ensures s in serials && !types[j].done ==>
      && Times(log, Malloc(s, j)) == (if types[j].fastOffset == 0 then 1 else 0) && Times(log, Free(s, j)) == 0
      && Times(log, Ctor(s, j)) == (if types[j].hasCtor then 1 else 0) && Times(log, Dtor(s, j)) == 0
    ensures s !in serials || types[j].done ==> Times(log, Free(s, j)) == Times(log, Malloc(s, j))
    ensures (s !in serials || types[j].done) && types[j].hasCtor && types[j].hasDtor ==>
      Times(log, Dtor(s, j)) == Times(log, Ctor(s, j))
  {
    TimesInLife(log, serials, next, types, Malloc(s, j));
    TimesInLife(log, serials, next, types, Free(s, j));
    TimesInLife(log, serials, next, types, Ctor(s, j));
    TimesInLife(log, serials, next, types, Dtor(s, j));
    TimesOfSlot(types[j], s, j);
  }

  // --------------------------------------------------------- the order of events

  /** Wherever a and b occur in the record, a comes first. */
  ghost predicate Precedes(log: seq<Event>, a: Event, b: Event) {
    forall p, q :: 0 <= p < |log| && 0 <= q < |log| && log[p] == a && log[q] == b ==> p < q
  }

  /** The slot is constructed after its memory is there, destructed after that, and only
      then is the memory released. */
  ghost predicate LifeInOrder(log: seq<Event>, s: nat, j: nat) {
    && Precedes(log, Malloc(s, j), Ctor(s, j)) && Precedes(log, Malloc(s, j), Dtor(s, j))
    && Precedes(log, Malloc(s, j), Free(s, j)) && Precedes(log, Ctor(s, j), Dtor(s, j))
    && Precedes(log, Ctor(s, j), Free(s, j)) && Precedes(log, Dtor(s, j), Free(s, j))
  }

  /** Two events of a slot come in its own record in the order of the whole one. */
  lemma {:induction false} AboutKeepsOrder(log: seq<Event>, s: nat, j: nat, q: nat, p: nat) returns (k: nat, i: nat)
    requires q < p < |log| && log[q].entry == s == log[p].entry && log[q].id == j == log[p].id
    ensures k < i < |About(log, s, j)| && About(log, s, j)[k] == log[q] && About(log, s, j)[i] == log[p]
    decreases |log|
  {
    var n := if log[0].entry == s && log[0].id == j then 1 else 0;
    if q == 0 {
      i := AboutHas(log[1..], s, j, p - 1);
      k, i := 0, i + 1;
    } else {
      k, i := AboutKeepsOrder(log[1..], s, j, q - 1, p - 1);
      k, i := k + n, i + n;
    }
  }

  lemma {:induction false} AboutHas(log: seq<Event>, s: nat, j: nat, p: nat) returns (i: nat)
    requires p < |log| && log[p].entry == s && log[p].id == j
    ensures i < |About(log, s, j)| && About(log, s, j)[i] == log[p]
  {
    if p == 0 {
      i := 0;
    } else {
      i := AboutHas(log[1..], s, j, p - 1);
      if log[0].entry == s && log[0].id == j { i := i + 1; }
    }
  }

  /** What comes first in a slot's own record does so in the whole one. */
  lemma {:induction false} PrecedesByAbout(log: seq<Event>, a: Event, b: Event)
    requires a != b && a.entry == b.entry && a.id == b.id && Precedes(About(log, a.entry, a.id), a, b)
    ensures Precedes(log, a, b)
  {
    forall p, q | 0 <= p < |log| && 0 <= q < |log| && log[p] == a && log[q] == b
      ensures p < q
    {
      if q < p {
        var k, i := AboutKeepsOrder(log, a.entry, a.id, q, p);
      }
    }
  }

  function Stage(e: Event): nat {
    match e
    case Malloc(_, _) => 0
    case Ctor(_, _) => 1
    case Dtor(_, _) => 2
    case Free(_, _) => 3
  }

  ghost predicate Rising(events: seq<Event>) {
    forall p, q :: 0 <= p < q < |events| ==> Stage(events[p]) < Stage(events[q])
  }

  lemma RisingConcat(a: seq<Event>, b: seq<Event>, m: nat)
    requires Rising(a) && Rising(b)
    requires (forall p :: 0 <= p < |a| ==> Stage(a[p]) < m) && forall p :: 0 <= p < |b| ==> Stage(b[p]) >= m
    ensures Rising(a + b)
  {
  }

  /** At most one event of a lower stage, then at most one of a higher one. */
  lemma RisingPair(x: seq<Event>, y: seq<Event>, low: nat, high: nat)
    requires low < high && (x == [] || (|x| == 1 && Stage(x[0]) == low))
    requires y == [] || (|y| == 1 && Stage(y[0]) == high)
    ensures Rising(x + y) && forall p :: 0 <= p < |x + y| ==> low <= Stage((x + y)[p]) <= high
  {
  }

  lemma RisingLife(ty: ResourceType, s: nat, j: nat)
    ensures Rising([]) && Rising(Made(ty, s, j)) && Rising(Made(ty, s, j) + Dropped(ty, s, j))
  {
    RisingPair(if ty.fastOffset == 0 then [Malloc(s, j)] else [], if ty.hasCtor then [Ctor(s, j)] else [], 0, 1);
    RisingPair(if ty.hasDtor then [Dtor(s, j)] else [], if ty.fastOffset == 0 then [Free(s, j)] else [], 2, 3);
    RisingConcat(Made(ty, s, j), Dropped(ty, s, j), 2);
  }

  lemma RisingPrecedes(events: seq<Event>, a: Event, b: Event)
    requires Rising(events) && Stage(a) < Stage(b)
    ensures Precedes(events, a, b)
  {
  }

  /** In a well-formed record the events of every slot come in the right order. */
  lemma {:induction false} InOrderOfLife(log: seq<Event>, serials: set<nat>, next: nat, types: seq<ResourceType>,
                                         s: nat, j: nat)
    requires LogOk(log, serials, next, types) && j < |types|
    ensures LifeInOrder(log, s, j)
  {
    assert SlotOk(log, serials, next, types, s, j);
    RisingLife(types[j], s, j);
    var a, c, d, f := Malloc(s, j), Ctor(s, j), Dtor(s, j), Free(s, j);
    ComesFirst(log, a, c);
    ComesFirst(log, a, d);
    ComesFirst(log, a, f);
    ComesFirst(log, c, d);
    ComesFirst(log, c, f);
    ComesFirst(log, d, f);
  }

  lemma ComesFirst(log: seq<Event>, a: Event, b: Event)
    requires a.entry == b.entry && a.id == b.id && Stage(a) < Stage(b) && Rising(About(log, a.entry, a.id))
    ensures Precedes(log, a, b)
  {
    RisingPrecedes(About(log, a.entry, a.id), a, b);
    PrecedesByAbout(log, a, b);
  }
}
