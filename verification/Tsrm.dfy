/** The thread-safe resource manager of TSRM.c: threads come and go, resources are
    registered and freed while threads exist, and every slot is set up and torn down
    exactly once. Each method runs with the manager's mutex held in the original. */
module Tsrm {
  import opened Folded
  import opened TsrmLog
  import opened ThreadTable

  // ------------------------------------------------------------------- layout

  /** Sizes are rounded up to the next multiple of 16. */
  function Aligned(size: nat): (r: nat)
    ensures size <= r < size + 16 && r % 16 == 0
  {
    (size + 15) / 16 * 16
  }

  const ADDRESS: nat := 8
  const INT: nat := 4
  const THREAD_ID: nat := 8

  /** The aligned size of a thread entry. */
  const HEADER: nat := 32

  /** It is a pointer to the storage, the count, padded to the alignment of what follows,
      the thread id and a pointer to the next entry. */
  lemma HeaderHoldsFields()
    ensures HEADER == Aligned(ADDRESS + (INT + 4) + THREAD_ID + ADDRESS)
    ensures (ADDRESS + INT + 4) % THREAD_ID == 0
  {
  }

  function SlotFor(ty: ResourceType, serial: nat, j: nat): Slot {
    if ty.done then Null
    else if ty.fastOffset != 0 then Inside(serial, ty.fastOffset)
    else Block(serial, j)
  }

  function SlotsOf(types: seq<ResourceType>, serial: nat): (r: seq<Slot>)
    ensures |r| == |types| && forall j :: 0 <= j < |types| ==> r[j] == SlotFor(types[j], serial, j)
  {
    if types == [] then []
    else SlotsOf(types[..|types| - 1], serial) + [SlotFor(types[|types| - 1], serial, |types| - 1)]
  }

  /** What an entry's storage holds: an address per resource, null for done ones. For a
      fast resource it is the same address its offset gives. Folded but for its length. */
  ghost function Slots(types: seq<ResourceType>, serial: nat): (r: seq<Slot>)
    ensures |r| == |types|
  {
    Agrees(SlotsOf(types, serial));
    var r: seq<Slot> :| |r| == |types| &&
      forall depth: nat {:trigger Inspected(depth)} :: Agree(r, SlotsOf(types, serial));
    r
  }

  lemma SlotsMean(types: seq<ResourceType>, serial: nat)
    ensures forall j :: 0 <= j < |types| ==> Slots(types, serial)[j] == SlotFor(types[j], serial, j)
  {
    assert Inspected(0);
  }

  lemma SlotsStep(types: seq<ResourceType>, serial: nat, i: nat)
    requires i < |types|
    ensures Slots(types[..i + 1], serial) == Slots(types[..i], serial) + [SlotFor(types[i], serial, i)]
  {
    assert Inspected(0);
    assert types[..i + 1][..i] == types[..i];
  }

  lemma SlotsDone(types: seq<ResourceType>, serial: nat, j: nat)
    requires j < |types|
    ensures Slots(Done(types, j), serial) == Slots(types, serial)[j := Null]
  {
    SlotsMean(types, serial);
    SlotsMean(Done(types, j), serial);
  }

  ghost predicate FilledOk(storage: seq<Slot>, log: seq<Event>, before: seq<Event>, types: seq<ResourceType>,
                           serial: nat, i: nat)
  {
    i <= |types| && storage == Slots(types[..i], serial) && log == before + MadeUpTo(types, serial, i)
  }

  /** The slots of resources 0 .. i - 1 of a new entry are set up; folded. */
  ghost predicate Filled(storage: seq<Slot>, log: seq<Event>, before: seq<Event>, types: seq<ResourceType>,
                         serial: nat, i: nat)
  {
    Agrees(FilledOk(storage, log, before, types, serial, i));
    var r: bool :| forall depth: nat {:trigger Inspected(depth)} ::
      Agree(r, FilledOk(storage, log, before, types, serial, i));
    r
  }

  lemma FilledNone(log: seq<Event>, types: seq<ResourceType>, serial: nat)
    ensures Filled([], log, log, types, serial, 0)
  {
    assert Inspected(0);
    MadeUpToNone(log, types, serial);
    assert types[..0] == [];
  }

  lemma FilledMore(storage: seq<Slot>, log: seq<Event>, before: seq<Event>, types: seq<ResourceType>, serial: nat,
                   i: nat)
    requires Filled(storage, log, before, types, serial, i) && i < |types|
    ensures Filled(storage + [SlotFor(types[i], serial, i)], log + MadeHere(types[i], serial, i), before, types, serial,
                   i + 1)
  {
    assert Inspected(0);
    SlotsStep(types, serial, i);
    MadeUpToStep(before, types, serial, i);
  }

  lemma FilledAll(storage: seq<Slot>, log: seq<Event>, before: seq<Event>, types: seq<ResourceType>, serial: nat)
    requires Filled(storage, log, before, types, serial, |types|)
    ensures storage == Slots(types, serial) && log == before + Setup(types, serial)
  {
    assert Inspected(0);
    Unfolded(types, serial);
    assert types[..|types|] == types;
  }

  ghost predicate PlacementOk(types: seq<ResourceType>, pos: nat, size: nat, threads: map<nat, TlsEntry>) {
    FastRegions(types, pos) && Roomy(threads, size)
  }

  /** Fast resources lie in the reserved tail of an entry's block, aligned and apart, and
      every entry's block has the whole tail; folded. */
  ghost predicate Placement(types: seq<ResourceType>, pos: nat, size: nat, threads: map<nat, TlsEntry>) {
    Agrees(PlacementOk(types, pos, size, threads));
    var r: bool :| forall depth: nat {:trigger Inspected(depth)} :: Agree(r, PlacementOk(types, pos, size, threads));
    r
  }

  ghost predicate FastRegions(types: seq<ResourceType>, pos: nat) {
    && pos % 16 == 0
    && (forall j :: 0 <= j < |types| && types[j].fastOffset != 0 ==> FastPlaced(types[j], pos))
    && (forall i, j :: 0 <= i < j < |types| && types[i].fastOffset != 0 && types[j].fastOffset != 0 ==>
         types[i].fastOffset + types[i].size <= types[j].fastOffset)
  }

  ghost predicate FastPlaced(ty: ResourceType, pos: nat) {
    ty.fastOffset % 16 == 0 && ty.size % 16 == 0 && HEADER <= ty.fastOffset && ty.fastOffset + ty.size <= HEADER + pos
  }

  ghost predicate Roomy(threads: map<nat, TlsEntry>, size: nat) {
    forall t :: t in threads ==> threads[t].blockSize == HEADER + size
  }

  lemma PlacementMeans(types: seq<ResourceType>, pos: nat, size: nat, threads: map<nat, TlsEntry>)
    ensures Placement(types, pos, size, threads) <==> FastRegions(types, pos) && Roomy(threads, size)
  {
    assert Inspected(0);
  }

  lemma PlacementStart(types: seq<ResourceType>, size: nat)
    requires forall j :: 0 <= j < |types| ==> types[j].fastOffset == 0
    ensures Placement(types, 0, size, map[])
  {
    assert Inspected(0);
  }

  lemma PlacementEntry(types: seq<ResourceType>, pos: nat, size: nat, threads: map<nat, TlsEntry>, t: nat, e: TlsEntry)
    requires e.blockSize == HEADER + size
    ensures Placement(types, pos, size, threads) ==> Placement(types, pos, size, threads[t := e])
  {
    assert Inspected(0);
  }

  lemma PlacementFewer(types: seq<ResourceType>, pos: nat, size: nat, threads: map<nat, TlsEntry>, t: nat)
    ensures Placement(types, pos, size, threads) ==> Placement(types, pos, size, threads - {t})
  {
    assert Inspected(0);
  }

  lemma PlacementPlain(types: seq<ResourceType>, pos: nat, size: nat, threads: map<nat, TlsEntry>, ty: ResourceType)
    requires ty.fastOffset == 0
    ensures Placement(types, pos, size, threads) ==> Placement(types + [ty], pos, size, threads)
  {
    assert Inspected(0);
  }

  lemma PlacementFast(types: seq<ResourceType>, pos: nat, size: nat, threads: map<nat, TlsEntry>, ty: ResourceType)
    requires ty.fastOffset == HEADER + pos && ty.size % 16 == 0
    ensures Placement(types, pos, size, threads) ==> Placement(types + [ty], pos + ty.size, size, threads)
  {
    assert Inspected(0);
  }

  lemma PlacementDone(types: seq<ResourceType>, pos: nat, size: nat, threads: map<nat, TlsEntry>, j: nat)
    requires j < |types|
    ensures Placement(types, pos, size, threads) ==> Placement(Done(types, j), pos, size, threads)
  {
    assert Inspected(0);
  }

  // ------------------------------------------------------------------ entries

  ghost function Serials(threads: map<nat, TlsEntry>): set<nat> {
    set t | t in threads :: threads[t].serial
  }

  ghost predicate UniqueSerials(threads: map<nat, TlsEntry>, next: nat) {
    && (forall t :: t in threads ==> threads[t].serial < next)
    && (forall t, u :: t in threads && u in threads && threads[t].serial == threads[u].serial ==> t == u)
  }

  ghost predicate LedgerOk(log: seq<Event>, threads: map<nat, TlsEntry>, next: nat, types: seq<ResourceType>) {
    UniqueSerials(threads, next) && LogOk(log, Serials(threads), next, types)
  }

  /** The record of all events so far fits the entries now in the table; folded. */
  ghost predicate Ledger(log: seq<Event>, threads: map<nat, TlsEntry>, next: nat, types: seq<ResourceType>) {
    Agrees(LedgerOk(log, threads, next, types));
    var r: bool :| forall depth: nat {:trigger Inspected(depth)} :: Agree(r, LedgerOk(log, threads, next, types));
    r
  }

  lemma LedgerMeans(log: seq<Event>, threads: map<nat, TlsEntry>, next: nat, types: seq<ResourceType>)
    ensures Ledger(log, threads, next, types) <==>
      UniqueSerials(threads, next) && LogOk(log, Serials(threads), next, types)
  {
    assert Inspected(0);
  }

  lemma LedgerStart()
    ensures Ledger([], map[], 0, [])
  {
    assert Inspected(0);
  }

  lemma {:induction false} LedgerEntryMade(log: seq<Event>, threads: map<nat, TlsEntry>, next: nat,
                                           types: seq<ResourceType>, t: nat, e: TlsEntry)
    requires Ledger(log, threads, next, types) && t !in threads && e.serial == next
    ensures Ledger(log + Setup(types, next), threads[t := e], next + 1, types)
  {
    assert Inspected(0);
    EntryMade(log, Serials(threads), next, types);
    var threads' := threads[t := e];
    assert Serials(threads') == Serials(threads) + {next} by {
      forall s | s in Serials(threads) ensures s in Serials(threads') {
        var u :| u in threads && threads[u].serial == s;
        assert u in threads' && threads'[u] == threads[u];
      }
      assert threads'[t].serial == next;
    }
  }

  lemma {:induction false} LedgerEntryDropped(log: seq<Event>, threads: map<nat, TlsEntry>, next: nat,
                                              types: seq<ResourceType>, t: nat)
    requires Ledger(log, threads, next, types) && t in threads
    ensures Ledger(log + Teardown(types, threads[t].serial), threads - {t}, next, types)
  {
    assert Inspected(0);
    var gone := threads[t].serial;
    assert gone in Serials(threads);
    EntryDropped(log, Serials(threads), next, types, gone);
    assert Serials(threads - {t}) == Serials(threads) - {gone} by {
      forall s | s in Serials(threads) && s != gone ensures s in Serials(threads - {t}) {
        var u :| u in threads && threads[u].serial == s;
        assert u in threads - {t} && (threads - {t})[u] == threads[u];
      }
    }
  }

  lemma OneForAnother(threads: map<nat, TlsEntry>, t: nat, e: TlsEntry)
    ensures (threads - {t})[t := e] == threads[t := e]
  {
  }

  lemma {:induction false} LedgerTypeMade(log: seq<Event>, threads: map<nat, TlsEntry>, next: nat,
                                          types: seq<ResourceType>, ty: ResourceType, es: seq<TlsEntry>)
    requires Ledger(log, threads, next, types) && !ty.done && Apart(es) && Listed(threads, es)
    ensures Ledger(log + SetupIn(ty, SerialsOf(es), |types|), threads, next, types + [ty])
  {
    assert Inspected(0);
    SerialsListed(threads, next, es);
    TypeMade(log, Serials(threads), next, types, ty, SerialsOf(es));
  }

  lemma LedgerNewest(log: seq<Event>, threads: map<nat, TlsEntry>, next: nat, types: seq<ResourceType>,
                     es: seq<TlsEntry>)
    requires |types| > 0 && !types[|types| - 1].done && Apart(es) && Listed(threads, es)
    requires Ledger(log, threads, next, types[..|types| - 1])
    ensures Ledger(log + SetupIn(types[|types| - 1], SerialsOf(es), |types| - 1), threads, next, types)
  {
    var older, ty := types[..|types| - 1], types[|types| - 1];
    LedgerTypeMade(log, threads, next, older, ty, es);
    assert older + [ty] == types;
  }

  lemma {:induction false} LedgerTypeDropped(log: seq<Event>, threads: map<nat, TlsEntry>, next: nat,
                                             types: seq<ResourceType>, j: nat, es: seq<TlsEntry>)
    requires Ledger(log, threads, next, types) && j < |types| && Apart(es) && Listed(threads, es)
    ensures Ledger(log + TeardownIn(types[j], SerialsOf(es), j), threads, next, Done(types, j))
  {
    assert Inspected(0);
    SerialsListed(threads, next, es);
    TypeDropped(log, Serials(threads), next, types, j, SerialsOf(es));
  }

  /** What EntryTable.InOrder lists, by serial. */
  lemma {:induction false} SerialsListed(threads: map<nat, TlsEntry>, next: nat, es: seq<TlsEntry>)
    requires UniqueSerials(threads, next)
    requires Apart(es) && Listed(threads, es)
    ensures NoRepeats(SerialsOf(es)) && forall s :: s in SerialsOf(es) <==> s in Serials(threads)
  {
    assert Inspected(0);
    var order := SerialsOf(es);
    SerialsMean(es);
    forall s | s in Serials(threads) ensures s in order {
      var t :| t in threads && threads[t].serial == s;
      var i :| 0 <= i < |es| && es[i] == threads[t];
      assert order[i] == s;
    }
  }

  function SerialList(es: seq<TlsEntry>): (r: seq<nat>)
    ensures |r| == |es| && forall i :: 0 <= i < |es| ==> r[i] == es[i].serial
  {
    if es == [] then [] else SerialList(es[..|es| - 1]) + [es[|es| - 1].serial]
  }

  /** The serial numbers of a list of entries, in order; folded. */
  ghost function SerialsOf(es: seq<TlsEntry>): seq<nat> {
    Agrees(SerialList(es));
    var r: seq<nat> :| forall depth: nat {:trigger Inspected(depth)} :: Agree(r, SerialList(es));
    r
  }

  lemma SerialsMean(es: seq<TlsEntry>)
    ensures |SerialsOf(es)| == |es| && forall i :: 0 <= i < |es| ==> SerialsOf(es)[i] == es[i].serial
  {
    assert Inspected(0);
  }

  lemma SerialsFirst(es: seq<TlsEntry>, k: nat)
    requires k < |es|
    ensures SerialsOf(es[..k + 1]) == SerialsOf(es[..k]) + [es[k].serial]
  {
    assert Inspected(0);
    assert es[..k + 1][..k] == es[..k];
  }

  /** One resource, in the first k entries of a list. */
  lemma OneMoreSlot(log: seq<Event>, ty: ResourceType, es: seq<TlsEntry>, k: nat, j: nat)
    requires k < |es|
    ensures log + SetupIn(ty, SerialsOf(es[..k + 1]), j)
         == log + SetupIn(ty, SerialsOf(es[..k]), j) + Made(ty, es[k].serial, j)
    ensures log + TeardownIn(ty, SerialsOf(es[..k + 1]), j)
         == log + TeardownIn(ty, SerialsOf(es[..k]), j) + DroppedHere(ty, es[k].serial, j)
  {
    SerialsFirst(es, k);
    OneMoreEntry(ty, SerialsOf(es[..k]), es[k].serial, j);
  }

  lemma NoSlot(log: seq<Event>, ty: ResourceType, es: seq<TlsEntry>, j: nat)
    ensures log + SetupIn(ty, SerialsOf(es[..0]), j) == log && log + TeardownIn(ty, SerialsOf(es[..0]), j) == log
    ensures es[..|es|] == es
  {
    SerialsMean(es[..0]);
    assert SerialsOf(es[..0]) == [];
    NoEntry(ty, j);
  }

  /** The record after the first k entries of a list are torn down, one after the other. */
  ghost function Closing(log: seq<Event>, types: seq<ResourceType>, es: seq<TlsEntry>, k: nat): seq<Event>
    requires k <= |es|
  {
    if k == 0 then log else Closing(log, types, es, k - 1) + Teardown(types, es[k - 1].serial)
  }

  lemma ClosingStep(log: seq<Event>, types: seq<ResourceType>, es: seq<TlsEntry>, k: nat)
    requires k < |es|
    ensures Closing(log, types, es, k + 1) == Closing(log, types, es, k) + Teardown(types, es[k].serial)
  {
  }

  ghost predicate LeftOverOk(es: seq<TlsEntry>, k: nat, rest: map<nat, TlsEntry>) {
    && (forall i :: k <= i < |es| ==> es[i].threadId in rest && rest[es[i].threadId] == es[i])
    && forall t :: t in rest ==> exists i :: k <= i < |es| && es[i].threadId == t
  }

  /** The entries left when the first k of the list are gone; folded. */
  ghost predicate LeftOver(es: seq<TlsEntry>, k: nat, rest: map<nat, TlsEntry>) {
    Agrees(LeftOverOk(es, k, rest));
    var r: bool :| forall depth: nat {:trigger Inspected(depth)} :: Agree(r, LeftOverOk(es, k, rest));
    r
  }

  lemma {:induction false} LeftOverStart(threads: map<nat, TlsEntry>, es: seq<TlsEntry>)
    requires Listed(threads, es)
    ensures LeftOver(es, 0, threads)
  {
    assert Inspected(0);
    forall t | t in threads ensures exists i :: 0 <= i < |es| && es[i].threadId == t {
      assert threads[t] in es;
    }
  }

  lemma {:induction false} LeftOverStep(es: seq<TlsEntry>, k: nat, rest: map<nat, TlsEntry>)
    requires LeftOver(es, k, rest) && k < |es| && Apart(es)
    ensures es[k].threadId in rest && rest[es[k].threadId] == es[k]
    ensures LeftOver(es, k + 1, rest - {es[k].threadId})
  {
    assert Inspected(0);
    var rest' := rest - {es[k].threadId};
    ApartAt(es, k);
    forall t | t in rest' ensures exists i :: k + 1 <= i < |es| && es[i].threadId == t {
      assert t in rest;
      var i :| k <= i < |es| && es[i].threadId == t;
      assert i != k;
    }
  }

  lemma LeftOverEnd(es: seq<TlsEntry>, rest: map<nat, TlsEntry>)
    requires LeftOver(es, |es|, rest)
    ensures rest == map[]
  {
    assert Inspected(0);
    assert rest.Keys == {};
  }

  lemma {:induction false} LedgerShutdown(log: seq<Event>, threads: map<nat, TlsEntry>, next: nat,
                                          types: seq<ResourceType>, es: seq<TlsEntry>, k: nat)
      returns (rest: map<nat, TlsEntry>)
    requires Ledger(log, threads, next, types) && Apart(es) && Listed(threads, es) && k <= |es|
    ensures LeftOver(es, k, rest)
    ensures Ledger(Closing(log, types, es, k), rest, next, types)
  {
    if k == 0 {
      rest := threads;
      LeftOverStart(threads, es);
    } else {
      var left := LedgerShutdown(log, threads, next, types, es, k - 1);
      LeftOverStep(es, k - 1, left);
      LedgerEntryDropped(Closing(log, types, es, k - 1), left, next, types, es[k - 1].threadId);
      rest := left - {es[k - 1].threadId};
    }
  }

  /** Once no entry is left, whatever was made has been dropped. */
  lemma {:induction false} LedgerClosed(log: seq<Event>, threads: map<nat, TlsEntry>, next: nat,
                                        types: seq<ResourceType>, es: seq<TlsEntry>)
    requires Ledger(log, threads, next, types) && Apart(es) && Listed(threads, es)
    ensures LogOk(Closing(log, types, es, |es|), {}, next, types)
  {
    var rest := LedgerShutdown(log, threads, next, types, es, |es|);
    LeftOverEnd(es, rest);
    assert Inspected(0);
    assert Serials(rest) == {};
  }

  /** Looks into `Manager.Stocked`. */
  ghost predicate Stocking(depth: nat) {
    true
  }

  datatype Fetched = Table(entry: TlsEntry) | Item(slot: Slot)

  class Manager {
    const tab: EntryTable
    var types: seq<ResourceType>
    var reservedPos: nat
    var reservedSize: nat
    /** The calling threads' own pointers to their entries. */
    var tls: map<nat, TlsEntry>
    /** The thread that started the manager, and the threads that have called shutdown. */
    const main: nat
    var ended: set<nat>
    var down: bool
    /** The id count, which bounds the loops over the types. */
    var idCount: nat
    /** Every allocation, constructor call, destructor call and release so far. */
    var log: seq<Event>
    /** The serial number of the next entry. */
    var next: nat

    ghost predicate Valid()
      reads this, tab, tab.buckets, tab.entries
    {
      idCount == |types| && Sound()
    }

    /** All of `Valid` but that the id count is the number of types. */
    ghost predicate Sound()
      reads this, tab, tab.buckets, tab.entries
    {
      && !down && tab.Valid() && reservedPos <= reservedSize
      && (forall t :: t in tab.threads ==> tab.threads[t].threadId == t)
      && (forall depth: nat {:trigger Stocking(depth)} :: Stocked())
      && Ledger(log, tab.threads, next, types)
      && (forall t :: t in tls ==> t in tab.threads && tab.threads[t] == tls[t])
    }

    /** Every entry has the slot it should for every resource. */
    ghost predicate Stocked()
      requires Gathered(tab.threads, tab.entries)
      reads this`types, tab, tab.entries`storage
    {
      forall t :: t in tab.threads ==> tab.threads[t].storage == Slots(types, tab.threads[t].serial)
    }

    lemma StockedMeans()
      requires Sound()
      ensures forall t :: t in tab.threads ==> tab.threads[t].storage == Slots(types, tab.threads[t].serial)
    {
      assert Stocking(0);
    }

    /** Fast resources are properly placed, and every entry's block has room for them. */
    ghost predicate Layout()
      reads this, tab
    {
      Placement(types, reservedPos, reservedSize, tab.threads)
    }

    ghost predicate Kept(types': seq<ResourceType>, pos: nat, size: nat)
      reads this
    {
      types == types' && reservedPos == pos && reservedSize == size
    }

    constructor (expectedThreads: nat, main: nat)
      requires expectedThreads > 0
      ensures this.main == main && ended == {}
      ensures Valid() && Layout() && tab.threads == map[] && types == [] && tls == map[]
      ensures fresh(tab) && fresh(tab.buckets) && tab.entries == {}
    {
      tab := new EntryTable(expectedThreads);
      types, reservedPos, reservedSize, tls, down := [], 0, 0, map[], false;
      log, next, idCount, ended, this.main := [], 0, 0, {}, main;
      PlacementStart([], 0);
      LedgerStart();
    }

    /** Fetching a live fast resource by id and by offset gives the same address. */
    lemma OffsetIsId(self: nat, j: nat)
      requires Valid() && self in tls && j < |types| && !types[j].done && types[j].fastOffset != 0
      ensures j < |tls[self].storage| && tls[self].storage[j] == Inside(tls[self].serial, types[j].fastOffset)
    {
      StockedMeans();
      SlotsMean(types, tls[self].serial);
    }

    /** A live fast resource of a thread lies aligned inside its entry's block, past the
        header. */
    lemma FastSlotPlaced(self: nat, j: nat)
      requires Valid() && Layout() && self in tab.threads
      requires j < |types| && !types[j].done && types[j].fastOffset != 0
      ensures j < |tab.threads[self].storage|
      ensures exists a: nat ::
        && tab.threads[self].storage[j] == Inside(tab.threads[self].serial, a) && a % 16 == 0
        && HEADER <= a && a + types[j].size <= tab.threads[self].blockSize
    {
      assert Inspected(0);
      StockedMeans();
      SlotsMean(types, tab.threads[self].serial);
      assert FastPlaced(types[j], reservedPos);
      assert tab.threads[self].storage[j] == Inside(tab.threads[self].serial, types[j].fastOffset);
    }

    /** Two of them lie apart, the one registered first in front. */
    lemma FastSlotsApart(self: nat, i: nat, j: nat)
      requires Valid() && Layout() && self in tab.threads && i < j < |types|
      requires !types[i].done && types[i].fastOffset != 0 && !types[j].done && types[j].fastOffset != 0
      ensures i < j < |tab.threads[self].storage|
      ensures exists a: nat, b: nat ::
        && tab.threads[self].storage[i] == Inside(tab.threads[self].serial, a)
        && tab.threads[self].storage[j] == Inside(tab.threads[self].serial, b)
        && a + types[i].size <= b
    {
      assert Inspected(0);
      StockedMeans();
      SlotsMean(types, tab.threads[self].serial);
      assert tab.threads[self].storage[i] == Inside(tab.threads[self].serial, types[i].fastOffset);
      assert tab.threads[self].storage[j] == Inside(tab.threads[self].serial, types[j].fastOffset);
    }

    /** In every valid state each slot has been set up at most once and torn down at most
        as often: never while its entry is in the table and its resource is not done, and
        as often as it was set up after that. */
    lemma RecordBalanced(s: nat, j: nat)
      requires Valid() && j < |types|
      ensures Times(log, Free(s, j)) <= Times(log, Malloc(s, j)) <= 1
      ensures types[j].hasCtor && types[j].hasDtor ==> Times(log, Dtor(s, j)) <= Times(log, Ctor(s, j)) <= 1
      ensures s in Serials(tab.threads) && !types[j].done ==>
        && Times(log, Malloc(s, j)) == (if types[j].fastOffset == 0 then 1 else 0) && Times(log, Free(s, j)) == 0
        && Times(log, Ctor(s, j)) == (if types[j].hasCtor then 1 else 0) && Times(log, Dtor(s, j)) == 0
      ensures s !in Serials(tab.threads) || types[j].done ==> Times(log, Free(s, j)) == Times(log, Malloc(s, j))
      ensures (s !in Serials(tab.threads) || types[j].done) && types[j].hasCtor && types[j].hasDtor ==>
        Times(log, Dtor(s, j)) == Times(log, Ctor(s, j))
      ensures LifeInOrder(log, s, j)
    {
      LedgerMeans(log, tab.threads, next, types);
      Balanced(log, Serials(tab.threads), next, types, s, j);
      InOrderOfLife(log, Serials(tab.threads), next, types, s, j);
    }

    /** What an entry in the table holds for an ordinary resource is allocated and
        constructed, once, and neither destructed nor released. */
    lemma HeldIsAlive(t: nat, j: nat)
      requires Valid() && t in tab.threads && j < |types| && !types[j].done && types[j].fastOffset == 0
      ensures var e := tab.threads[t];
        && j < |e.storage| && e.storage[j] == Block(e.serial, j)
        && Times(log, Malloc(e.serial, j)) == 1 && Times(log, Free(e.serial, j)) == 0
        && Times(log, Ctor(e.serial, j)) == (if types[j].hasCtor then 1 else 0) && Times(log, Dtor(e.serial, j)) == 0
    {
      StockedMeans();
      SlotsMean(types, tab.threads[t].serial);
      assert tab.threads[t].serial in Serials(tab.threads);
      RecordBalanced(tab.threads[t].serial, j);
    }

    /** No two threads share what they hold, and no two resources of one thread do. */
    lemma HeldApart(t: nat, u: nat, i: nat, j: nat)
      requires Valid() && t in tab.threads && u in tab.threads && i < |types| && j < |types| && (t != u || i != j)
      requires i != j ==> types[i].fastOffset == 0 || types[j].fastOffset == 0
      ensures i < |tab.threads[t].storage| && j < |tab.threads[u].storage|
      ensures tab.threads[t].storage[i] == tab.threads[u].storage[j] ==> tab.threads[t].storage[i] == Null
    {
      StockedMeans();
      SlotsMean(types, tab.threads[t].serial);
      SlotsMean(types, tab.threads[u].serial);
      LedgerMeans(log, tab.threads, next, types);
    }

    // ------------------------------------------------------- one entry's slots

    /** Set up the slot of resource j, appending it to the entry's storage. */
    method SetUp(e: TlsEntry, j: nat)
      requires j < |types| && !types[j].done
      modifies e`storage, this`log
      ensures e.storage == old(e.storage) + [SlotFor(types[j], e.serial, j)]
      ensures log == old(log) + Made(types[j], e.serial, j)
    {
      var ty := types[j];
      if ty.fastOffset != 0 {
        e.storage := e.storage + [Inside(e.serial, ty.fastOffset)];
      } else {
        log := log + [Malloc(e.serial, j)];
        e.storage := e.storage + [Block(e.serial, j)];
      }
      if ty.hasCtor {
        log := log + [Ctor(e.serial, j)];
      }
    }

    /** The same for a resource that may be done, whose slot stays null. */
    method Fill(e: TlsEntry, j: nat)
      requires j < |types|
      modifies e`storage, this`log
      ensures e.storage == old(e.storage) + [SlotFor(types[j], e.serial, j)]
      ensures log == old(log) + MadeHere(types[j], e.serial, j)
    {
      if types[j].done {
        e.storage := e.storage + [Null];
      } else {
        SetUp(e, j);
      }
    }

    /** Destroy what the slot of resource j holds. */
    method TearDown(e: TlsEntry, j: nat)
      requires j < |types|
      modifies this`log
      ensures log == old(log) + Dropped(types[j], e.serial, j)
    {
      if types[j].hasDtor {
        log := log + [Dtor(e.serial, j)];
      }
      if types[j].fastOffset == 0 {
        log := log + [Free(e.serial, j)];
      }
    }

    /** A new entry for a thread, with a slot for every resource that is not done; the
        calling thread's own pointer is set to it. */
    method AllocateNewResource(self: nat, thread: nat) returns (e: TlsEntry)
      requires idCount == |types|
      modifies this`log, this`next, this`tls
      ensures fresh(e) && e.threadId == thread && e.next == null && e.blockSize == HEADER + reservedSize
      ensures e.serial == old(next) && next == old(next) + 1 && tls == old(tls)[self := e]
      ensures e.storage == Slots(types, e.serial)
      ensures log == old(log) + Setup(types, e.serial)
    {
      e := new TlsEntry(thread, HEADER + reservedSize, next);
      next := next + 1;
      tls := tls[self := e];
      var i := 0;
      FilledNone(log, types, e.serial);
      while i < idCount
        invariant 0 <= i <= |types| && fresh(e) && e.next == null
        invariant next == old(next) + 1 && tls == old(tls)[self := e]
        invariant Filled(e.storage, log, old(log), types, e.serial, i)
      {
        FilledMore(e.storage, log, old(log), types, e.serial, i);
        Fill(e, i);
        i := i + 1;
      }
      FilledAll(e.storage, log, old(log), types, e.serial);
    }

    /** Destroy an entry's slots in reverse order of registration. */
    method FreeResources(e: TlsEntry)
      modifies this`log
      ensures log == old(log) + Teardown(types, e.serial)
    {
      var i := |types|;
      ghost var target := log + TornDown(types, e.serial, i);
      while i > 0
        invariant 0 <= i <= |types|
        invariant log + TornDown(types, e.serial, i) == target
      {
        i := i - 1;
        ghost var before := log;
        if !types[i].done {
          TearDown(e, i);
        }
        TornDownStep(before, log, types, e.serial, i);
      }
      TornDownNone(log, types, e.serial);
      Unfolded(types, e.serial);
    }

    // -------------------------------------------------------- threads come, go

    /** What the fetch of an id brings from a thread's entry: for 0 the table itself, and
        else null if the resource is done, its place in the entry's block if it is fast, and
        otherwise the block that was allocated for this entry and this resource. */
    ghost predicate Answers(r: Fetched, e: TlsEntry, id: nat)
      reads this
    {
      && (id == 0 ==> r == Table(e))
      && (1 <= id <= |types| && types[id - 1].done ==> r == Item(Null))
      && (1 <= id <= |types| && !types[id - 1].done && types[id - 1].fastOffset != 0 ==>
           r == Item(Inside(e.serial, types[id - 1].fastOffset)))
      && (1 <= id <= |types| && !types[id - 1].done && types[id - 1].fastOffset == 0 ==>
           r == Item(Block(e.serial, id - 1)))
    }

    /** The table itself for id 0, else one item. */
    method ReturnResource(e: TlsEntry, id: nat) returns (r: Fetched)
      requires e.storage == Slots(types, e.serial) && id <= |types|
      ensures Answers(r, e, id)
    {
      SlotsMean(types, e.serial);
      r := if id == 0 then Table(e) else Item(e.storage[id - 1]);
    }

    method ReturnOwn(self: nat, id: nat) returns (r: Fetched)
      requires Valid() && self in tls && id <= |types|
      ensures Answers(r, tls[self], id)
    {
      StockedMeans();
      r := ReturnResource(tls[self], id);
    }

    /** Fetch a resource of the calling thread. A thread whose own pointer is set uses it;
        otherwise it gets a new entry, in place of a stale one of the same id if there is
        one, after that one's resources have been destroyed. */
    method Resource(self: nat, id: nat) returns (r: Fetched)
      requires Valid() && id <= |types|
      modifies this`log, this`next, this`tls, tab, tab.buckets, tab.entries`next
      ensures Valid() && (old(Layout()) ==> Layout()) && Kept(old(types), old(reservedPos), old(reservedSize))
      ensures self in tls && tls == old(tls)[self := tls[self]]
      ensures tab.threads == old(tab.threads)[self := tls[self]]
      ensures Answers(r, tls[self], id)
      ensures self in old(tls) ==> tab.threads == old(tab.threads) && tls == old(tls) && log == old(log)
      ensures self !in old(tls) ==> fresh(tls[self]) && tls[self].serial == old(next)
      ensures fresh(tab.entries - old(tab.entries))
      ensures self !in old(tls) ==>
        log == old(log) + (if self in old(tab.threads) then Teardown(types, old(tab.threads)[self].serial) else [])
                        + Setup(types, tls[self].serial)
    {
      if self !in tls {
        Attach(self);
      }
      r := ReturnOwn(self, id);
    }

    /** Give a thread without a pointer of its own an entry. */
    method Attach(self: nat)
      requires Valid() && self !in tls
      modifies this`log, this`next, this`tls, tab, tab.buckets, tab.entries`next
      ensures Valid() && (old(Layout()) ==> Layout())
      ensures self in tls && tls == old(tls)[self := tls[self]]
      ensures tab.threads == old(tab.threads)[self := tls[self]]
      ensures fresh(tls[self]) && tls[self].serial == old(next) && fresh(tab.entries - old(tab.entries))
      ensures log == old(log)
        + (if self in old(tab.threads) then Teardown(types, old(tab.threads)[self].serial) else [])
        + Setup(types, tls[self].serial)
    {
      var found, last, i := tab.Find(self);
      if found != null {
        Renew(self, found, last, i);
      } else {
        Enter(self, last, i);
      }
    }

    /** Fetch a resource of another thread. If that thread has no entry yet it gets one, and
        the calling thread's own pointer is set to it: the caller then takes the other
        thread's resources for its own, and the manager is not valid any more. */
    method ResourceOf(self: nat, other: nat, id: nat) returns (r: Fetched)
      requires Valid() && id <= |types| && other != self
      modifies this`log, this`next, this`tls, tab, tab.buckets, tab.entries`next
      ensures other in tab.threads && tab.threads[other].threadId == other && Answers(r, tab.threads[other], id)
      ensures Valid() <==> other in old(tab.threads)
      ensures Valid() ==> tab.threads == old(tab.threads) && tls == old(tls) && log == old(log)
      ensures !Valid() ==> fresh(tab.threads[other]) && tab.threads == old(tab.threads)[other := tab.threads[other]]
      ensures !Valid() ==> tls == old(tls)[self := tab.threads[other]]
      ensures !Valid() ==> log == old(log) + Setup(types, tab.threads[other].serial)
      ensures fresh(tab.entries - old(tab.entries))
    {
      StockedMeans();
      var found, last, i := tab.Find(other);
      if found == null {
        found := AllocateNewResource(self, other);
        tab.Insert(found, last, i);
        assert tls[self].threadId == other;
      }
      r := ReturnResource(found, id);
    }

    /** A new entry for a thread that has none. */
    method Enter(self: nat, last: TlsEntry?, ghost i: nat)
      requires Valid() && self !in tab.threads && tab.Ends(self, last, i)
      modifies this`log, this`next, this`tls, tab, tab.buckets, tab.entries`next
      ensures Valid() && (old(Layout()) ==> Layout()) && self in tls && tls == old(tls)[self := tls[self]]
      ensures tab.threads == old(tab.threads)[self := tls[self]]
      ensures fresh(tls[self]) && tls[self].serial == old(next) && fresh(tab.entries - old(tab.entries))
      ensures log == old(log) + Setup(types, tls[self].serial)
    {
      StockedMeans();
      var e := NewEntry(self, tab.threads);
      tab.Insert(e, last, i);
    }

    /** A new entry, and what it means for the record and the layout. */
    method NewEntry(self: nat, ghost others: map<nat, TlsEntry>) returns (e: TlsEntry)
      requires idCount == |types| && self !in others && Ledger(log, others, next, types)
      modifies this`log, this`next, this`tls
      ensures fresh(e) && e.threadId == self && e.next == null && e.storage == Slots(types, e.serial)
      ensures e.serial == old(next) && tls == old(tls)[self := e]
      ensures log == old(log) + Setup(types, e.serial) && Ledger(log, others[self := e], next, types)
      ensures Placement(types, reservedPos, reservedSize, others) ==>
        Placement(types, reservedPos, reservedSize, others[self := e])
    {
      e := AllocateNewResource(self, self);
      LedgerEntryMade(old(log), others, old(next), types, self, e);
      PlacementEntry(types, reservedPos, reservedSize, others, self, e);
    }

    /** A new entry in place of the one a dead thread of the same id has left. */
    method Renew(self: nat, found: TlsEntry, last: TlsEntry?, ghost i: nat)
      requires Valid() && self in tab.threads && found == tab.threads[self] && tab.Holds(self, last, i)
      modifies this`log, this`next, this`tls, tab, tab.buckets, tab.entries`next
      ensures Valid() && (old(Layout()) ==> Layout()) && self in tls && tls == old(tls)[self := tls[self]]
      ensures tab.threads == old(tab.threads)[self := tls[self]] && tab.pos == old(tab.pos)
      ensures fresh(tls[self]) && tls[self].serial == old(next) && fresh(tab.entries - old(tab.entries))
      ensures log == old(log) + Teardown(types, found.serial) + Setup(types, tls[self].serial)
    {
      StockedMeans();
      var e := NextEntry(self, found, tab.threads);
      tab.Replace(e, found, last, i);
    }

    /** Destroy an entry's resources, then set up the entry that follows it. */
    method NextEntry(self: nat, found: TlsEntry, ghost threads: map<nat, TlsEntry>) returns (e: TlsEntry)
      requires idCount == |types| && self in threads && found == threads[self] && Ledger(log, threads, next, types)
      modifies this`log, this`next, this`tls
      ensures fresh(e) && e.threadId == self && e.next == null && e.storage == Slots(types, e.serial)
      ensures e.serial == old(next) && tls == old(tls)[self := e]
      ensures log == old(log) + Teardown(types, found.serial) + Setup(types, e.serial)
      ensures Ledger(log, threads[self := e], next, types)
      ensures Placement(types, reservedPos, reservedSize, threads) ==>
        Placement(types, reservedPos, reservedSize, threads[self := e])
    {
      DropEntry(self, found, threads);
      e := NewEntry(self, threads - {self});
      OneForAnother(threads, self, e);
    }

    /** An entry's resources are destroyed, and what it means for the record and the layout. */
    method DropEntry(self: nat, found: TlsEntry, ghost threads: map<nat, TlsEntry>)
      requires self in threads && found == threads[self] && Ledger(log, threads, next, types)
      modifies this`log
      ensures log == old(log) + Teardown(types, found.serial) && Ledger(log, threads - {self}, next, types)
      ensures Placement(types, reservedPos, reservedSize, threads) ==>
        Placement(types, reservedPos, reservedSize, threads - {self})
    {
      LedgerEntryDropped(log, threads, next, types, self);
      PlacementFewer(types, reservedPos, reservedSize, threads, self);
      FreeResources(found);
    }

    /** Destroy the calling thread's resources and drop its entry. */
    method FreeThread(self: nat)
      requires Valid()
      modifies this`log, this`tls, tab, tab.buckets, tab.entries`next
      ensures Valid() && (old(Layout()) ==> Layout())
      ensures tab.threads == old(tab.threads) - {self} && tls == old(tls) - {self} && tab.entries <= old(tab.entries)
      ensures log == old(log) + if self in old(tab.threads) then Teardown(types, old(tab.threads)[self].serial) else []
    {
      StockedMeans();
      var found, last, i := tab.Find(self);
      if found != null {
        DropEntry(self, found, tab.threads);
        tab.Remove(found, last, i);
        tls := tls - {self};
      }
    }

    /** A thread ends without freeing its resources: its entry turns stale. */
    method ThreadDies(self: nat)
      requires Valid()
      modifies this`tls
      ensures Valid() && tls == old(tls) - {self}
    {
      StockedMeans();
      tls := tls - {self};
    }

    // ------------------------------------------------------ resources come, go

    /** Enlarge one entry's storage, up to the newest resource. */
    method Enlarge(p: TlsEntry)
      requires |types| > 0 && !types[|types| - 1].done
      requires p.storage == Slots(types[..|types| - 1], p.serial)
      modifies this`log, p`storage
      ensures p.storage == Slots(types, p.serial)
      ensures log == old(log) + Made(types[|types| - 1], p.serial, |types| - 1)
    {
      ghost var n := |types| - 1;
      var j := |p.storage|;
      while j < |types|
        invariant n <= j <= |types|
        invariant p.storage == Slots(types[..j], p.serial)
        invariant log == old(log) + if j == n then [] else Made(types[n], p.serial, n)
      {
        SlotsStep(types, p.serial, j);
        SetUp(p, j);
        j := j + 1;
      }
      assert types[..j] == types;
    }

    /** Set up the newest resource in every entry. */
    method UpdateActiveThreads() returns (es: seq<TlsEntry>)
      requires tab.Valid() && |types| > 0 && !types[|types| - 1].done
      requires forall t :: t in tab.threads ==>
        tab.threads[t].storage == Slots(types[..|types| - 1], tab.threads[t].serial)
      requires Ledger(log, tab.threads, next, types[..|types| - 1])
      modifies this`log, tab.entries`storage
      ensures Ledger(log, tab.threads, next, types)
      ensures forall t :: t in tab.threads ==> tab.threads[t].storage == Slots(types, tab.threads[t].serial)
      ensures Apart(es) && Listed(tab.threads, es) && InTableOrder(tab.chains, es)
      ensures log == old(log) + SetupIn(types[|types| - 1], SerialsOf(es), |types| - 1)
    {
      es := tab.InOrder();
      LedgerNewest(log, tab.threads, next, types, es);
      EnlargeAll(es);
      ListedAll(tab.threads, es);
    }

    method EnlargeAll(es: seq<TlsEntry>)
      requires Apart(es) && |types| > 0 && !types[|types| - 1].done
      requires forall i :: 0 <= i < |es| ==> es[i].storage == Slots(types[..|types| - 1], es[i].serial)
      modifies this`log, es`storage
      ensures forall i :: 0 <= i < |es| ==> es[i].storage == Slots(types, es[i].serial)
      ensures log == old(log) + SetupIn(types[|types| - 1], SerialsOf(es), |types| - 1)
    {
      ghost var n := |types| - 1;
      ghost var ty, before, after := types[n], types[..n], types;
      var k := 0;
      NoSlot(log, ty, es, n);
      while k < |es|
        invariant 0 <= k <= |es|
        invariant forall i :: 0 <= i < k ==> es[i].storage == Slots(after, es[i].serial)
        invariant forall i :: k <= i < |es| ==> es[i].storage == Slots(before, es[i].serial)
        invariant log == old(log) + SetupIn(ty, SerialsOf(es[..k]), n)
      {
        ApartAt(es, k);
        OneMoreSlot(old(log), ty, es, k, n);
        Enlarge(es[k]);
        k := k + 1;
      }
    }

    method Register(ty: ResourceType) returns (es: seq<TlsEntry>)
      requires Sound() && idCount == |types| + 1 && !ty.done
      modifies this`types, this`log, tab.entries`storage
      ensures Valid() && types == old(types) + [ty]
      ensures Apart(es) && Listed(tab.threads, es) && InTableOrder(tab.chains, es)
      ensures log == old(log) + SetupIn(ty, SerialsOf(es), |types| - 1)
    {
      StockedMeans();
      types := types + [ty];
      assert types[..|types| - 1] == old(types);
      es := UpdateActiveThreads();
    }

    method RaiseCount()
      requires Valid()
      modifies this`idCount
      ensures Sound() && idCount == |types| + 1
    {
      StockedMeans();
      idCount := idCount + 1;
    }

    /** Register a resource; every existing entry gets a slot for it at once. */
    method AllocateId(size: nat, hasCtor: bool, hasDtor: bool) returns (id: nat, es: seq<TlsEntry>)
      requires Valid()
      modifies this`types, this`log, this`idCount, tab.entries`storage
      ensures Valid() && (old(Layout()) ==> Layout())
      ensures types == old(types) + [ResourceType(size, hasCtor, hasDtor, 0, false)] && id == |types|
      ensures Apart(es) && Listed(tab.threads, es) && InTableOrder(tab.chains, es)
      ensures log == old(log) + SetupIn(types[id - 1], SerialsOf(es), id - 1)
    {
      RaiseCount();
      var ty := ResourceType(size, hasCtor, hasDtor, 0, false);
      PlacementPlain(types, reservedPos, reservedSize, tab.threads, ty);
      es := Register(ty);
      id := |types|;
    }

    /** Register a fast resource, which takes the next part of the reserved tail. When the
        rest of the tail is too small the answer is 0, but the id count has been raised
        already: it is then one past the types, and the manager is not valid any more. */
    method AllocateFastId(size: nat, hasCtor: bool, hasDtor: bool) returns (id: nat, offset: nat, es: seq<TlsEntry>)
      requires Valid()
      modifies this`types, this`log, this`reservedPos, this`idCount, tab.entries`storage
      ensures Valid() <==> Aligned(size) <= reservedSize - old(reservedPos)
      ensures !Valid() ==> id == 0 == offset && es == [] && idCount == old(idCount) + 1
      ensures !Valid() ==> Sound() && Kept(old(types), old(reservedPos), reservedSize) && log == old(log)
      ensures Valid() ==> (old(Layout()) ==> Layout())
      ensures Valid() ==> offset == HEADER + old(reservedPos) && reservedPos == old(reservedPos) + Aligned(size)
      ensures Valid() ==>
        types == old(types) + [ResourceType(Aligned(size), hasCtor, hasDtor, offset, false)] && id == |types|
      ensures Valid() ==> Apart(es) && Listed(tab.threads, es) && InTableOrder(tab.chains, es)
      ensures Valid() ==> log == old(log) + SetupIn(types[id - 1], SerialsOf(es), id - 1)
    {
      RaiseCount();
      if reservedSize - reservedPos < Aligned(size) { return 0, 0, []; }
      id, offset, es := PlaceFast(size, hasCtor, hasDtor);
    }

    /** The reservation that fits. */
    method PlaceFast(size: nat, hasCtor: bool, hasDtor: bool) returns (id: nat, offset: nat, es: seq<TlsEntry>)
      requires Sound() && idCount == |types| + 1 && Aligned(size) <= reservedSize - reservedPos
      modifies this`types, this`log, this`reservedPos, tab.entries`storage
      ensures Valid() && (old(Layout()) ==> Layout())
      ensures offset == HEADER + old(reservedPos) && reservedPos == old(reservedPos) + Aligned(size)
      ensures types == old(types) + [ResourceType(Aligned(size), hasCtor, hasDtor, offset, false)] && id == |types|
      ensures Apart(es) && Listed(tab.threads, es) && InTableOrder(tab.chains, es)
      ensures log == old(log) + SetupIn(types[id - 1], SerialsOf(es), id - 1)
    {
      StockedMeans();
      offset := HEADER + reservedPos;
      var ty := ResourceType(Aligned(size), hasCtor, hasDtor, offset, false);
      PlacementFast(types, reservedPos, reservedSize, tab.threads, ty);
      reservedPos := reservedPos + Aligned(size);
      es := Register(ty);
      id := |types|;
    }

    /** Set the space kept for fast resources in the entries of threads to come. */
    method Reserve(size: nat)
      requires Valid()
      modifies this`reservedPos, this`reservedSize
      ensures Valid() && reservedPos == 0 && reservedSize == Aligned(size)
      ensures tab.threads == map[] && (forall j :: 0 <= j < |types| ==> types[j].fastOffset == 0) ==> Layout()
    {
      StockedMeans();
      reservedPos, reservedSize := 0, Aligned(size);
      if forall j :: 0 <= j < |types| ==> types[j].fastOffset == 0 {
        PlacementStart(types, reservedSize);
      }
    }

    /** Destroy a resource in one entry, if it is there. */
    method FreeSlot(p: TlsEntry, j: nat)
      requires j < |types| && p.storage == Slots(types, p.serial)
      modifies this`log, p`storage
      ensures p.storage == Slots(Done(types, j), p.serial)
      ensures log == old(log) + DroppedHere(types[j], p.serial, j)
    {
      SlotsMean(types, p.serial);
      SlotsDone(types, p.serial, j);
      if p.storage[j] != Null {
        TearDown(p, j);
        p.storage := p.storage[j := Null];
      }
    }

    /** Destroy a resource in every entry that still has it; its id stays taken. */
    method FreeId(id: nat) returns (es: seq<TlsEntry>)
      requires Valid() && 1 <= id <= |types|
      modifies this`types, this`log, tab.entries`storage
      ensures Valid() && (old(Layout()) ==> Layout())
      ensures types == Done(old(types), id - 1)
      ensures Apart(es) && Listed(tab.threads, es) && InTableOrder(tab.chains, es)
      ensures log == old(log) + TeardownIn(old(types)[id - 1], SerialsOf(es), id - 1)
    {
      StockedMeans();
      PlacementDone(types, reservedPos, reservedSize, tab.threads, id - 1);
      es := tab.InOrder();
      LedgerTypeDropped(log, tab.threads, next, types, id - 1, es);
      ListedAll(tab.threads, es);
      FreeEverywhere(es, id - 1);
      types := Done(types, id - 1);
    }

    method FreeEverywhere(es: seq<TlsEntry>, j: nat)
      requires Apart(es) && j < |types|
      requires forall i :: 0 <= i < |es| ==> es[i].storage == Slots(types, es[i].serial)
      modifies this`log, es`storage
      ensures forall i :: 0 <= i < |es| ==> es[i].storage == Slots(Done(types, j), es[i].serial)
      ensures log == old(log) + TeardownIn(types[j], SerialsOf(es), j)
    {
      ghost var ty, before, after := types[j], types, Done(types, j);
      var k := 0;
      NoSlot(log, ty, es, j);
      while k < |es|
        invariant 0 <= k <= |es|
        invariant forall i :: 0 <= i < k ==> es[i].storage == Slots(after, es[i].serial)
        invariant forall i :: k <= i < |es| ==> es[i].storage == Slots(before, es[i].serial)
        invariant log == old(log) + TeardownIn(ty, SerialsOf(es[..k]), j)
      {
        ApartAt(es, k);
        OneMoreSlot(old(log), ty, es, k, j);
        FreeSlot(es[k], j);
        k := k + 1;
      }
    }

    /** Call back once for every entry that has the resource, with its slot, bucket by
        bucket and each chain from its head. */
    method ApplyForId(id: nat) returns (calls: seq<(nat, Slot)>, ghost es: seq<TlsEntry>)
      requires Valid() && 1 <= id <= |types|
      ensures es == Flat(tab.chains, |tab.chains|)
      ensures types[id - 1].done ==> calls == []
      ensures !types[id - 1].done ==> |calls| == |es|
      ensures !types[id - 1].done ==> forall k :: 0 <= k < |es| ==>
        calls[k] == (es[k].threadId, SlotFor(types[id - 1], es[k].serial, id - 1))
      ensures forall i, k :: 0 <= i < k < |calls| ==> calls[i].0 != calls[k].0
      ensures forall c :: c in calls <==>
        !types[id - 1].done
        && exists t :: t in tab.threads && c == (t, SlotFor(types[id - 1], tab.threads[t].serial, id - 1))
    {
      calls := [];
      StockedMeans();
      var list := tab.InOrder();
      es := list;
      var k := 0;
      while k < |list|
        invariant 0 <= k <= |list|
        invariant forall i :: 0 <= i < |calls| ==>
          i < k && calls[i] == (es[i].threadId, SlotFor(types[id - 1], es[i].serial, id - 1))
        invariant |calls| == if types[id - 1].done then 0 else k
      {
        SlotsMean(types, list[k].serial);
        if list[k].storage[id - 1] != Null {
          calls := calls + [(list[k].threadId, list[k].storage[id - 1])];
        }
        k := k + 1;
      }
      ListedAll(tab.threads, es);
      forall t | t in tab.threads && !types[id - 1].done
        ensures (t, SlotFor(types[id - 1], tab.threads[t].serial, id - 1)) in calls
      {
        var i :| 0 <= i < |es| && es[i] == tab.threads[t];
        assert calls[i] == (es[i].threadId, SlotFor(types[id - 1], es[i].serial, id - 1));
      }
      ApartAll(es);
      assert forall i :: 0 <= i < |calls| ==> es[i].threadId in tab.threads;
      InTableOrderMeans(tab.chains, es);
    }

    /** At the end, destroy the resources of every entry left. Only the thread that started
        the manager does, and only the first time; the others just note that they ended. */
    method Shutdown(self: nat) returns (es: seq<TlsEntry>)
      requires Valid()
      modifies this`log, this`down, this`ended, this`reservedPos, this`reservedSize
      ensures ended == old(ended) + {self}
      ensures self in old(ended) || self != main ==>
        Valid() && log == old(log) && Kept(types, old(reservedPos), old(reservedSize)) && es == []
      ensures self !in old(ended) && self == main ==>
        && down && reservedPos == 0 == reservedSize
        && Apart(es) && Listed(tab.threads, es) && InTableOrder(tab.chains, es)
        && log == Closing(old(log), types, es, |es|) && LogOk(log, {}, next, types)
    {
      StockedMeans();
      es := [];
      if self in ended { return; }
      ended := ended + {self};
      if self != main { return; }
      es := tab.InOrder();
      LedgerClosed(log, tab.threads, next, types, es);
      FreeAll(es);
      down, reservedPos, reservedSize := true, 0, 0;
    }

    method FreeAll(es: seq<TlsEntry>)
      modifies this`log
      ensures log == Closing(old(log), types, es, |es|)
    {
      ghost var before, tys, now := log, types, log;
      var k := 0;
      while k < |es|
        invariant 0 <= k <= |es| && types == tys
        invariant log == now == Closing(before, tys, es, k)
      {
        FreeResources(es[k]);
        ClosingStep(before, tys, es, k);
        now := now + Teardown(tys, es[k].serial);
        k := k + 1;
      }
    }
  }
}
