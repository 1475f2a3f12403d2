/** Whole runs of the thread-safe resource manager, from its start to its shutdown. */
module TsrmRuns {
  import opened ThreadTable
  import opened TsrmLog
  import opened Tsrm

  /** What threads ask of the manager between its start and its end. */
  datatype Request =
    | Fetch(self: nat, id: nat)
    | FetchOf(self: nat, other: nat, id: nat)
    | FreeThread(self: nat)
    | Die(self: nat)
    | End(self: nat)
    | Register(size: nat, hasCtor: bool, hasDtor: bool)
    | RegisterFast(size: nat, hasCtor: bool, hasDtor: bool)
    | FreeId(id: nat)

  /** The resources, the reserved tail, the threads with an entry, those whose own pointer
      is set, and those that have ended. */
  datatype Account = Account(
    types: seq<ResourceType>, pos: nat, size: nat, present: set<nat>, current: set<nat>, ended: set<nat>)

  ghost function AccountOf(m: Manager): Account
    reads m, m.tab
  {
    Account(m.types, m.reservedPos, m.reservedSize, m.tab.threads.Keys, m.tls.Keys, m.ended)
  }

  function After(a: Account, main: nat, q: Request): Account {
    match q
    case Fetch(self, id) =>
      if id <= |a.types| then a.(present := a.present + {self}, current := a.current + {self}) else a
    case FetchOf(self, other, id) => a
    case FreeThread(self) => a.(present := a.present - {self}, current := a.current - {self})
    case Die(self) => a.(current := a.current - {self})
    case End(self) => if self != main then a.(ended := a.ended + {self}) else a
    case Register(size, hasCtor, hasDtor) =>
      a.(types := a.types + [ResourceType(size, hasCtor, hasDtor, 0, false)])
    case RegisterFast(size, hasCtor, hasDtor) =>
      if Aligned(size) > a.size - a.pos then a
      else a.(types := a.types + [ResourceType(Aligned(size), hasCtor, hasDtor, HEADER + a.pos, false)],
              pos := a.pos + Aligned(size))
    case FreeId(id) => if 1 <= id <= |a.types| then a.(types := Done(a.types, id - 1)) else a
  }

  function AfterAll(a: Account, main: nat, requests: seq<Request>): Account {
    if requests == [] then a
    else After(AfterAll(a, main, requests[..|requests| - 1]), main, requests[|requests| - 1])
  }

  /** Serve a request. Those that would end the validity of the manager are passed over:
      an id never handed out, a fast resource that does not fit, the entry of a thread that
      has none, and the end of the main thread. */
  method Serve(m: Manager, q: Request)
    requires m.Valid() && m.main !in m.ended
    modifies m, m.tab, m.tab.buckets, m.tab.entries
    ensures m.Valid() && (old(m.Layout()) ==> m.Layout()) && m.main !in m.ended
    ensures AccountOf(m) == After(old(AccountOf(m)), m.main, q) && old(m.log) <= m.log
    ensures fresh(m.tab.entries - old(m.tab.entries))
  {
    match q
    case Fetch(self, id) => ServeFetch(m, self, id);
    case FetchOf(self, other, id) => ServeFetchOf(m, self, other, id);
    case FreeThread(self) => m.FreeThread(self);
    case Die(self) => m.ThreadDies(self);
    case End(self) => ServeEnd(m, self);
    case Register(size, hasCtor, hasDtor) => ServeRegister(m, size, hasCtor, hasDtor);
    case RegisterFast(size, hasCtor, hasDtor) => ServeRegisterFast(m, size, hasCtor, hasDtor);
    case FreeId(id) => ServeFreeId(m, id);
  }

  method ServeFetch(m: Manager, self: nat, id: nat)
    requires m.Valid()
    modifies m`log, m`next, m`tls, m.tab, m.tab.buckets, m.tab.entries
    ensures m.Valid() && (old(m.Layout()) ==> m.Layout())
    ensures AccountOf(m) == After(old(AccountOf(m)), m.main, Fetch(self, id)) && old(m.log) <= m.log
    ensures fresh(m.tab.entries - old(m.tab.entries))
  {
    if id <= |m.types| {
      var r := m.Resource(self, id);
    }
  }

  method ServeFetchOf(m: Manager, self: nat, other: nat, id: nat)
    requires m.Valid()
    modifies m`log, m`next, m`tls, m.tab, m.tab.buckets, m.tab.entries
    ensures m.Valid() && (old(m.Layout()) ==> m.Layout())
    ensures AccountOf(m) == old(AccountOf(m)) && old(m.log) <= m.log
    ensures fresh(m.tab.entries - old(m.tab.entries))
  {
    var found, last, i := m.tab.Find(other);
    if found != null && id <= |m.types| && other != self {
      var r := m.ResourceOf(self, other, id);
    }
  }

  method ServeEnd(m: Manager, self: nat)
    requires m.Valid() && m.main !in m.ended
    modifies m`log, m`down, m`ended, m`reservedPos, m`reservedSize
    ensures m.Valid() && (old(m.Layout()) ==> m.Layout()) && m.main !in m.ended
    ensures AccountOf(m) == After(old(AccountOf(m)), m.main, End(self)) && old(m.log) <= m.log
  {
    if self != m.main {
      var es := m.Shutdown(self);
    }
  }

  method ServeRegister(m: Manager, size: nat, hasCtor: bool, hasDtor: bool)
    requires m.Valid()
    modifies m`types, m`log, m`idCount, m.tab.entries`storage
    ensures m.Valid() && (old(m.Layout()) ==> m.Layout())
    ensures AccountOf(m) == After(old(AccountOf(m)), m.main, Register(size, hasCtor, hasDtor)) && old(m.log) <= m.log
  {
    var id, es := m.AllocateId(size, hasCtor, hasDtor);
  }

  method ServeRegisterFast(m: Manager, size: nat, hasCtor: bool, hasDtor: bool)
    requires m.Valid()
    modifies m`types, m`log, m`reservedPos, m`idCount, m.tab.entries`storage
    ensures m.Valid() && (old(m.Layout()) ==> m.Layout())
    ensures AccountOf(m) == After(old(AccountOf(m)), m.main, RegisterFast(size, hasCtor, hasDtor))
    ensures old(m.log) <= m.log
  {
    if Aligned(size) <= m.reservedSize - m.reservedPos {
      var id, offset, es := m.AllocateFastId(size, hasCtor, hasDtor);
    }
  }

  method ServeFreeId(m: Manager, id: nat)
    requires m.Valid()
    modifies m`types, m`log, m.tab.entries`storage
    ensures m.Valid() && (old(m.Layout()) ==> m.Layout())
    ensures AccountOf(m) == After(old(AccountOf(m)), m.main, FreeId(id)) && old(m.log) <= m.log
  {
    if 1 <= id <= |m.types| {
      var es := m.FreeId(id);
    }
  }

  const START := Account([], 0, 0, {}, {}, {})

  /** Any requests in any order leave the entries and resources they should, and the
      manager valid with its fast resources laid out. */
  method Run(expectedThreads: nat, main: nat, reserve: nat, requests: seq<Request>) returns (m: Manager)
    requires expectedThreads > 0
    ensures fresh(m) && fresh(m.tab) && fresh(m.tab.buckets) && fresh(m.tab.entries)
    ensures m.Valid() && m.Layout() && m.main == main && main !in m.ended
    ensures AccountOf(m) == AfterAll(START.(size := Aligned(reserve)), main, requests)
  {
    m := new Manager(expectedThreads, main);
    m.Reserve(reserve);
    var i := 0;
    while i < |requests|
      invariant 0 <= i <= |requests|
      invariant fresh(m) && fresh(m.tab) && fresh(m.tab.buckets) && fresh(m.tab.entries)
      invariant m.Valid() && m.Layout() && m.main == main && main !in m.ended
      invariant AccountOf(m) == AfterAll(START.(size := Aligned(reserve)), main, requests[..i])
    {
      Serve(m, requests[i]);
      assert requests[..i + 1][..i] == requests[..i];
      i := i + 1;
    }
    assert requests[..i] == requests;
  }

  /** After any requests in any order, and the end of the main thread, every slot ever set
      up has been torn down, once and in the right order. */
  method Lifetime(expectedThreads: nat, main: nat, reserve: nat, requests: seq<Request>) returns (m: Manager)
    requires expectedThreads > 0
    ensures m.down && m.types == AfterAll(START.(size := Aligned(reserve)), main, requests).types
    ensures forall s: nat, j: nat :: j < |m.types| ==>
      Times(m.log, Free(s, j)) == Times(m.log, Malloc(s, j)) <= 1
    ensures forall s: nat, j: nat :: j < |m.types| && m.types[j].hasCtor && m.types[j].hasDtor ==>
      Times(m.log, Dtor(s, j)) == Times(m.log, Ctor(s, j)) <= 1
    ensures forall s: nat, j: nat :: j < |m.types| ==> LifeInOrder(m.log, s, j)
  {
    m := Run(expectedThreads, main, reserve, requests);
    var es := m.Shutdown(main);
    forall s: nat, j: nat | j < |m.types|
      ensures Times(m.log, Free(s, j)) == Times(m.log, Malloc(s, j)) <= 1
      ensures m.types[j].hasCtor && m.types[j].hasDtor ==> Times(m.log, Dtor(s, j)) == Times(m.log, Ctor(s, j)) <= 1
      ensures LifeInOrder(m.log, s, j)
    {
      Balanced(m.log, {}, m.next, m.types, s, j);
      InOrderOfLife(m.log, {}, m.next, m.types, s, j);
    }
  }

  /** A fast resource that does not fit ends the validity of a new manager. */
  method FastResourceUnfit(expectedThreads: nat, main: nat, size: nat) returns (m: Manager, id: nat)
    requires expectedThreads > 0 && size > 0
    ensures id == 0 && m.idCount == 1 && m.types == [] && !m.Valid()
  {
    m := new Manager(expectedThreads, main);
    m.Reserve(0);
    var offset, es;
    id, offset, es := m.AllocateFastId(size, false, false);
  }

  /** So does a fetch by the id of another thread that has no entry: the caller's own
      pointer leads to the other thread's resources. */
  method FetchOfNobody(expectedThreads: nat, self: nat, other: nat) returns (m: Manager)
    requires expectedThreads > 0 && self != other
    ensures !m.Valid() && self in m.tls && m.tls[self].threadId == other
  {
    m := new Manager(expectedThreads, self);
    var r := m.ResourceOf(self, other, 0);
  }
}
