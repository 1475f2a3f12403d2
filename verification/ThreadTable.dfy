/** The hash table of TSRM.c from thread ids to thread entries, chained through the
    entries' own `next` fields. `threads` is the map it stands for. */
module ThreadTable {
  import opened Folded

  /** What a storage slot points at: nothing, the block that was allocated for an entry and
      a resource, or a place in the entry's own block. An entry is named by its serial
      number, which no other entry has. */
  datatype Slot = Null | Block(entry: nat, id: nat) | Inside(entry: nat, offset: nat)

  class TlsEntry {
    const threadId: nat
    const blockSize: nat
    /** Tells the entry from every other one ever made. */
    const serial: nat
    var storage: seq<Slot>
    var next: TlsEntry?

    constructor (threadId: nat, blockSize: nat, serial: nat)
      ensures this.threadId == threadId && this.blockSize == blockSize && this.serial == serial
      ensures storage == [] && next == null
    {
      this.threadId, this.blockSize, this.serial := threadId, blockSize, serial;
      storage, next := [], null;
    }
  }

  /** Looks into `Home`. */
  ghost predicate Hashed(depth: nat) {
    true
  }

  /** The bucket of a thread id in a table of that size: the remainder. Folded but for its
      range. */
  ghost function Home(size: nat, t: nat): (r: nat)
    ensures size > 0 ==> r < size
  {
    var b := if size > 0 then t % size else 0;
    Agrees(b);
    var r: nat :| (size > 0 ==> r < size) && forall depth: nat {:trigger Hashed(depth)} :: Agree(r, b);
    r
  }

  lemma HomeMeans(size: nat, t: nat)
    ensures size > 0 ==> Home(size, t) == t % size
  {
    assert Hashed(0);
  }

  method HashOf(size: nat, t: nat) returns (b: nat)
    requires size > 0
    ensures b == Home(size, t)
  {
    b := t % size;
    HomeMeans(size, t);
  }

  function At(chain: seq<TlsEntry>, i: nat): TlsEntry? {
    if i < |chain| then chain[i] else null
  }

  type Chains = seq<seq<TlsEntry>>

  /** The entry at position i of chain b is the one its own thread id maps to. */
  ghost predicate InPlace(threads: map<nat, TlsEntry>, pos: map<nat, nat>, size: nat, b: nat, i: nat, e: TlsEntry) {
    && e.threadId in threads && threads[e.threadId] == e && Home(size, e.threadId) == b
    && e.threadId in pos && pos[e.threadId] == i
  }

  ghost predicate HasPlace(chains: Chains, pos: map<nat, nat>, size: nat, t: nat, e: TlsEntry) {
    && e.threadId == t && Home(size, t) < |chains|
    && t in pos && pos[t] < |chains[Home(size, t)]| && chains[Home(size, t)][pos[t]] == e
  }

  /** Every thread has exactly one place, at position pos[t] of its bucket's chain. */
  ghost predicate Placed(chains: Chains, threads: map<nat, TlsEntry>, pos: map<nat, nat>, size: nat) {
    && (forall b, i :: 0 <= b < |chains| && 0 <= i < |chains[b]| ==> InPlace(threads, pos, size, b, i, chains[b][i]))
    && (forall t :: t in threads ==> HasPlace(chains, pos, size, t, threads[t]))
  }

  lemma PlacedInsert(chains: Chains, threads: map<nat, TlsEntry>, pos: map<nat, nat>, size: nat, e: TlsEntry)
    requires Placed(chains, threads, pos, size) && e.threadId !in threads && Home(size, e.threadId) < |chains|
    ensures var b := Home(size, e.threadId);
      Placed(chains[b := chains[b] + [e]], threads[e.threadId := e], pos[e.threadId := |chains[b]|], size)
  {
    var b := Home(size, e.threadId);
    var chains', threads' := chains[b := chains[b] + [e]], threads[e.threadId := e];
    var pos' := pos[e.threadId := |chains[b]|];
    forall c, i | 0 <= c < |chains'| && 0 <= i < |chains'[c]|
      ensures InPlace(threads', pos', size, c, i, chains'[c][i])
    {
      if c != b || i < |chains[b]| { assert InPlace(threads, pos, size, c, i, chains[c][i]); }
    }
    forall t | t in threads'
      ensures HasPlace(chains', pos', size, t, threads'[t])
    {
      if t != e.threadId { assert HasPlace(chains, pos, size, t, threads[t]); }
    }
  }

  lemma PlacedReplace(chains: Chains, threads: map<nat, TlsEntry>, pos: map<nat, nat>, size: nat, e: TlsEntry)
    requires Placed(chains, threads, pos, size) && e.threadId in threads
    ensures var b := Home(size, e.threadId);
      HasPlace(chains, pos, size, e.threadId, threads[e.threadId])
      && Placed(chains[b := chains[b][pos[e.threadId] := e]], threads[e.threadId := e], pos, size)
  {
    assert HasPlace(chains, pos, size, e.threadId, threads[e.threadId]);
    var b, k := Home(size, e.threadId), pos[e.threadId];
    var chains', threads' := chains[b := chains[b][k := e]], threads[e.threadId := e];
    forall c, i | 0 <= c < |chains'| && 0 <= i < |chains'[c]|
      ensures InPlace(threads', pos, size, c, i, chains'[c][i])
    {
      if c != b || i != k { assert InPlace(threads, pos, size, c, i, chains[c][i]); }
    }
    forall t | t in threads'
      ensures HasPlace(chains', pos, size, t, threads'[t])
    {
      if t != e.threadId {
        assert HasPlace(chains, pos, size, t, threads[t]);
        assert InPlace(threads, pos, size, b, k, chains[b][k]);
      }
    }
  }

  /** The places after the one at position k of chain b is taken out. */
  ghost function Closed(pos: map<nat, nat>, size: nat, b: nat, k: nat): map<nat, nat> {
    map t | t in pos :: if Home(size, t) == b && pos[t] > k then pos[t] - 1 else pos[t]
  }

  /** The chains without position k of chain b; what came after it moves up. */
  ghost function Shortened(chains: Chains, b: nat, k: nat): (r: Chains)
    requires b < |chains| && k < |chains[b]|
    ensures |r| == |chains| && |r[b]| == |chains[b]| - 1
  {
    chains[b := chains[b][..k] + chains[b][k + 1..]]
  }

  lemma StillInPlace(chains: Chains, threads: map<nat, TlsEntry>, pos: map<nat, nat>, size: nat, b: nat, k: nat,
                     c: nat, i: nat)
    requires Placed(chains, threads, pos, size) && b < |chains| && k < |chains[b]|
    requires c < |chains| && i < |Shortened(chains, b, k)[c]|
    ensures InPlace(threads - {chains[b][k].threadId}, Closed(pos, size, b, k), size, c, i,
                    Shortened(chains, b, k)[c][i])
  {
    var i' := if c == b && i >= k then i + 1 else i;
    assert Shortened(chains, b, k)[c][i] == chains[c][i'];
    assert InPlace(threads, pos, size, c, i', chains[c][i']);
    assert InPlace(threads, pos, size, b, k, chains[b][k]);
  }

  lemma StillHasPlace(chains: Chains, threads: map<nat, TlsEntry>, pos: map<nat, nat>, size: nat, b: nat, k: nat,
                      t: nat)
    requires Placed(chains, threads, pos, size) && b < |chains| && k < |chains[b]|
    requires t in threads && t != chains[b][k].threadId
    ensures HasPlace(Shortened(chains, b, k), Closed(pos, size, b, k), size, t, threads[t])
  {
    assert HasPlace(chains, pos, size, t, threads[t]);
    assert InPlace(threads, pos, size, b, k, chains[b][k]);
  }

  lemma PlacedRemove(chains: Chains, threads: map<nat, TlsEntry>, pos: map<nat, nat>, size: nat, t0: nat)
    requires Placed(chains, threads, pos, size) && t0 in threads
    ensures HasPlace(chains, pos, size, t0, threads[t0])
    ensures var b := Home(size, t0);
      Placed(Shortened(chains, b, pos[t0]), threads - {t0}, Closed(pos, size, b, pos[t0]), size)
  {
    assert HasPlace(chains, pos, size, t0, threads[t0]);
    var b, k := Home(size, t0), pos[t0];
    var chains', pos' := Shortened(chains, b, k), Closed(pos, size, b, k);
    forall c, i | 0 <= c < |chains'| && 0 <= i < |chains'[c]|
      ensures InPlace(threads - {t0}, pos', size, c, i, chains'[c][i])
    {
      StillInPlace(chains, threads, pos, size, b, k, c, i);
    }
    forall t | t in threads && t != t0 ensures HasPlace(chains', pos', size, t, threads[t]) {
      StillHasPlace(chains, threads, pos, size, b, k, t);
    }
  }

  ghost predicate Owned(chain: seq<TlsEntry>, entries: set<TlsEntry>) {
    forall i :: 0 <= i < |chain| ==> chain[i] in entries
  }

  /** The pointers from `head` on run through the chain and end in null. */
  ghost predicate Linked(head: TlsEntry?, chain: seq<TlsEntry>)
    reads chain`next
  {
    head == At(chain, 0) && forall i {:trigger chain[i].next} :: 0 <= i < |chain| ==> chain[i].next == At(chain, i + 1)
  }

  /** The entries of the map, all of them and no others, are the set's members. */
  ghost predicate Enrolled(threads: map<nat, TlsEntry>, entries: set<TlsEntry>) {
    forall e :: e in entries ==> e.threadId in threads && threads[e.threadId] == e
  }

  ghost predicate Gathered(threads: map<nat, TlsEntry>, entries: set<TlsEntry>) {
    forall t :: t in threads ==> threads[t] in entries
  }

  lemma AllOwned(chains: Chains, threads: map<nat, TlsEntry>, pos: map<nat, nat>, size: nat, entries: set<TlsEntry>)
    requires Placed(chains, threads, pos, size) && Gathered(threads, entries)
    ensures forall b :: 0 <= b < |chains| ==> Owned(chains[b], entries)
  {
    forall b, i | 0 <= b < |chains| && 0 <= i < |chains[b]|
      ensures chains[b][i] in entries
    {
      assert InPlace(threads, pos, size, b, i, chains[b][i]);
    }
  }

  /** The chains of buckets 0 .. b - 1, one after the other. */
  ghost function Flat(chains: Chains, b: nat): seq<TlsEntry>
    requires b <= |chains|
  {
    if b == 0 then [] else Flat(chains, b - 1) + chains[b - 1]
  }

  ghost predicate InTableOrderOk(chains: Chains, es: seq<TlsEntry>) {
    es == Flat(chains, |chains|)
  }

  /** The list goes through the buckets in turn and each chain from its head; folded. */
  ghost predicate InTableOrder(chains: Chains, es: seq<TlsEntry>) {
    Agrees(InTableOrderOk(chains, es));
    var r: bool :| forall depth: nat {:trigger Inspected(depth)} :: Agree(r, InTableOrderOk(chains, es));
    r
  }

  lemma InTableOrderMeans(chains: Chains, es: seq<TlsEntry>)
    ensures InTableOrder(chains, es) <==> es == Flat(chains, |chains|)
  {
    assert Inspected(0);
  }

  ghost predicate ApartOk(es: seq<TlsEntry>) {
    forall i, j :: 0 <= i < j < |es| ==> es[i].threadId != es[j].threadId
  }

  /** No thread twice; folded. */
  ghost predicate Apart(es: seq<TlsEntry>) {
    Agrees(ApartOk(es));
    var r: bool :| forall depth: nat {:trigger Inspected(depth)} :: Agree(r, ApartOk(es));
    r
  }

  lemma ApartAll(es: seq<TlsEntry>)
    requires Apart(es)
    ensures forall i, j :: 0 <= i < j < |es| ==> es[i].threadId != es[j].threadId
  {
    assert Inspected(0);
  }

  lemma ApartAt(es: seq<TlsEntry>, k: nat)
    requires Apart(es) && k < |es|
    ensures forall i :: 0 <= i < |es| && i != k ==> es[i].threadId != es[k].threadId
  {
    assert Inspected(0);
  }

  /** The list holds exactly the entries of the map. */
  ghost predicate Listed(threads: map<nat, TlsEntry>, es: seq<TlsEntry>) {
    (forall i :: 0 <= i < |es| ==> es[i].threadId in threads && threads[es[i].threadId] == es[i]) && HasAll(threads, es)
  }

  ghost predicate HasAllOk(threads: map<nat, TlsEntry>, es: seq<TlsEntry>) {
    forall t :: t in threads ==> threads[t].threadId == t && threads[t] in es
  }

  /** Every entry of the map is in the list; folded. */
  ghost predicate HasAll(threads: map<nat, TlsEntry>, es: seq<TlsEntry>) {
    Agrees(HasAllOk(threads, es));
    var r: bool :| forall depth: nat {:trigger Inspected(depth)} :: Agree(r, HasAllOk(threads, es));
    r
  }

  lemma HasAllMeans(threads: map<nat, TlsEntry>, es: seq<TlsEntry>)
    ensures HasAll(threads, es) <==> forall t :: t in threads ==> threads[t].threadId == t && threads[t] in es
  {
    assert Inspected(0);
  }

  lemma ListedAll(threads: map<nat, TlsEntry>, es: seq<TlsEntry>)
    requires Listed(threads, es)
    ensures forall t :: t in threads ==> threads[t].threadId == t && threads[t] in es
  {
    assert Inspected(0);
  }

  lemma ApartConcat(xs: seq<TlsEntry>, ys: seq<TlsEntry>, size: nat, b: nat)
    requires Apart(xs) && Apart(ys)
    requires forall i :: 0 <= i < |xs| ==> Home(size, xs[i].threadId) < b
    requires forall i :: 0 <= i < |ys| ==> Home(size, ys[i].threadId) == b
    ensures Apart(xs + ys)
  {
    assert Inspected(0);
  }

  lemma ApartChain(chains: Chains, threads: map<nat, TlsEntry>, pos: map<nat, nat>, size: nat, b: nat)
    requires Placed(chains, threads, pos, size) && b < |chains|
    ensures Apart(chains[b])
  {
    assert Inspected(0);
    var chain := chains[b];
    assert forall i :: 0 <= i < |chain| ==> InPlace(threads, pos, size, b, i, chain[i]);
  }

  lemma ApartNone()
    ensures Apart([])
  {
    assert Inspected(0);
  }

  /** Bucket by bucket, every entry comes exactly once. */
  lemma {:induction false} FlatListsAll(chains: Chains, threads: map<nat, TlsEntry>, pos: map<nat, nat>, size: nat,
                                        b: nat)
    requires Placed(chains, threads, pos, size) && b <= |chains|
    ensures Apart(Flat(chains, b))
    ensures forall i :: 0 <= i < |Flat(chains, b)| ==>
      var t := Flat(chains, b)[i].threadId; t in threads && threads[t] == Flat(chains, b)[i] && Home(size, t) < b
    ensures forall t :: t in threads && Home(size, t) < b ==> threads[t].threadId == t && threads[t] in Flat(chains, b)
  {
    if b == 0 {
      ApartNone();
    } else {
      FlatListsAll(chains, threads, pos, size, b - 1);
      ApartChain(chains, threads, pos, size, b - 1);
      var chain, c := chains[b - 1], b - 1;
      assert forall i :: 0 <= i < |chain| ==> InPlace(threads, pos, size, c, i, chain[i]);
      ApartConcat(Flat(chains, b - 1), chains[b - 1], size, b - 1);
      forall t | t in threads && Home(size, t) == b - 1
        ensures threads[t].threadId == t && threads[t] in chains[b - 1]
      {
        assert HasPlace(chains, pos, size, t, threads[t]);
      }
    }
  }

  /** The walk comes to the buckets in turn and goes through each chain from its head. */
  lemma {:induction false} FlatInOrder(chains: Chains, threads: map<nat, TlsEntry>, pos: map<nat, nat>, size: nat,
                                       b: nat, i: nat, j: nat)
    requires Placed(chains, threads, pos, size) && b <= |chains| && i < j < |Flat(chains, b)|
    ensures var t, u := Flat(chains, b)[i].threadId, Flat(chains, b)[j].threadId;
      t in pos && u in pos && (Home(size, t) < Home(size, u) || (Home(size, t) == Home(size, u) && pos[t] < pos[u]))
    decreases b
  {
    var n, chain := |Flat(chains, b - 1)|, chains[b - 1];
    if j < n {
      FlatInOrder(chains, threads, pos, size, b - 1, i, j);
    } else {
      assert InPlace(threads, pos, size, b - 1, j - n, chain[j - n]);
      if i < n {
        FlatPlace(chains, threads, pos, size, b - 1, i);
      } else {
        assert InPlace(threads, pos, size, b - 1, i - n, chain[i - n]);
      }
    }
  }

  lemma {:induction false} FlatPlace(chains: Chains, threads: map<nat, TlsEntry>, pos: map<nat, nat>, size: nat,
                                     b: nat, i: nat)
    requires Placed(chains, threads, pos, size) && b <= |chains| && i < |Flat(chains, b)|
    ensures Flat(chains, b)[i].threadId in pos && Home(size, Flat(chains, b)[i].threadId) < b
    decreases b
  {
    var n, chain := |Flat(chains, b - 1)|, chains[b - 1];
    if i < n {
      FlatPlace(chains, threads, pos, size, b - 1, i);
    } else {
      assert InPlace(threads, pos, size, b - 1, i - n, chain[i - n]);
    }
  }

  /** Position i of chain b now is e, all else is as it was. */
  ghost predicate PutAt(was: Chains, now: Chains, b: nat, i: nat, e: TlsEntry) {
    b < |was| && i < |was[b]| && now == was[b := was[b][i := e]]
  }

  /** Chain b now ends with e, all else is as it was. */
  ghost predicate Appended(was: Chains, now: Chains, b: nat, e: TlsEntry) {
    b < |was| && now == was[b := was[b] + [e]]
  }

  /** Position i of chain b is gone, and what came after it has moved up. */
  ghost predicate TakenOut(was: Chains, now: Chains, b: nat, i: nat) {
    b < |was| && i < |was[b]| && now == Shortened(was, b, i)
  }

  class EntryTable {
    const buckets: array<TlsEntry?>
    const size: nat
    ghost var chains: Chains
    ghost var threads: map<nat, TlsEntry>
    ghost var entries: set<TlsEntry>
    ghost var pos: map<nat, nat>

    /** Each entry of `threads` is in the chain of its bucket, once, and in no other. */
    ghost predicate Valid()
      reads this, buckets, entries`next
    {
      Gathered(threads, entries) && forall depth: nat {:trigger Inspected(depth)} :: WellFormed()
    }

    ghost predicate WellFormed()
      reads this, buckets, entries`next
    {
      && |chains| == buckets.Length && size == buckets.Length > 0
      && Placed(chains, threads, pos, size)
      && Gathered(threads, entries) && Enrolled(threads, entries)
      && forall b :: 0 <= b < |chains| ==> Owned(chains[b], entries) && Linked(buckets[b], chains[b])
    }

    constructor (expectedThreads: nat)
      requires expectedThreads > 0
      ensures Valid() && threads == map[] && entries == {} && fresh(buckets)
      ensures buckets.Length == expectedThreads && size == expectedThreads
    {
      buckets := new TlsEntry?[expectedThreads](_ => null);
      size := expectedThreads;
      chains := seq(expectedThreads, _ => []);
      threads, entries, pos := map[], {}, map[];
    }

    /** The entry before position i of chain b. */
    ghost predicate Before(last: TlsEntry?, b: nat, i: nat)
      reads this
    {
      b < |chains| && i <= |chains[b]| && last == if i == 0 then null else chains[b][i - 1]
    }

    /** Position i of t's chain, which comes after `last`, is t's entry. */
    ghost predicate Holds(t: nat, last: TlsEntry?, i: nat)
      reads this
    {
      t in pos && i == pos[t] && Before(last, Home(size, t), i)
    }

    /** The chain of t's bucket has i entries and ends with `last`. */
    ghost predicate Ends(t: nat, last: TlsEntry?, i: nat)
      reads this
    {
      Home(size, t) < |chains| && i == |chains[Home(size, t)]| && Before(last, Home(size, t), i)
    }

    /** Walk the chain of t's bucket: the entry of t, if any, and the one before it. */
    method Find(t: nat) returns (found: TlsEntry?, last: TlsEntry?, ghost i: nat)
      requires Valid()
      ensures found != null <==> t in threads
      ensures found != null ==> found == threads[t] && Holds(t, last, i)
      ensures found == null ==> Ends(t, last, i)
    {
      assert Inspected(0);
      ghost var chain := chains[Home(size, t)];
      assert Linked(buckets[Home(size, t)], chain);
      assert t in threads ==> HasPlace(chains, pos, size, t, threads[t]);
      var b := HashOf(size, t);
      found, last := buckets[b], null;
      i := 0;
      while found != null && found.threadId != t
        invariant 0 <= i <= |chain| && found == At(chain, i) && Before(last, Home(size, t), i)
        invariant forall k :: 0 <= k < i ==> chain[k].threadId != t
        decreases |chain| - i
      {
        last := found;
        found := found.next;
        i := i + 1;
      }
      if found != null {
        assert InPlace(threads, pos, size, Home(size, t), i, chain[i]);
      }
    }

    /** The pointer that leads to position i of chain b is `target`; all others are as the
        chains say. */
    ghost predicate Pointed(b: nat, i: nat, target: TlsEntry?)
      reads this, buckets, entries`next
    {
      && |chains| == buckets.Length && b < |chains| && i <= |chains[b]|
      && (forall c :: 0 <= c < |chains| ==> Owned(chains[c], entries) && (c != b ==> Linked(buckets[c], chains[c])))
      && (if i == 0 then buckets[b] == target else chains[b][i - 1].next == target && buckets[b] == At(chains[b], 0))
      && (forall j {:trigger chains[b][j].next} ::
           0 <= j < |chains[b]| && j + 1 != i ==> chains[b][j].next == At(chains[b], j + 1))
    }

    /** An entry stands nowhere but at its place. */
    lemma OnlyThere(b: nat, i: nat)
      requires Placed(chains, threads, pos, size) && b < |chains| && i < |chains[b]|
      ensures forall c, j :: 0 <= c < |chains| && 0 <= j < |chains[c]| && (c != b || j != i) ==>
        chains[c][j] != chains[b][i]
    {
      assert InPlace(threads, pos, size, b, i, chains[b][i]);
      forall c, j | 0 <= c < |chains| && 0 <= j < |chains[c]| && (c != b || j != i)
        ensures chains[c][j] != chains[b][i]
      {
        assert InPlace(threads, pos, size, c, j, chains[c][j]);
      }
    }

    /** Write the pointer that leads to position i of chain b: the bucket's, or that of
        the entry before. */
    method SetLink(b: nat, last: TlsEntry?, target: TlsEntry?, ghost i: nat)
      requires WellFormed() && Before(last, b, i)
      modifies buckets, entries`next
      ensures Pointed(b, i, target)
    {
      assert Owned(chains[b], entries) && Linked(buckets[b], chains[b]);
      if last == null {
        buckets[b] := target;
      } else {
        OnlyThere(b, i - 1);
        last.next := target;
      }
    }

    /** What the write makes of chain b: an entry more, another entry, or one less. */
    lemma LinkedWith(b: nat, i: nat, e: TlsEntry)
      requires Pointed(b, i, e) && e.next == At(chains[b], i + 1)
      ensures i < |chains[b]| ==> Linked(buckets[b], chains[b][i := e])
      ensures i == |chains[b]| ==> Linked(buckets[b], chains[b] + [e])
    {
    }

    lemma LinkedWithout(b: nat, i: nat)
      requires b < |chains| && i < |chains[b]| && Pointed(b, i, At(chains[b], i + 1))
      ensures Linked(buckets[b], chains[b][..i] + chains[b][i + 1..])
    {
    }

    lemma NextOf(b: nat, i: nat)
      requires WellFormed() && b < |chains| && i < |chains[b]|
      ensures chains[b][i] in entries && chains[b][i].next == At(chains[b], i + 1)
    {
      assert Owned(chains[b], entries) && Linked(buckets[b], chains[b]);
    }

    /** Hang a new entry onto the end of its chain. */
    method Insert(e: TlsEntry, last: TlsEntry?, ghost i: nat)
      requires Valid() && e.threadId !in threads && e !in entries && e.next == null
      requires Ends(e.threadId, last, i)
      modifies this, buckets, entries`next
      ensures Valid() && threads == old(threads)[e.threadId := e] && entries == old(entries) + {e}
      ensures Appended(old(chains), chains, Home(size, e.threadId), e)
    {
      ValidMeans();
      var b := HashOf(size, e.threadId);
      PlacedInsert(chains, threads, pos, size, e);
      SetLink(b, last, e, i);
      LinkedWith(b, i, e);
      Install(b, i, e, chains[b] + [e], threads[e.threadId := e], pos[e.threadId := i], entries + {e});
    }

    /** Put a new entry in the place of an old one of the same thread. */
    method Replace(e: TlsEntry, found: TlsEntry, last: TlsEntry?, ghost i: nat)
      requires Valid() && e.threadId in threads && found == threads[e.threadId] && e !in entries
      requires Holds(e.threadId, last, i)
      modifies this, buckets, entries`next, e`next
      ensures Valid() && threads == old(threads)[e.threadId := e] && entries == old(entries) - {found} + {e}
      ensures pos == old(pos) && PutAt(old(chains), chains, Home(size, e.threadId), i, e)
    {
      ValidMeans();
      var b := HashOf(size, e.threadId);
      PlacedReplace(chains, threads, pos, size, e);
      NextOf(b, i);
      var next := found.next;
      SetLink(b, last, e, i);
      e.next := next;
      LinkedWith(b, i, e);
      Install(b, i, e, chains[b][i := e], threads[e.threadId := e], pos, entries - {found} + {e});
    }

    /** Take an entry out of its chain. */
    method Remove(found: TlsEntry, last: TlsEntry?, ghost i: nat)
      requires Valid() && found.threadId in threads && found == threads[found.threadId]
      requires Holds(found.threadId, last, i)
      modifies this, buckets, entries`next
      ensures Valid() && threads == old(threads) - {found.threadId} && entries == old(entries) - {found}
      ensures TakenOut(old(chains), chains, Home(size, found.threadId), i)
    {
      ValidMeans();
      var b := HashOf(size, found.threadId);
      PlacedRemove(chains, threads, pos, size, found.threadId);
      NextOf(b, i);
      SetLink(b, last, found.next, i);
      LinkedWithout(b, i);
      Install(b, i, At(chains[b], i + 1), chains[b][..i] + chains[b][i + 1..], threads - {found.threadId},
              Closed(pos, size, b, i), entries - {found});
    }

    /** All entries, bucket by bucket and each chain from its head. */
    method InOrder() returns (es: seq<TlsEntry>)
      requires Valid()
      ensures Apart(es) && Listed(threads, es) && InTableOrder(chains, es)
    {
      assert Inspected(0);
      es := [];
      var b := 0;
      while b < buckets.Length
        invariant 0 <= b <= buckets.Length
        invariant es == Flat(chains, b)
      {
        var p := buckets[b];
        ghost var chain, k := chains[b], 0;
        assert Linked(p, chain);
        while p != null
          invariant 0 <= k <= |chain| && p == At(chain, k)
          invariant es == Flat(chains, b) + chain[..k]
          decreases |chain| - k
        {
          es := es + [p];
          p := p.next;
          k := k + 1;
        }
        b := b + 1;
      }
      FlatListsAll(chains, threads, pos, size, b);
      HasAllMeans(threads, es);
      InTableOrderMeans(chains, es);
    }

    /** Record that chain b has changed. */
    ghost method Install(b: nat, i: nat, target: TlsEntry?, chain: seq<TlsEntry>, threads': map<nat, TlsEntry>,
                         pos': map<nat, nat>, entries': set<TlsEntry>)
      requires size == buckets.Length > 0 && Pointed(b, i, target) && Linked(buckets[b], chain)
      requires Placed(chains[b := chain], threads', pos', size)
      requires Gathered(threads', entries') && Enrolled(threads', entries')
      modifies this
      ensures Valid() && threads == threads' && entries == entries' && pos == pos' && chains == old(chains)[b := chain]
    {
      AllOwned(chains[b := chain], threads', pos', size, entries');
      ghost var others := chains;
      chains, threads, pos, entries := chains[b := chain], threads', pos', entries';
      forall c | 0 <= c < |chains|
        ensures Linked(buckets[c], chains[c])
      {
        if c != b { assert Linked(buckets[c], others[c]); }
      }
    }

    lemma ValidMeans()
      requires Valid()
      ensures WellFormed()
    {
      assert Inspected(0);
    }
  }
}
