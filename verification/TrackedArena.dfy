/** The tracked arena of zend_arena.h, used under memory checkers: every allocation is one
    of its own, and blocks of 1000 slots only remember them. A checkpoint is the address of
    the next free slot, and releasing frees the allocations one by one. */
module TrackedArena {
  import opened Folded
  import opened Sequences

  const CAPACITY: nat := 1000
  const HEADER: nat := 24

  /** A block at `start` that remembers the allocations in `kept`. */
  datatype Span = Span(start: nat, kept: seq<nat>)

  type Chain = seq<Span>

  /** The address of a block's slot number `used`. */
  function SlotAddress(start: nat, used: nat): nat {
    start + HEADER + 8 * used
  }

  const BLOCK_SIZE: nat := 8024

  /** A block is a header of three pointers and its slots, which are pointers and follow one
      another up to the block's end. */
  lemma BlockHoldsSlots(start: nat, used: nat)
    requires used <= CAPACITY
    ensures SlotAddress(start, 0) == start + 3 * 8 && SlotAddress(start, used) == SlotAddress(start, 0) + 8 * used
    ensures SlotAddress(start, used) <= start + BLOCK_SIZE
    ensures SlotAddress(start, used) == start + BLOCK_SIZE <==> used == 1000
  {
  }

  ghost predicate Disjoint(a: nat, b: nat) {
    a + BLOCK_SIZE <= b || b + BLOCK_SIZE <= a
  }

  ghost predicate ChainOk(chain: Chain) {
    && |chain| > 0
    && (forall i :: 0 <= i < |chain| ==> |chain[i].kept| <= CAPACITY)
    && forall i, j {:trigger Disjoint(chain[i].start, chain[j].start)} ::
         0 <= i < j < |chain| ==> Disjoint(chain[i].start, chain[j].start)
  }

  /** The live allocations, oldest first. */
  function Live(chain: Chain): seq<nat> {
    if chain == [] then [] else Live(chain[..|chain| - 1]) + chain[|chain| - 1].kept
  }

  function Newest(chain: Chain): Span
    requires |chain| > 0
  {
    chain[|chain| - 1]
  }

  /** Later in the same nest: nothing was freed, and allocations were only added. */
  ghost predicate Extends(chain: Chain, old_: Chain) {
    && 0 < |old_| <= |chain|
    && chain[..|old_| - 1] == old_[..|old_| - 1]
    && chain[|old_| - 1].start == Newest(old_).start
    && Newest(old_).kept <= chain[|old_| - 1].kept
  }

  lemma ExtendsTransitive(a: Chain, b: Chain, c: Chain)
    requires Extends(a, b) && Extends(b, c)
    ensures Extends(a, c)
  {
    var n := |c| - 1;
    assert a[..n] == a[..|b| - 1][..n] || n == |b| - 1;
    assert forall i :: 0 <= i < n ==> a[i] == a[..|b| - 1][i] && b[i] == b[..|b| - 1][i];
    if n < |b| - 1 { assert a[n] == a[..|b| - 1][n] == b[..|b| - 1][n]; }
  }

  function CheckpointOf(chain: Chain): nat {
    if chain == [] then 0 else SlotAddress(Newest(chain).start, |Newest(chain).kept|)
  }

  lemma CheckpointElsewhere(chain: Chain, m: Chain)
    requires ChainOk(chain) && Extends(chain, m) && |chain| > |m|
    ensures CheckpointOf(chain) != CheckpointOf(m)
  {
    var n := |m| - 1;
    assert Disjoint(chain[n].start, chain[|chain| - 1].start);
  }

  /** Within a nest, only the chain of that moment has the checkpoint's address. */
  lemma CheckpointFound(chain: Chain, m: Chain)
    requires ChainOk(chain) && Extends(chain, m) && CheckpointOf(chain) == CheckpointOf(m)
    ensures chain == m
  {
    if |chain| > |m| {
      CheckpointElsewhere(chain, m);
    } else {
      var n := |m| - 1;
      assert Newest(m).kept == chain[n].kept;
      assert chain == chain[..n] + [chain[n]] && m == m[..n] + [m[n]];
    }
  }

  // ------------------------------------------------------------------- steps

  function Pushed(chain: Chain, p: nat): Chain
    requires |chain| > 0
  {
    chain[..|chain| - 1] + [Span(Newest(chain).start, Newest(chain).kept + [p])]
  }

  function Popped(chain: Chain): Chain
    requires |chain| > 0 && |Newest(chain).kept| > 0
  {
    chain[..|chain| - 1] + [Span(Newest(chain).start, DropLast(Newest(chain).kept))]
  }

  lemma LiveSplit(older: Chain, s: Span)
    ensures Live(older + [s]) == Live(older) + s.kept
  {
    assert (older + [s])[..|older|] == older;
  }

  lemma {:induction false} LivePushed(chain: Chain, p: nat)
    requires |chain| > 0
    ensures Live(Pushed(chain, p)) == Live(chain) + [p]
  {
    LiveSplit(chain[..|chain| - 1], Newest(Pushed(chain, p)));
    var older := Live(chain[..|chain| - 1]);
    assert older + (Newest(chain).kept + [p]) == older + Newest(chain).kept + [p];
  }

  /** The chain after an allocation: a full block is followed by a new one. */
  function Allocated(chain: Chain, p: nat, at: nat): Chain
    requires |chain| > 0
  {
    if |Newest(chain).kept| == CAPACITY then chain + [Span(at, [p])] else Pushed(chain, p)
  }

  /** A block is added exactly when the slots of the newest one reach its end. */
  lemma AddedIffFull(chain: Chain, p: nat, at: nat)
    requires ChainOk(chain)
    ensures |Allocated(chain, p, at)| > |chain| <==>
      SlotAddress(Newest(chain).start, |Newest(chain).kept|) == Newest(chain).start + BLOCK_SIZE
    ensures Newest(Allocated(chain, p, at)).kept == if |Allocated(chain, p, at)| > |chain| then [p]
                                                    else Newest(chain).kept + [p]
  {
  }

  lemma LiveAllocated(chain: Chain, p: nat, at: nat)
    requires |chain| > 0
    ensures Live(Allocated(chain, p, at)) == Live(chain) + [p]
  {
    if |Newest(chain).kept| == CAPACITY {
      LiveSplit(chain, Span(at, [p]));
    } else {
      LivePushed(chain, p);
    }
  }

  lemma PushedFirst(chain: Chain, p: nat, at: nat)
    ensures Pushed(chain + [Span(at, [])], p) == chain + [Span(at, [p])]
  {
    var grown := chain + [Span(at, [])];
    assert grown[..|chain|] == chain && [] + [p] == [p];
  }

  lemma {:induction false} LivePopped(chain: Chain)
    requires |chain| > 0 && |Newest(chain).kept| > 0
    ensures Live(chain) == Live(Popped(chain)) + [Last(Newest(chain).kept)]
  {
    assert Popped(chain)[..|chain| - 1] == chain[..|chain| - 1];
    assert Newest(chain).kept == DropLast(Newest(chain).kept) + [Last(Newest(chain).kept)];
  }

  lemma {:induction false} LiveShorter(chain: Chain, n: nat)
    requires n <= |chain|
    ensures Live(chain[..n]) <= Live(chain)
  {
    if n < |chain| {
      var older := chain[..|chain| - 1];
      assert older[..n] == chain[..n];
      LiveShorter(older, n);
    } else {
      assert chain[..n] == chain;
    }
  }

  /** What was live at an earlier moment of the nest still is, and comes first. */
  lemma LiveExtends(chain: Chain, m: Chain)
    requires Extends(chain, m)
    ensures Live(m) <= Live(chain)
  {
    var n := |m| - 1;
    LiveShorter(chain, n + 1);
    assert chain[..n + 1][..n] == chain[..n] == m[..n];
    assert Live(chain[..n + 1]) == Live(m[..n]) + chain[n].kept;
    assert Live(m) == Live(m[..n]) + m[n].kept;
  }

  lemma LiveGrown(chain: Chain, start: nat)
    ensures Live(chain + [Span(start, [])]) == Live(chain)
  {
    assert (chain + [Span(start, [])])[..|chain|] == chain;
  }

  // -------------------------------------------------------------- invariants

  ghost predicate MarksOk(chain: Chain, marks: seq<Chain>) {
    && (forall i :: 0 <= i < |marks| ==> Extends(chain, marks[i]))
    && forall i, j :: 0 <= i < j < |marks| ==> Extends(marks[j], marks[i])
  }

  ghost predicate ConservedOk(handed: seq<nat>, chain: Chain, freed: seq<nat>) {
    multiset(handed) == multiset(Live(chain)) + multiset(freed)
  }

  /** Whatever was handed out is either live or freed, as often as it was handed out;
      folded. */
  ghost predicate Conserved(handed: seq<nat>, chain: Chain, freed: seq<nat>) {
    Agrees(ConservedOk(handed, chain, freed));
    var r: bool :| forall depth: nat {:trigger Inspected(depth)} :: Agree(r, ConservedOk(handed, chain, freed));
    r
  }

  lemma ConservedMeans(handed: seq<nat>, chain: Chain, freed: seq<nat>)
    ensures Conserved(handed, chain, freed) <==> multiset(handed) == multiset(Live(chain)) + multiset(freed)
  {
    assert Inspected(0);
  }

  ghost predicate NestOk(chain: Chain, marks: seq<Chain>, handed: seq<nat>, freed: seq<nat>) {
    ChainOk(chain) && MarksOk(chain, marks) && Conserved(handed, chain, freed)
  }

  /** All of the above, folded. */
  ghost predicate Nest(chain: Chain, marks: seq<Chain>, handed: seq<nat>, freed: seq<nat>) {
    Agrees(NestOk(chain, marks, handed, freed));
    var r: bool :| forall depth: nat {:trigger Inspected(depth)} :: Agree(r, NestOk(chain, marks, handed, freed));
    r
  }

  lemma NestMeans(chain: Chain, marks: seq<Chain>, handed: seq<nat>, freed: seq<nat>)
    ensures Nest(chain, marks, handed, freed) <==>
      && ChainOk(chain) && MarksOk(chain, marks)
      && multiset(handed) == multiset(Live(chain)) + multiset(freed)
  {
    assert Inspected(0);
    ConservedMeans(handed, chain, freed);
  }

  lemma NestStart(at: nat)
    ensures Nest([Span(at, [])], [], [], [])
  {
    assert Inspected(0);
    LiveSplit([], Span(at, []));
  }

  lemma NestConserves(chain: Chain, marks: seq<Chain>, handed: seq<nat>, freed: seq<nat>)
    requires Nest(chain, marks, handed, freed)
    ensures Conserved(handed, chain[..|chain|], freed)
  {
    assert Inspected(0);
    assert chain[..|chain|] == chain;
  }

  lemma ConservedStep(handed: seq<nat>, chain: Chain, n: nat, freed: seq<nat>, freed': seq<nat>)
    requires n < |chain| && Conserved(handed, chain[..n + 1], freed) && freed' == freed + chain[n].kept
    ensures Conserved(handed, chain[..n], freed')
  {
    assert Inspected(0);
    LiveSplit(chain[..n], chain[n]);
    assert chain[..n] + [chain[n]] == chain[..n + 1];
    assert multiset(Live(chain[..n + 1])) == multiset(Live(chain[..n])) + multiset(chain[n].kept);
    assert multiset(freed') == multiset(freed) + multiset(chain[n].kept);
  }

  ghost predicate Available(chain: Chain, at: nat) {
    forall i :: 0 <= i < |chain| ==> Disjoint(chain[i].start, at)
  }

  lemma NestPush(chain: Chain, marks: seq<Chain>, handed: seq<nat>, freed: seq<nat>, p: nat)
    requires Nest(chain, marks, handed, freed) && |chain| > 0 && |Newest(chain).kept| < CAPACITY
    ensures Nest(Pushed(chain, p), marks, handed + [p], freed)
  {
    assert Inspected(0);
    LivePushed(chain, p);
    var chain' := Pushed(chain, p);
    assert Extends(chain', chain) by { assert chain'[..|chain| - 1] == chain[..|chain| - 1]; }
    forall i | 0 <= i < |marks| ensures Extends(chain', marks[i]) {
      ExtendsTransitive(chain', chain, marks[i]);
    }
    forall i | 0 <= i < |chain'| ensures chain'[i].start == chain[i].start && |chain'[i].kept| <= CAPACITY {
      if i < |chain| - 1 { assert chain'[i] == chain[i]; }
    }
    assert multiset(handed + [p]) == multiset(handed) + multiset([p]);
    assert multiset(Live(chain) + [p]) == multiset(Live(chain)) + multiset([p]);
  }

  lemma NestGrow(chain: Chain, marks: seq<Chain>, handed: seq<nat>, freed: seq<nat>, at: nat)
    requires Nest(chain, marks, handed, freed) && Available(chain, at)
    ensures Nest(chain + [Span(at, [])], marks, handed, freed)
  {
    assert Inspected(0);
    LiveGrown(chain, at);
    var chain' := chain + [Span(at, [])];
    assert Extends(chain', chain) by { assert chain'[..|chain| - 1] == chain[..|chain| - 1]; }
    forall i | 0 <= i < |marks| ensures Extends(chain', marks[i]) {
      ExtendsTransitive(chain', chain, marks[i]);
    }
  }

  lemma NestMark(chain: Chain, marks: seq<Chain>, handed: seq<nat>, freed: seq<nat>)
    requires Nest(chain, marks, handed, freed)
    ensures Nest(chain, marks + [chain], handed, freed)
  {
    assert Inspected(0);
    assert Extends(chain, chain);
  }

  /** Forgetting the checkpoints after the k-th. */
  lemma NestForget(chain: Chain, marks: seq<Chain>, handed: seq<nat>, freed: seq<nat>, k: nat)
    requires Nest(chain, marks, handed, freed) && k < |marks|
    ensures Nest(chain, marks[..k + 1], handed, freed) && Live(marks[k]) <= Live(chain)
  {
    assert Inspected(0);
    LiveExtends(chain, marks[k]);
  }

  lemma ExtendsPopped(chain: Chain, m: Chain)
    requires Extends(chain, m) && |Newest(chain).kept| > 0 && CheckpointOf(chain) != CheckpointOf(m)
    ensures Extends(Popped(chain), m)
  {
    var chain' := Popped(chain);
    assert chain'[..|chain| - 1] == chain[..|chain| - 1];
    assert chain'[..|m| - 1] == chain[..|m| - 1];
    if |m| == |chain| {
      assert |Newest(m).kept| != |Newest(chain).kept|;
    } else {
      assert chain'[|m| - 1] == chain[|m| - 1];
    }
  }

  lemma PoppedOk(chain: Chain)
    requires ChainOk(chain) && |Newest(chain).kept| > 0
    ensures ChainOk(Popped(chain))
  {
    var chain' := Popped(chain);
    forall i | 0 <= i < |chain'| ensures chain'[i].start == chain[i].start && |chain'[i].kept| <= CAPACITY {
      if i < |chain| - 1 { assert chain'[i] == chain[i]; }
    }
  }

  lemma ConservedPopped(handed: seq<nat>, chain: Chain, freed: seq<nat>)
    requires Conserved(handed, chain, freed) && |chain| > 0 && |Newest(chain).kept| > 0
    ensures Conserved(handed, Popped(chain), freed + [Last(Newest(chain).kept)])
  {
    assert Inspected(0);
    var p := Last(Newest(chain).kept);
    LivePopped(chain);
    assert multiset(Live(chain)) == multiset(Live(Popped(chain))) + multiset([p]);
    assert multiset(freed + [p]) == multiset(freed) + multiset([p]);
  }

  /** Before the last checkpoint is reached, one more allocation can be freed. */
  lemma NestPop(chain: Chain, marks: seq<Chain>, handed: seq<nat>, freed: seq<nat>)
    requires Nest(chain, marks, handed, freed) && |marks| > 0 && |chain| > 0 && |Newest(chain).kept| > 0
    requires CheckpointOf(chain) != CheckpointOf(marks[|marks| - 1])
    ensures Nest(Popped(chain), marks, handed, freed + [Last(Newest(chain).kept)])
  {
    assert Inspected(0);
    ExtendsPopped(chain, marks[|marks| - 1]);
    MarksFollow(Popped(chain), marks);
    PoppedOk(chain);
    ConservedPopped(handed, chain, freed);
  }

  /** What is freed already, followed by what would be freed next, newest first. */
  ghost function QueueOf(chain: Chain, freed: seq<nat>): seq<nat> {
    freed + Reverse(Live(chain))
  }

  /** The same, folded. */
  ghost function Queue(chain: Chain, freed: seq<nat>): seq<nat> {
    Agrees(QueueOf(chain, freed));
    var r: seq<nat> :| forall depth: nat {:trigger Inspected(depth)} :: Agree(r, QueueOf(chain, freed));
    r
  }

  /** The live allocations fix what a release frees, and in which order. */
  lemma QueueMeans(chain: Chain, freed: seq<nat>, chain': Chain, freed': seq<nat>, dropped: seq<nat>)
    requires Queue(chain', freed') == Queue(chain, freed) && Live(chain) == Live(chain') + dropped
    ensures freed' == freed + Reverse(dropped)
  {
    assert Inspected(0);
    ReverseConcat(Live(chain'), dropped);
    var rest := Reverse(Live(chain'));
    assert freed' + rest == freed + Reverse(dropped) + rest;
    assert freed' == (freed' + rest)[..|freed' + rest| - |rest|];
  }

  /** A release to an earlier moment of the nest frees what was allocated since, newest
      first. */
  lemma ReleaseOrder(chain: Chain, freed: seq<nat>, m: Chain, freed': seq<nat>)
    requires Live(m) <= Live(chain) && Queue(m, freed') == Queue(chain, freed)
    ensures freed' == freed + Reverse(Live(chain)[|Live(m)|..])
  {
    var dropped := Live(chain)[|Live(m)|..];
    assert Live(chain) == Live(m) + dropped;
    QueueMeans(chain, freed, m, freed', dropped);
  }

  lemma QueuePopped(chain: Chain, freed: seq<nat>)
    requires |chain| > 0 && |Newest(chain).kept| > 0
    ensures Queue(Popped(chain), freed + [Last(Newest(chain).kept)]) == Queue(chain, freed)
  {
    assert Inspected(0);
    var p, rest := Last(Newest(chain).kept), Live(Popped(chain));
    LivePopped(chain);
    ReverseConcat(rest, [p]);
    assert Reverse([p]) == [p];
    assert freed + [p] + Reverse(rest) == freed + ([p] + Reverse(rest));
  }

  lemma QueueShrunk(chain: Chain, freed: seq<nat>)
    requires |chain| > 0 && Newest(chain).kept == []
    ensures Queue(chain[..|chain| - 1], freed) == Queue(chain, freed)
  {
    assert Inspected(0);
    assert Live(chain) == Live(chain[..|chain| - 1]);
  }

  /** Before the last checkpoint is reached, an emptied block can be freed. */
  lemma NestShrink(chain: Chain, marks: seq<Chain>, handed: seq<nat>, freed: seq<nat>)
    requires Nest(chain, marks, handed, freed) && |marks| > 0 && |chain| > 0 && Newest(chain).kept == []
    requires CheckpointOf(chain) != CheckpointOf(marks[|marks| - 1])
    ensures |chain| > 1 && Nest(chain[..|chain| - 1], marks, handed, freed)
  {
    assert Inspected(0);
    var chain', m := chain[..|chain| - 1], marks[|marks| - 1];
    assert Extends(chain, m);
    assert |m| < |chain|;
    assert chain'[..|m| - 1] == chain[..|m| - 1];
    MarksFollow(chain', marks);
    assert Live(chain) == Live(chain');
  }

  lemma MarksFollow(chain: Chain, marks: seq<Chain>)
    requires |marks| > 0 && Extends(chain, marks[|marks| - 1])
    requires forall i, j :: 0 <= i < j < |marks| ==> Extends(marks[j], marks[i])
    ensures MarksOk(chain, marks)
  {
    forall i | 0 <= i < |marks| ensures Extends(chain, marks[i]) {
      if i < |marks| - 1 { ExtendsTransitive(chain, marks[|marks| - 1], marks[i]); }
    }
  }

  lemma NestReached(chain: Chain, marks: seq<Chain>, handed: seq<nat>, freed: seq<nat>)
    requires Nest(chain, marks, handed, freed) && |marks| > 0
    requires CheckpointOf(chain) == CheckpointOf(marks[|marks| - 1])
    ensures chain == marks[|marks| - 1]
  {
    assert Inspected(0);
    CheckpointFound(chain, marks[|marks| - 1]);
  }

  // -------------------------------------------------------------- the arena

  class Block {
    const start: nat
    const prev: Block?
    /** How many blocks the chain had before this one. */
    ghost const depth: nat
    /** The block's 1000 slots, of which the first `used` count. */
    var ptrs: seq<nat>
    var used: nat

    constructor (start: nat, prev: Block?, ghost depth: nat)
      ensures this.start == start && this.prev == prev && this.depth == depth && used == 0
      ensures |ptrs| == CAPACITY
    {
      this.start, this.prev, this.depth, used := start, prev, depth, 0;
      ptrs := seq(CAPACITY, _ => 0);
    }

    method Add(p: nat)
      requires used < |ptrs|
      modifies this`used, this`ptrs
      ensures used == old(used) + 1 && ptrs == old(ptrs)[old(used) := p]
    {
      ptrs := ptrs[used := p];
      used := used + 1;
    }
  }

  ghost predicate LinkedOk(blocks: seq<Block>) {
    && (forall i :: 0 <= i < |blocks| ==> blocks[i].depth == i)
    && forall i {:trigger blocks[i].prev} :: 0 <= i < |blocks| ==> blocks[i].prev == PrevOf(blocks, i)
  }

  /** Each block points to the one before it; folded. */
  ghost predicate Linked(blocks: seq<Block>) {
    Agrees(LinkedOk(blocks));
    var r: bool :| forall depth: nat {:trigger Inspected(depth)} :: Agree(r, LinkedOk(blocks));
    r
  }

  lemma LinkedFirst(b: Block)
    requires b.depth == 0 && b.prev == null
    ensures Linked([b])
  {
    assert Inspected(0);
  }

  lemma LinkedMore(blocks: seq<Block>, b: Block)
    requires Linked(blocks) && |blocks| > 0 && b.depth == |blocks| && b.prev == blocks[|blocks| - 1]
    ensures Linked(blocks + [b])
  {
    assert Inspected(0);
  }

  lemma LinkedLess(blocks: seq<Block>)
    requires Linked(blocks) && |blocks| > 1
    ensures Linked(blocks[..|blocks| - 1]) && blocks[|blocks| - 1].prev == blocks[|blocks| - 2]
  {
    assert Inspected(0);
  }

  lemma LinkedAt(blocks: seq<Block>, i: nat)
    requires Linked(blocks) && i < |blocks|
    ensures blocks[i].prev == PrevOf(blocks, i)
  {
    assert Inspected(0);
  }

  /** The newest block is none of the others. */
  lemma LinkedTop(blocks: seq<Block>)
    requires Linked(blocks) && |blocks| > 0
    ensures forall i :: 0 <= i < |blocks| - 1 ==> blocks[i] != blocks[|blocks| - 1]
  {
    assert Inspected(0);
  }

  function PrevOf(blocks: seq<Block>, i: nat): Block?
    requires i < |blocks|
  {
    if i == 0 then null else blocks[i - 1]
  }

  /** The addresses of blocks |blocks| - 1 down to n. */
  function StartsDownTo(blocks: seq<Block>, n: nat): seq<nat>
    requires n <= |blocks|
    decreases |blocks| - n
  {
    if n == |blocks| then [] else StartsDownTo(blocks, n + 1) + [blocks[n].start]
  }

  lemma StartsOneMore(all: seq<Block>, n: nat, before: seq<nat>)
    requires 0 < n <= |all|
    ensures before + StartsDownTo(all, n - 1) == before + StartsDownTo(all, n) + [all[n - 1].start]
  {
    assert StartsDownTo(all, n - 1) == StartsDownTo(all, n) + [all[n - 1].start];
  }

  ghost predicate UnlinkedOk(all: seq<Block>, before: seq<nat>, blocks: seq<Block>, freedBlocks: seq<nat>) {
    |blocks| <= |all| && blocks == all[..|blocks|] && freedBlocks == before + StartsDownTo(all, |blocks|)
  }

  /** Of `all` blocks those behind `blocks` have been freed, newest first; folded. */
  ghost predicate Unlinked(all: seq<Block>, before: seq<nat>, blocks: seq<Block>, freedBlocks: seq<nat>) {
    Agrees(UnlinkedOk(all, before, blocks, freedBlocks));
    var r: bool :| forall depth: nat {:trigger Inspected(depth)} ::
      Agree(r, UnlinkedOk(all, before, blocks, freedBlocks));
    r
  }

  lemma UnlinkedNone(blocks: seq<Block>, freedBlocks: seq<nat>)
    ensures Unlinked(blocks, freedBlocks, blocks, freedBlocks)
  {
    assert Inspected(0);
  }

  lemma UnlinkedMore(all: seq<Block>, before: seq<nat>, blocks: seq<Block>, freedBlocks: seq<nat>)
    requires Unlinked(all, before, blocks, freedBlocks) && |blocks| > 0
    ensures Unlinked(all, before, blocks[..|blocks| - 1], freedBlocks + [blocks[|blocks| - 1].start])
    ensures blocks[|blocks| - 1] in all
  {
    assert Inspected(0);
    StartsOneMore(all, |blocks|, before);
  }

  lemma UnlinkedMeans(all: seq<Block>, before: seq<nat>, blocks: seq<Block>, freedBlocks: seq<nat>)
    requires Unlinked(all, before, blocks, freedBlocks)
    ensures |blocks| <= |all| && blocks == all[..|blocks|]
    ensures freedBlocks == before + StartsDownTo(all, |blocks|)
  {
    assert Inspected(0);
  }

  ghost predicate RemembersOk(start: nat, used: nat, ptrs: seq<nat>, s: Span) {
    s.start == start && used == |s.kept| <= |ptrs| == CAPACITY && ptrs[..used] == s.kept
  }

  /** A block at `start` with these slots is what `s` says: its first `used` slots are the
      allocations kept; folded. */
  ghost predicate Remembers(start: nat, used: nat, ptrs: seq<nat>, s: Span) {
    Agrees(RemembersOk(start, used, ptrs, s));
    var r: bool :| forall depth: nat {:trigger Inspected(depth)} :: Agree(r, RemembersOk(start, used, ptrs, s));
    r
  }

  lemma RemembersMeans(start: nat, used: nat, ptrs: seq<nat>, s: Span)
    requires Remembers(start, used, ptrs, s)
    ensures s.start == start && used == |s.kept| <= |ptrs| == CAPACITY
  {
    assert Inspected(0);
  }

  lemma RemembersNone(start: nat, ptrs: seq<nat>)
    requires |ptrs| == CAPACITY
    ensures Remembers(start, 0, ptrs, Span(start, []))
  {
    assert Inspected(0);
  }

  lemma RemembersAdded(start: nat, used: nat, ptrs: seq<nat>, s: Span, p: nat)
    requires Remembers(start, used, ptrs, s) && used < |ptrs|
    ensures Remembers(start, used + 1, ptrs[used := p], Span(s.start, s.kept + [p]))
  {
    assert Inspected(0);
  }

  lemma RemembersDropped(start: nat, used: nat, ptrs: seq<nat>, s: Span)
    requires Remembers(start, used, ptrs, s) && used > 0
    ensures |s.kept| > 0 && used <= |ptrs| && ptrs[used - 1] == Last(s.kept)
    ensures Remembers(start, used - 1, ptrs, Span(s.start, DropLast(s.kept)))
  {
    assert Inspected(0);
  }

  ghost predicate DestroyedOk(handed: seq<nat>, chain: Chain, blocks: seq<Block>, before: seq<nat>, n: nat,
                              freed: seq<nat>, freedBlocks: seq<nat>)
  {
    n <= |chain| == |blocks| && Conserved(handed, chain[..n], freed) && freedBlocks == before + StartsDownTo(blocks, n)
  }

  /** The blocks from number n on have been freed with all they kept; folded. */
  ghost predicate Destroyed(handed: seq<nat>, chain: Chain, blocks: seq<Block>, before: seq<nat>, n: nat,
                            freed: seq<nat>, freedBlocks: seq<nat>)
  {
    Agrees(DestroyedOk(handed, chain, blocks, before, n, freed, freedBlocks));
    var r: bool :| forall depth: nat {:trigger Inspected(depth)} ::
      Agree(r, DestroyedOk(handed, chain, blocks, before, n, freed, freedBlocks));
    r
  }

  lemma DestroyedNone(chain: Chain, marks: seq<Chain>, handed: seq<nat>, blocks: seq<Block>, freed: seq<nat>,
                      freedBlocks: seq<nat>)
    requires Nest(chain, marks, handed, freed) && |blocks| == |chain|
    ensures Destroyed(handed, chain, blocks, freedBlocks, |blocks|, freed, freedBlocks)
  {
    NestConserves(chain, marks, handed, freed);
    assert Inspected(0);
  }

  lemma DestroyedMore(handed: seq<nat>, chain: Chain, blocks: seq<Block>, before: seq<nat>, n: nat, used: nat,
                      ptrs: seq<nat>, freed: seq<nat>, freedBlocks: seq<nat>)
    requires 0 < n <= |blocks| == |chain| && Destroyed(handed, chain, blocks, before, n, freed, freedBlocks)
    requires Remembers(blocks[n - 1].start, used, ptrs, chain[n - 1]) && used <= |ptrs|
    ensures Destroyed(handed, chain, blocks, before, n - 1, freed + ptrs[..used], freedBlocks + [blocks[n - 1].start])
  {
    assert Inspected(0);
    StartsOneMore(blocks, n, before);
    ConservedStep(handed, chain, n - 1, freed, freed + ptrs[..used]);
  }

  lemma DestroyedAll(handed: seq<nat>, chain: Chain, blocks: seq<Block>, before: seq<nat>, freed: seq<nat>,
                     freedBlocks: seq<nat>)
    requires Destroyed(handed, chain, blocks, before, 0, freed, freedBlocks)
    ensures multiset(freed) == multiset(handed) && freedBlocks == before + StartsDownTo(blocks, 0)
  {
    assert Inspected(0);
    ConservedMeans(handed, chain[..0], freed);
  }

  class TrackingArena {
    var top: Block
    /** The allocations and the blocks freed so far. */
    var freed: seq<nat>
    var freedBlocks: seq<nat>
    ghost var blocks: seq<Block>
    ghost var chain: Chain
    ghost var marks: seq<Chain>
    /** Every allocation ever handed out. */
    ghost var handed: seq<nat>

    ghost predicate Valid()
      reads this, blocks
    {
      && |blocks| == |chain| > 0 && Nest(chain, marks, handed, freed) && Linked(blocks)
      && top == blocks[|blocks| - 1]
      && forall i :: 0 <= i < |blocks| ==> Remembers(blocks[i].start, blocks[i].used, blocks[i].ptrs, chain[i])
    }

    constructor (at: nat)
      ensures Valid() && chain == [Span(at, [])] && marks == [] && handed == [] && freed == [] && freedBlocks == []
      ensures fresh(blocks)
    {
      var b := new Block(at, null, 0);
      top, freed, freedBlocks := b, [], [];
      blocks, chain, marks, handed := [b], [Span(at, [])], [], [];
      new;
      LinkedFirst(b);
      RemembersNone(at, b.ptrs);
      NestStart(at);
    }

    /** Hand out an allocation of its own at `p`; `at` is where a new block goes, if the
        newest one is full. */
    method Alloc(p: nat, at: nat) returns (r: nat)
      requires Valid() && Available(chain, at)
      modifies this, top`used, top`ptrs
      ensures Valid() && r == p && marks == old(marks) && freed == old(freed) && freedBlocks == old(freedBlocks)
      ensures Live(chain) == old(Live(chain)) + [p] && handed == old(handed) + [p]
      ensures chain == Allocated(old(chain), p, at)
      ensures (blocks == old(blocks) && top == old(top)) || (blocks == old(blocks) + [top] && fresh(top))
    {
      RemembersMeans(top.start, top.used, top.ptrs, Newest(chain));
      LiveAllocated(chain, p, at);
      PushedFirst(chain, p, at);
      if top.used == |top.ptrs| {
        Grow(at);
      }
      Push(p);
      r := p;
    }

    method Grow(at: nat)
      requires Valid() && Available(chain, at)
      modifies this`top, this`blocks, this`chain
      ensures Valid() && chain == old(chain) + [Span(at, [])] && top.used == 0 && |top.ptrs| == CAPACITY
      ensures fresh(top) && blocks == old(blocks) + [top]
    {
      NestGrow(chain, marks, handed, freed, at);
      top := new Block(at, top, |blocks|);
      RemembersNone(at, top.ptrs);
      LinkedMore(blocks, top);
      blocks, chain := blocks + [top], chain + [Span(at, [])];
    }

    method Push(p: nat)
      requires Valid() && top.used < |top.ptrs|
      modifies this`chain, this`handed, top`used, top`ptrs
      ensures Valid() && chain == Pushed(old(chain), p) && handed == old(handed) + [p]
    {
      RemembersMeans(top.start, top.used, top.ptrs, Newest(chain));
      NestPush(chain, marks, handed, freed, p);
      RemembersAdded(top.start, top.used, top.ptrs, Newest(chain), p);
      LinkedTop(blocks);
      top.Add(p);
      chain, handed := Pushed(chain, p), handed + [p];
    }

    /** A checkpoint is the address of the newest block's next free slot. */
    method Checkpoint() returns (checkpoint: nat)
      requires Valid()
      modifies this`marks
      ensures Valid() && marks == old(marks) + [chain] && checkpoint == CheckpointOf(chain)
    {
      RemembersMeans(top.start, top.used, top.ptrs, Newest(chain));
      checkpoint := SlotAddress(top.start, top.used);
      NestMark(chain, marks, handed, freed);
      marks := marks + [chain];
    }

    /** Release to the k-th checkpoint of the nest: what was allocated since is freed,
        newest first, and so are the blocks added since. */
    method Release(checkpoint: nat, ghost k: nat)
      requires Valid() && k < |marks| && checkpoint == CheckpointOf(marks[k])
      modifies this`top, this`freed, this`freedBlocks, this`blocks, this`chain, this`marks, blocks`used
      ensures Valid() && chain == old(marks)[k] && marks == old(marks)[..k + 1]
      ensures Live(chain) <= old(Live(chain))
      ensures freed == old(freed) + Reverse(old(Live(chain))[|Live(chain)|..])
      ensures |chain| <= |old(chain)| && blocks == old(blocks)[..|chain|]
      ensures freedBlocks == old(freedBlocks) + StartsDownTo(old(blocks), |chain|)
    {
      ghost var chain0, freed0 := chain, freed;
      NestForget(chain, marks, handed, freed, k);
      marks := marks[..k + 1];
      Unwind(checkpoint);
      ReleaseOrder(chain0, freed0, chain, freed);
    }

    /** Release to the last checkpoint. */
    method Unwind(checkpoint: nat)
      requires Valid() && |marks| > 0 && checkpoint == CheckpointOf(marks[|marks| - 1])
      modifies this`top, this`freed, this`freedBlocks, this`blocks, this`chain, blocks`used
      ensures Valid() && chain == marks[|marks| - 1]
      ensures Queue(chain, freed) == Queue(old(chain), old(freed))
      ensures |chain| <= |old(chain)| && blocks == old(blocks)[..|chain|]
      ensures freedBlocks == old(freedBlocks) + StartsDownTo(old(blocks), |chain|)
    {
      ghost var all, before := blocks, freedBlocks;
      UnlinkedNone(blocks, freedBlocks);
      while true
        invariant Valid() && Queue(chain, freed) == Queue(old(chain), old(freed))
        invariant Unlinked(all, before, blocks, freedBlocks)
        decreases |blocks|
      {
        UnlinkedMore(all, before, blocks, freedBlocks);
        var reached := UnwindBlock(checkpoint);
        if reached {
          UnlinkedMeans(all, before, blocks, freedBlocks);
          return;
        }
      }
    }

    /** Free the newest block, unless the checkpoint is reached before it is empty. */
    method UnwindBlock(checkpoint: nat) returns (reached: bool)
      requires Valid() && |marks| > 0 && checkpoint == CheckpointOf(marks[|marks| - 1])
      modifies this`top, this`freed, this`freedBlocks, this`blocks, this`chain, top`used
      ensures Valid() && Queue(chain, freed) == Queue(old(chain), old(freed))
      ensures reached ==> chain == marks[|marks| - 1] && blocks == old(blocks) && freedBlocks == old(freedBlocks)
      ensures !reached ==> blocks == old(blocks)[..|old(blocks)| - 1]
      ensures !reached ==> freedBlocks == old(freedBlocks) + [old(blocks)[|old(blocks)| - 1].start]
    {
      reached := Drain(checkpoint);
      if !reached {
        Shrink();
      }
    }

    /** Free the newest block's allocations until the checkpoint is reached or none is left. */
    method Drain(checkpoint: nat) returns (reached: bool)
      requires Valid() && |marks| > 0 && checkpoint == CheckpointOf(marks[|marks| - 1])
      modifies this`chain, this`freed, top`used
      ensures Valid() && |chain| == |old(chain)| && Queue(chain, freed) == Queue(old(chain), old(freed))
      ensures reached ==> chain == marks[|marks| - 1]
      ensures !reached ==> CheckpointOf(chain) != CheckpointOf(marks[|marks| - 1]) && top.used == 0
    {
      RemembersMeans(top.start, top.used, top.ptrs, Newest(chain));
      while SlotAddress(top.start, top.used) != checkpoint && top.used > 0
        invariant Valid() && |chain| == |old(chain)| && Queue(chain, freed) == Queue(old(chain), old(freed))
        invariant CheckpointOf(chain) == SlotAddress(top.start, top.used)
        decreases top.used
      {
        Pop();
      }
      reached := SlotAddress(top.start, top.used) == checkpoint;
      if reached {
        NestReached(chain, marks, handed, freed);
      }
    }

    /** Free the newest allocation. */
    method Pop()
      requires Valid() && |marks| > 0 && top.used > 0 && CheckpointOf(chain) != CheckpointOf(marks[|marks| - 1])
      modifies this`chain, this`freed, top`used
      ensures Valid() && |chain| == |old(chain)| && top.used == old(top.used) - 1
      ensures CheckpointOf(chain) == SlotAddress(top.start, top.used)
      ensures Queue(chain, freed) == Queue(old(chain), old(freed))
    {
      RemembersMeans(top.start, top.used, top.ptrs, Newest(chain));
      RemembersDropped(top.start, top.used, top.ptrs, Newest(chain));
      NestPop(chain, marks, handed, freed);
      QueuePopped(chain, freed);
      LinkedTop(blocks);
      top.used := top.used - 1;
      freed := freed + [top.ptrs[top.used]];
      chain := Popped(chain);
    }

    /** Free the newest block, which is empty. */
    method Shrink()
      requires Valid() && |marks| > 0 && top.used == 0 && CheckpointOf(chain) != CheckpointOf(marks[|marks| - 1])
      modifies this`chain, this`blocks, this`top, this`freedBlocks
      ensures Valid() && blocks == old(blocks)[..|old(blocks)| - 1]
      ensures freedBlocks == old(freedBlocks) + [old(blocks)[|old(blocks)| - 1].start]
      ensures Queue(chain, freed) == Queue(old(chain), old(freed))
    {
      RemembersMeans(top.start, top.used, top.ptrs, Newest(chain));
      NestShrink(chain, marks, handed, freed);
      QueueShrunk(chain, freed);
      LinkedLess(blocks);
      freedBlocks := freedBlocks + [top.start];
      top := top.prev;
      blocks, chain := blocks[..|blocks| - 1], chain[..|chain| - 1];
    }

    /** Free everything: in the end each allocation has been freed as often as it was made,
        and every block once, newest first. */
    method Destroy()
      requires Valid()
      modifies this`freed, this`freedBlocks
      ensures multiset(freed) == multiset(handed)
      ensures freedBlocks == old(freedBlocks) + StartsDownTo(blocks, 0)
    {
      var b: Block? := top;
      ghost var n := |blocks|;
      ghost var before := freedBlocks;
      DestroyedNone(chain, marks, handed, blocks, freed, freedBlocks);
      while b != null
        invariant 0 <= n <= |blocks| && b == if n == 0 then null else blocks[n - 1]
        invariant Destroyed(handed, chain, blocks, before, n, freed, freedBlocks)
        decreases n
      {
        LinkedAt(blocks, n - 1);
        RemembersMeans(b.start, b.used, b.ptrs, chain[n - 1]);
        DestroyedMore(handed, chain, blocks, before, n, b.used, b.ptrs, freed, freedBlocks);
        var prev := b.prev;
        FreeSlots(b);
        freedBlocks := freedBlocks + [b.start];
        n := n - 1;
        b := prev;
      }
      DestroyedAll(handed, chain, blocks, before, freed, freedBlocks);
    }

    /** Free a block's allocations, oldest first. */
    method FreeSlots(b: Block)
      requires b.used <= |b.ptrs|
      modifies this`freed
      ensures freed == old(freed) + b.ptrs[..b.used]
    {
      var i := 0;
      while i < b.used
        invariant 0 <= i <= b.used
        invariant freed == old(freed) + b.ptrs[..i]
      {
        freed := freed + [b.ptrs[i]];
        i := i + 1;
      }
    }
  }
}
