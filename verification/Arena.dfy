/** The block arena of zend_arena.h: a chain of blocks with a bump pointer in the newest,
    released to a checkpoint by freeing whole blocks and moving one pointer back. Block
    addresses come from the allocator underneath and are parameters here; nothing is
    assumed about them but that a new block overlaps none of the arena's own. Blocks may
    touch: one's end may be another's start. */
module Arena {
  import opened Folded

  const ADDRESS: nat := 8

  /** The aligned size of a block's own header. */
  const HEADER: nat := 24

  /** Sizes are rounded up to the next multiple of 8. */
  function Aligned(size: nat): (r: nat)
    ensures size <= r < size + 8 && r % 8 == 0
  {
    (size + 7) / 8 * 8
  }

  /** The header holds the bump pointer, the end and the block before. */
  lemma HeaderHoldsFields()
    ensures HEADER == Aligned(3 * ADDRESS)
  {
  }

  /** A block as the arena sees it: [start, ptr) is taken, [ptr, end) is not. */
  datatype Span = Span(start: nat, ptr: nat, end: nat)

  /** What an allocation handed out: `size` bytes at `at`, in the block of that number. */
  datatype Item = Item(block: nat, at: nat, size: nat)

  /** A checkpoint, the chain at that moment and how many allocations were live. */
  datatype Mark = Mark(chain: seq<Span>, height: nat)

  ghost predicate SpanOk(s: Span) {
    s.start % 8 == 0 && s.ptr % 8 == 0 && s.start + HEADER <= s.ptr <= s.end
  }

  ghost predicate Disjoint(a: Span, b: Span) {
    a.end <= b.start || b.end <= a.start
  }

  ghost predicate ChainOk(chain: seq<Span>) {
    && |chain| > 0
    && (forall i :: 0 <= i < |chain| ==> SpanOk(chain[i]))
    && forall i, j {:trigger Disjoint(chain[i], chain[j])} :: 0 <= i < j < |chain| ==> Disjoint(chain[i], chain[j])
  }

  /** Within the taken part of its block, past the header. */
  ghost predicate ItemOk(chain: seq<Span>, x: Item) {
    && x.block < |chain| && x.at % 8 == 0
    && chain[x.block].start + HEADER <= x.at && x.at + x.size <= chain[x.block].ptr
  }

  /** Allocated earlier: in an earlier block, or lower in the same one. */
  ghost predicate Before(x: Item, y: Item) {
    x.block < y.block || (x.block == y.block && x.at + x.size <= y.at)
  }

  ghost predicate ItemsOk(chain: seq<Span>, live: seq<Item>) {
    && (forall i :: 0 <= i < |live| ==> ItemOk(chain, live[i]))
    && forall i, j :: 0 <= i < j < |live| ==> Before(live[i], live[j])
  }

  /** Later in the same nest: the old blocks are all there, untouched but for the bump
      pointer of what was the newest, which may have grown. */
  ghost predicate Extends(chain: seq<Span>, old_: seq<Span>) {
    && 0 < |old_| <= |chain|
    && (forall i :: 0 <= i < |old_| - 1 ==> chain[i] == old_[i])
    && var now, then_ := chain[|old_| - 1], old_[|old_| - 1];
       now.start == then_.start && now.end == then_.end && then_.ptr <= now.ptr
  }

  ghost predicate MarkOk(chain: seq<Span>, live: seq<Item>, m: Mark) {
    && Extends(chain, m.chain) && ChainOk(m.chain)
    && m.height <= |live| && ItemsOk(m.chain, live[..m.height])
  }

  /** Checkpoints nest: each was taken later in the nest of the one before it. */
  ghost predicate MarksOk(chain: seq<Span>, live: seq<Item>, marks: seq<Mark>) {
    && (forall i :: 0 <= i < |marks| ==> MarkOk(chain, live, marks[i]))
    && forall i, j :: 0 <= i < j < |marks| ==>
         Extends(marks[j].chain, marks[i].chain) && marks[i].height <= marks[j].height
  }

  // ------------------------------------------------------------- allocating

  /** The size of the block that is added when the newest one is too full. */
  function GrownSize(top: Span, size: nat): (r: nat)
    ensures r >= Aligned(size) + HEADER
  {
    if top.start + Aligned(size) + HEADER > top.end then Aligned(size) + HEADER else top.end - top.start
  }

  /** A block that is added is as large as the newest one, unless that could not hold a
      header and the allocation: then it is just large enough for them. */
  lemma GrownSizeMeans(top: Span, size: nat)
    requires SpanOk(top)
    ensures var room, needed := top.end - top.start, Aligned(size) + HEADER;
      && GrownSize(top, size) >= room && GrownSize(top, size) >= needed
      && (GrownSize(top, size) == room || GrownSize(top, size) == needed)
  {
  }

  ghost predicate Fits(top: Span, size: nat) {
    top.ptr + Aligned(size) <= top.end
  }

  /** The chain after an allocation; `at` is the address of the new block, if one is needed. */
  ghost function Bumped(chain: seq<Span>, size: nat, at: nat): seq<Span>
    requires |chain| > 0
  {
    var n := |chain| - 1;
    if Fits(chain[n], size) then chain[n := chain[n].(ptr := chain[n].ptr + Aligned(size))]
    else chain + [Span(at, at + HEADER + Aligned(size), at + GrownSize(chain[n], size))]
  }

  /** A block is added exactly if fewer bytes are left in the newest one than are taken. */
  lemma GrowsIffNoRoom(chain: seq<Span>, size: nat, at: nat)
    requires ChainOk(chain)
    ensures var top := chain[|chain| - 1];
      |Bumped(chain, size, at)| > |chain| <==> top.end - top.ptr < Aligned(size)
    ensures |Bumped(chain, size, at)| <= |chain| + 1
  {
  }

  ghost function Taken(chain: seq<Span>, size: nat, at: nat): Item
    requires |chain| > 0
  {
    var n := |chain| - 1;
    if Fits(chain[n], size) then Item(n, chain[n].ptr, Aligned(size)) else Item(n + 1, at + HEADER, Aligned(size))
  }

  /** An allocation takes the aligned size and no more: it begins where the newest block was
      free, or behind the header of the block that is added, and ends at the new bump
      pointer; the other blocks stay as they are. */
  lemma AllocationIsTight(chain: seq<Span>, size: nat, at: nat)
    requires ChainOk(chain)
    ensures var chain', x := Bumped(chain, size, at), Taken(chain, size, at);
      && x.block == |chain'| - 1 && x.size == Aligned(size) && x.at + x.size == chain'[x.block].ptr
      && x.at == (if |chain'| == |chain| then chain[x.block].ptr else at + HEADER)
      && (|chain'| > |chain| ==> chain' == chain + [chain'[x.block]] && chain'[x.block].start == at)
      && (|chain'| == |chain| ==> chain' == chain[x.block := chain[x.block].(ptr := x.at + x.size)])
  {
  }

  /** What the allocator underneath promises about a new block. */
  ghost predicate Available(chain: seq<Span>, at: nat, size: nat) {
    at % 8 == 0 && forall i :: 0 <= i < |chain| ==> chain[i].end <= at || at + size <= chain[i].start
  }

  ghost predicate Provided(chain: seq<Span>, size: nat, at: nat)
    requires |chain| > 0
  {
    var top := chain[|chain| - 1];
    !Fits(top, size) ==> Available(chain, at, GrownSize(top, size))
  }

  /** The newest block stays well-formed, and so is the one that is added. */
  lemma BumpedSpanOk(top: Span, size: nat, at: nat)
    requires SpanOk(top) && at % 8 == 0
    ensures Fits(top, size) ==> SpanOk(top.(ptr := top.ptr + Aligned(size)))
    ensures SpanOk(Span(at, at + HEADER + Aligned(size), at + GrownSize(top, size)))
  {
    AlignedSum(top.ptr, Aligned(size));
    AlignedSum(at + HEADER, Aligned(size));
  }

  lemma AlignedSum(a: nat, b: nat)
    requires a % 8 == 0 && b % 8 == 0
    ensures (a + b) % 8 == 0
  {
  }

  lemma BumpedChainOk(chain: seq<Span>, size: nat, at: nat)
    requires ChainOk(chain) && Provided(chain, size, at)
    ensures ChainOk(Bumped(chain, size, at)) && Extends(Bumped(chain, size, at), chain)
  {
    var chain', n := Bumped(chain, size, at), |chain| - 1;
    BumpedSpanOk(chain[n], size, if Fits(chain[n], size) then 0 else at);
    forall i | 0 <= i < |chain'| ensures SpanOk(chain'[i]) {
      if i < n { assert chain'[i] == chain[i]; }
    }
    forall i, j | 0 <= i < j < |chain'| ensures Disjoint(chain'[i], chain'[j]) {
      if j <= n { assert Disjoint(chain[i], chain[j]); }
    }
  }

  lemma BumpedItemsOk(chain: seq<Span>, live: seq<Item>, size: nat, at: nat)
    requires ChainOk(chain) && ItemsOk(chain, live) && Provided(chain, size, at)
    ensures ItemsOk(Bumped(chain, size, at), live + [Taken(chain, size, at)])
  {
    var chain', x := Bumped(chain, size, at), Taken(chain, size, at);
    assert SpanOk(chain[|chain| - 1]);
    forall i | 0 <= i < |live| ensures ItemOk(chain', live[i]) && Before(live[i], x) {
      assert ItemOk(chain, live[i]);
    }
    assert ItemOk(chain', x);
  }

  lemma ExtendsTransitive(a: seq<Span>, b: seq<Span>, c: seq<Span>)
    requires Extends(a, b) && Extends(b, c)
    ensures Extends(a, c)
  {
  }

  lemma MarksSurvive(chain: seq<Span>, live: seq<Item>, marks: seq<Mark>, chain': seq<Span>, x: Item)
    requires MarksOk(chain, live, marks) && Extends(chain', chain)
    ensures MarksOk(chain', live + [x], marks)
  {
    forall i | 0 <= i < |marks| ensures MarkOk(chain', live + [x], marks[i]) {
      assert MarkOk(chain, live, marks[i]);
      ExtendsTransitive(chain', chain, marks[i].chain);
      assert (live + [x])[..marks[i].height] == live[..marks[i].height];
    }
  }

  // -------------------------------------------------------------- releasing

  /** The block that a checkpoint lies in, and no other, passes the release test. */
  ghost predicate Covers(s: Span, checkpoint: nat) {
    s.start < checkpoint <= s.end
  }

  lemma OnlyTheMarkedBlock(chain: seq<Span>, m: Mark, i: nat)
    requires ChainOk(chain) && Extends(chain, m.chain) && ChainOk(m.chain) && |m.chain| - 1 <= i < |chain|
    ensures Covers(chain[i], CheckpointOf(m)) <==> i == |m.chain| - 1
  {
    var j := |m.chain| - 1;
    assert SpanOk(m.chain[j]);
    if i > j { assert Disjoint(chain[j], chain[i]); }
  }

  lemma MarksAfterRelease(chain: seq<Span>, live: seq<Item>, marks: seq<Mark>, k: nat)
    requires MarksOk(chain, live, marks) && k < |marks|
    ensures MarksOk(marks[k].chain, live[..marks[k].height], marks[..k + 1])
  {
    var m := marks[k];
    assert MarkOk(chain, live, m);
    forall i | 0 <= i <= k ensures MarkOk(m.chain, live[..m.height], marks[i]) {
      assert MarkOk(chain, live, marks[i]);
      if i < k { assert marks[i].height <= m.height; }
      assert live[..m.height][..marks[i].height] == live[..marks[i].height];
    }
  }

  /** The addresses of blocks |chain| - 1 down to n. */
  function StartsDownTo(chain: seq<Span>, n: nat): seq<nat>
    requires n <= |chain|
    decreases |chain| - n
  {
    if n == |chain| then [] else StartsDownTo(chain, n + 1) + [chain[n].start]
  }

  /** They come newest first. */
  lemma {:induction false} StartsNewestFirst(chain: seq<Span>, n: nat, k: nat)
    requires n <= |chain| && k < |chain| - n
    ensures |StartsDownTo(chain, n)| == |chain| - n && StartsDownTo(chain, n)[k] == chain[|chain| - 1 - k].start
    decreases |chain| - n
  {
    if n + 1 < |chain| {
      StartsNewestFirst(chain, n + 1, if k < |chain| - n - 1 then k else 0);
    } else {
      assert StartsDownTo(chain, n + 1) == [];
    }
  }

  // ---------------------------------------------------------- the whole nest

  ghost predicate NestOk(chain: seq<Span>, live: seq<Item>, marks: seq<Mark>) {
    ChainOk(chain) && ItemsOk(chain, live) && MarksOk(chain, live, marks)
  }

  /** All of the above, for the chain, the live allocations and the open checkpoints; folded. */
  ghost predicate Nest(chain: seq<Span>, live: seq<Item>, marks: seq<Mark>) {
    Agrees(NestOk(chain, live, marks));
    var r: bool :| forall depth: nat {:trigger Inspected(depth)} :: Agree(r, NestOk(chain, live, marks));
    r
  }

  lemma NestMeans(chain: seq<Span>, live: seq<Item>, marks: seq<Mark>)
    ensures Nest(chain, live, marks) <==> ChainOk(chain) && ItemsOk(chain, live) && MarksOk(chain, live, marks)
  {
    assert Inspected(0);
  }

  /** An arena needs room for its own header. */
  lemma NestStart(size: nat, at: nat)
    requires at % 8 == 0
    ensures Nest([Span(at, at + HEADER, at + size)], [], []) <==> size >= HEADER
  {
    assert Inspected(0);
    assert SpanOk([Span(at, at + HEADER, at + size)][0]) <==> size >= HEADER;
  }

  lemma NestBasics(chain: seq<Span>, live: seq<Item>, marks: seq<Mark>)
    requires Nest(chain, live, marks)
    ensures |chain| > 0 && SpanOk(chain[|chain| - 1])
  {
    assert Inspected(0);
  }

  lemma NestAlloc(chain: seq<Span>, live: seq<Item>, marks: seq<Mark>, size: nat, at: nat)
    requires Nest(chain, live, marks) && |chain| > 0 && Provided(chain, size, at)
    ensures Nest(Bumped(chain, size, at), live + [Taken(chain, size, at)], marks)
  {
    assert Inspected(0);
    BumpedChainOk(chain, size, at);
    BumpedItemsOk(chain, live, size, at);
    MarksSurvive(chain, live, marks, Bumped(chain, size, at), Taken(chain, size, at));
  }

  lemma NestMark(chain: seq<Span>, live: seq<Item>, marks: seq<Mark>)
    requires Nest(chain, live, marks)
    ensures Nest(chain, live, marks + [Mark(chain, |live|)])
  {
    assert Inspected(0);
    assert live[..|live|] == live;
    forall i | 0 <= i < |marks| ensures Extends(chain, marks[i].chain) && marks[i].height <= |live| {
      assert MarkOk(chain, live, marks[i]);
    }
  }

  lemma NestRelease(chain: seq<Span>, live: seq<Item>, marks: seq<Mark>, k: nat)
    requires Nest(chain, live, marks) && k < |marks|
    ensures Extends(chain, marks[k].chain) && marks[k].height <= |live|
    ensures Nest(marks[k].chain, live[..marks[k].height], marks[..k + 1])
    ensures forall i :: |marks[k].chain| - 1 <= i < |chain| ==>
      (Covers(chain[i], CheckpointOf(marks[k])) <==> i == |marks[k].chain| - 1)
  {
    assert Inspected(0);
    MarksAfterRelease(chain, live, marks, k);
    assert MarkOk(chain, live, marks[k]);
    forall i | |marks[k].chain| - 1 <= i < |chain|
      ensures Covers(chain[i], CheckpointOf(marks[k])) <==> i == |marks[k].chain| - 1
    {
      OnlyTheMarkedBlock(chain, marks[k], i);
    }
  }

  /** A live allocation is aligned and off the headers of all blocks, and it lies in the
      taken part of its own block. */
  lemma LiveItemPlaced(chain: seq<Span>, live: seq<Item>, marks: seq<Mark>, i: nat, b: nat)
    requires Nest(chain, live, marks) && i < |live| && b < |chain|
    ensures live[i].at % 8 == 0
    ensures live[i].at + live[i].size <= chain[b].start || chain[b].start + HEADER <= live[i].at
    ensures live[i].block < |chain| && live[i].at + live[i].size <= chain[live[i].block].ptr
    ensures chain[live[i].block].start + HEADER <= live[i].at && chain[live[i].block].ptr <= chain[live[i].block].end
  {
    assert Inspected(0);
    var x := live[i];
    assert ItemOk(chain, x) && SpanOk(chain[x.block]) && SpanOk(chain[b]);
    if x.block < b { assert Disjoint(chain[x.block], chain[b]); }
    if b < x.block { assert Disjoint(chain[b], chain[x.block]); }
  }

  /** No two live allocations share a byte. */
  lemma LiveItemsApart(chain: seq<Span>, live: seq<Item>, marks: seq<Mark>, i: nat, j: nat)
    requires Nest(chain, live, marks) && i < j < |live|
    ensures live[i].at + live[i].size <= live[j].at || live[j].at + live[j].size <= live[i].at
  {
    assert Inspected(0);
    var x, y := live[i], live[j];
    assert ItemOk(chain, x) && ItemOk(chain, y) && Before(x, y);
    assert SpanOk(chain[x.block]) && SpanOk(chain[y.block]);
    if x.block < y.block { assert Disjoint(chain[x.block], chain[y.block]); }
  }

  /** Every byte of a live allocation passes the arena's containment test. */
  lemma LiveItemsContained(chain: seq<Span>, live: seq<Item>, marks: seq<Mark>, i: nat, p: nat)
    requires Nest(chain, live, marks) && i < |live| && live[i].at <= p < live[i].at + live[i].size
    ensures exists b :: 0 <= b < |chain| && chain[b].start < p <= chain[b].ptr
  {
    assert Inspected(0);
    assert ItemOk(chain, live[i]);
    assert chain[live[i].block].start < p <= chain[live[i].block].ptr;
  }

  function CheckpointOf(m: Mark): nat {
    if m.chain == [] then 0 else m.chain[|m.chain| - 1].ptr
  }

  // -------------------------------------------------------------- the arena

  class Block {
    const start: nat
    const end: nat
    const prev: Block?
    /** How many blocks the chain had before this one. */
    ghost const depth: nat
    var ptr: nat

    constructor (start: nat, ptr: nat, end: nat, prev: Block?, ghost depth: nat)
      ensures this.start == start && this.ptr == ptr && this.end == end && this.prev == prev && this.depth == depth
    {
      this.start, this.ptr, this.end, this.prev, this.depth := start, ptr, end, prev, depth;
    }
  }

  function PrevOf(blocks: seq<Block>, i: nat): Block?
    requires i < |blocks|
  {
    if i == 0 then null else blocks[i - 1]
  }

  ghost predicate LinkedOk(blocks: seq<Block>) {
    && (forall i :: 0 <= i < |blocks| ==> blocks[i].depth == i)
    && forall i {:trigger blocks[i].prev} :: 0 <= i < |blocks| ==> blocks[i].prev == PrevOf(blocks, i)
  }

  /** Each block points to the one before it; folded. */
  ghost predicate Linked(blocks: seq<Block>) {
    Agrees(LinkedOk(blocks));
    var r: bool :| forall depth: nat {:trigger Inspected(depth)} :: Agree(r, LinkedOk(blocks));
    r
  }

  lemma LinkedFirst(b: Block)
    requires b.depth == 0 && b.prev == null
    ensures Linked([b])
  {
    assert Inspected(0);
  }

  lemma LinkedMore(blocks: seq<Block>, b: Block)
    requires Linked(blocks) && |blocks| > 0 && b.depth == |blocks| && b.prev == blocks[|blocks| - 1]
    ensures Linked(blocks + [b])
  {
    assert Inspected(0);
  }

  lemma LinkedUpTo(blocks: seq<Block>, n: nat)
    requires Linked(blocks) && n <= |blocks|
    ensures Linked(blocks[..n])
  {
    assert Inspected(0);
  }

  lemma LinkedAt(blocks: seq<Block>, i: nat)
    requires Linked(blocks) && i < |blocks|
    ensures blocks[i].prev == PrevOf(blocks, i)
    ensures forall j :: 0 <= j < |blocks| && j != i ==> blocks[j] != blocks[i]
  {
    assert Inspected(0);
  }

  class BlockArena {
    var top: Block
    /** The blocks given back so far. */
    var freed: seq<nat>
    ghost var blocks: seq<Block>
    ghost var chain: seq<Span>
    ghost var live: seq<Item>
    ghost var marks: seq<Mark>

    ghost predicate Valid()
      reads this, blocks
    {
      && |blocks| == |chain| > 0 && Nest(chain, live, marks) && Linked(blocks) && top == blocks[|blocks| - 1]
      && forall i :: 0 <= i < |blocks| ==> chain[i] == Span(blocks[i].start, blocks[i].ptr, blocks[i].end)
    }

    constructor (size: nat, at: nat)
      requires at % 8 == 0
      ensures chain == [Span(at, at + HEADER, at + size)] && live == [] && marks == [] && freed == []
      ensures Valid() <==> size >= HEADER
      ensures fresh(blocks)
    {
      var b := new Block(at, at + HEADER, at + size, null, 0);
      top, freed := b, [];
      blocks, chain, live, marks := [b], [Span(at, at + HEADER, at + size)], [], [];
      new;
      LinkedFirst(b);
      NestStart(size, at);
    }

    method Alloc(size: nat, at: nat) returns (p: nat)
      requires Valid() && Provided(chain, size, at)
      modifies this`top, this`blocks, this`chain, this`live, top`ptr
      ensures Valid() && chain == Bumped(old(chain), size, at) && marks == old(marks) && freed == old(freed)
      ensures live == old(live) + [Taken(old(chain), size, at)] && p == live[|old(live)|].at
      ensures fresh(set b | b in blocks && b !in old(blocks))
    {
      NestBasics(chain, live, marks);
      NestAlloc(chain, live, marks, size, at);
      live := live + [Taken(chain, size, at)];
      chain := Bumped(chain, size, at);
      p := top.ptr;
      LinkedAt(blocks, |blocks| - 1);
      if Aligned(size) <= top.end - p {
        top.ptr := p + Aligned(size);
      } else {
        var room := top.end - top.start;
        var grown := if Aligned(size) + HEADER > room then Aligned(size) + HEADER else room;
        p := at + HEADER;
        top := new Block(at, at + HEADER + Aligned(size), at + grown, top, |blocks|);
        LinkedMore(blocks, top);
        blocks := blocks + [top];
      }
    }

    /** A checkpoint is the bump pointer of the newest block. */
    method Checkpoint() returns (checkpoint: nat)
      requires Valid()
      modifies this`marks
      ensures Valid() && marks == old(marks) + [Mark(chain, |live|)] && checkpoint == chain[|chain| - 1].ptr
    {
      checkpoint := top.ptr;
      NestMark(chain, live, marks);
      marks := marks + [Mark(chain, |live|)];
    }

    /** Release to the k-th checkpoint of the nest: the chain, its bump pointers and the
        live allocations are those of the moment it was taken. */
    method Release(checkpoint: nat, ghost k: nat)
      requires Valid() && k < |marks| && checkpoint == CheckpointOf(marks[k])
      modifies this, blocks`ptr
      ensures Valid() && chain == old(marks)[k].chain && marks == old(marks)[..k + 1]
      ensures old(marks)[k].height <= |old(live)| && live == old(live)[..old(marks)[k].height]
      ensures |chain| <= |old(chain)| && freed == old(freed) + StartsDownTo(old(chain), |chain|)
      ensures blocks == old(blocks)[..|chain|]
    {
      ghost var m := marks[k];
      NestRelease(chain, live, marks, k);
      Unwind(checkpoint, |m.chain| - 1);
      ghost var n := |m.chain|;
      LinkedUpTo(blocks, n);
      LinkedAt(blocks, n - 1);
      top.ptr := checkpoint;
      blocks, chain, live, marks := blocks[..n], m.chain, live[..m.height], marks[..k + 1];
    }

    /** Free blocks from the newest down to the one that holds the checkpoint. */
    method Unwind(checkpoint: nat, ghost j: nat)
      requires Valid() && j < |chain|
      requires forall i :: j <= i < |chain| ==> (Covers(chain[i], checkpoint) <==> i == j)
      modifies this`top, this`freed
      ensures top == blocks[j] && freed == old(freed) + StartsDownTo(chain, j + 1)
    {
      ghost var n := |blocks| - 1;
      while checkpoint > top.end || checkpoint <= top.start
        invariant j <= n < |blocks| && top == blocks[n]
        invariant freed == old(freed) + StartsDownTo(chain, n + 1)
        decreases n
      {
        assert !Covers(chain[n], checkpoint);
        LinkedAt(blocks, n);
        freed := freed + [top.start];
        top := top.prev;
        n := n - 1;
      }
      assert Covers(chain[n], checkpoint);
    }

    /** Whether an address lies behind a block's start and not past its bump pointer. */
    method Contains(p: nat) returns (found: bool)
      requires Valid()
      ensures found <==> exists i :: 0 <= i < |chain| && chain[i].start < p <= chain[i].ptr
    {
      var b: Block? := top;
      ghost var n := |blocks|;
      while b != null
        invariant 0 <= n <= |blocks| && b == if n == 0 then null else blocks[n - 1]
        invariant forall i :: n <= i < |chain| ==> !(chain[i].start < p <= chain[i].ptr)
        decreases n
      {
        LinkedAt(blocks, n - 1);
        if p > b.start && p <= b.ptr {
          assert chain[n - 1].start < p <= chain[n - 1].ptr;
          return true;
        }
        b := b.prev;
        n := n - 1;
      }
      return false;
    }

    /** Give every block back, newest first. */
    method Destroy()
      requires Valid()
      modifies this`freed
      ensures freed == old(freed) + StartsDownTo(chain, 0)
    {
      var b: Block? := top;
      ghost var n := |blocks|;
      while b != null
        invariant 0 <= n <= |blocks| && b == if n == 0 then null else blocks[n - 1]
        invariant freed == old(freed) + StartsDownTo(chain, n)
        decreases n
      {
        LinkedAt(blocks, n - 1);
        var prev := b.prev;
        freed := freed + [b.start];
        b := prev;
        n := n - 1;
      }
    }
  }
}
