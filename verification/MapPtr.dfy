/** The map_ptr table of zend.c: one buffer whose static region grows at the front and
    whose request region grows at the back. A handed-out offset is taken relative to the
    end of the static region, so that it stays good while the buffer moves and grows. */
module MapPtr {

  /** What a slot holds; 0 is the null pointer. */
  type Ptr = nat

  const CHUNK: nat := 4096
  const ADDRESS: nat := 8

  /** Sizes are rounded up to whole chunks. */
  function Chunked(n: nat): (r: nat)
    ensures n <= r < n + CHUNK && r % CHUNK == 0
  {
    (n + 4095) / 4096 * 4096
  }

  /** Where slot number k of the static region lies, from the region's end. Chunks were
      added at the front: [8192..12287][4096..8191][0..4095]. */
  function StaticPosition(k: nat): (r: int)
    ensures 0 <= r + Chunked(k + 1) && r < 0
  {
    k % CHUNK - Chunked(k + 1)
  }

  /** An offset is in bytes, with the lowest bit set to tell it from a pointer. */
  function OffsetOf(position: int): int {
    8 * position + 1
  }

  lemma StaticPositionsApart(k: nat, l: nat)
    requires StaticPosition(k) == StaticPosition(l)
    ensures k == l
  {
    assert k % CHUNK == (StaticPosition(k) + Chunked(k + 1)) % CHUNK;
  }

  /** An offset is odd, which no pointer to a slot is, and one more than the distance in
      bytes from the end of the static region. */
  lemma OffsetMeans(position: int)
    ensures OffsetOf(position) % 2 == 1 && OffsetOf(position) - 1 == ADDRESS * position
  {
    assert OffsetOf(position) == 2 * (4 * position) + 1;
  }

  /** The static positions taken when `last` of `size` slots are: all of the older chunks
      and the first ones of the newest, which is in front. */
  predicate StaticTaken(last: nat, size: nat, r: int) {
    0 <= size + r < size && (r < last - 2 * size + CHUNK || r >= CHUNK - size)
  }

  lemma StaticPositionTaken(k: nat, last: nat, size: nat)
    requires k < last <= size && size % CHUNK == 0 && size < last + CHUNK
    ensures StaticTaken(last, size, StaticPosition(k))
  {
  }

  lemma TakenByStaticPosition(last: nat, size: nat, r: int) returns (k: nat)
    requires last <= size && size % CHUNK == 0 && size < last + CHUNK && StaticTaken(last, size, r)
    ensures k < last && StaticPosition(k) == r
  {
    var chunks := (0 - r + 4095) / 4096;
    var place := r + CHUNK * chunks;
    assert 0 <= place < CHUNK;
    k := CHUNK * (chunks - 1) + place;
    assert Chunked(k + 1) == CHUNK * chunks && k % CHUNK == place;
  }

  /** Null slots at positions from .. to - 1. */
  ghost function Nulls(from: nat, to: nat): (m: map<int, Ptr>)
    ensures forall r :: r in m <==> from <= r < to
    ensures forall r :: r in m ==> m[r] == 0
  {
    if to <= from then map[] else Nulls(from, to - 1)[to - 1 := 0]
  }

  class Table {
    var buffer: array<Ptr>
    /** Request slots in use and allocated, and how many of them outlive a request. */
    var last: nat
    var size: nat
    var globalLast: nat
    var staticLast: nat
    var staticSize: nat
    /** The live slots by position, with what they hold. */
    ghost var contents: map<int, Ptr>

    ghost predicate Live(r: int)
      reads this
    {
      0 <= r < last || StaticTaken(staticLast, staticSize, r)
    }

    ghost predicate Valid()
      reads this, buffer
    {
      && globalLast <= last <= size
      && staticLast <= staticSize && staticSize % CHUNK == 0 && (staticSize == 0 || staticSize < staticLast + CHUNK)
      && buffer.Length >= staticSize + size
      && (forall r :: r in contents <==> Live(r))
      && forall r :: r in contents ==> buffer[staticSize + r] == contents[r]
    }

    constructor ()
      ensures Valid() && contents == map[] && last == size == globalLast == staticLast == staticSize == 0
      ensures fresh(buffer)
    {
      buffer := new Ptr[0];
      last, size, globalLast, staticLast, staticSize := 0, 0, 0, 0, 0;
      contents := map[];
    }

    /** The k-th static slot is live, at the place its number gives, wherever the buffer is now. */
    lemma StaticSlotLive(k: nat)
      requires Valid() && k < staticLast
      ensures StaticPosition(k) in contents
      ensures 0 <= staticSize - Chunked(k + 1) + k % CHUNK < buffer.Length
      ensures buffer[staticSize - Chunked(k + 1) + k % CHUNK] == contents[StaticPosition(k)]
    {
      StaticPositionTaken(k, staticLast, staticSize);
      assert Live(StaticPosition(k));
    }

    /** Nothing else in front of the request region is live. */
    lemma OnlyStaticSlotsInFront(r: int) returns (k: nat)
      requires Valid() && r in contents && r < 0
      ensures k < staticLast && StaticPosition(k) == r
    {
      assert Live(r);
      k := TakenByStaticPosition(staticLast, staticSize, r);
    }

    /** Make room for `size'` request slots; the buffer may move, and new room is not cleared. */
    method Reallocate(size': nat)
      requires Valid() && size' >= last
      modifies this`buffer, this`size
      ensures Valid() && size == size' && fresh(buffer)
    {
      var moved := new Ptr[staticSize + size'];
      var i, n, from := 0, staticSize + last, buffer;
      while i < n
        invariant 0 <= i <= n && buffer == from && staticSize == old(staticSize)
        invariant forall j :: 0 <= j < i ==> moved[j] == from[j]
      {
        moved[i] := from[i];
        i := i + 1;
      }
      buffer, size := moved, size';
    }

    /** A new request slot, null at first. */
    method New() returns (offset: int)
      requires Valid()
      modifies this`buffer, this`size, this`last, this`contents, buffer
      ensures Valid() && globalLast == old(globalLast) && (buffer == old(buffer) || fresh(buffer))
      ensures offset == OffsetOf(old(last)) && last == old(last) + 1
      ensures size == if old(last) >= old(size) then Chunked(old(last) + 1) else old(size)
      ensures old(last) !in old(contents) && contents == old(contents)[old(last) := 0]
    {
      if last >= size {
        Reallocate(Chunked(last + 1));
      }
      buffer[staticSize + last] := 0;
      contents := contents[last as int := 0];
      offset := OffsetOf(last);
      last := last + 1;
    }

    /** One more chunk at the front of the static region. */
    method AddChunk()
      requires Valid() && staticLast == staticSize
      modifies this`buffer, this`staticSize
      ensures globalLast <= last <= size && buffer.Length >= staticSize + size && fresh(buffer)
      ensures staticSize == old(staticSize) + CHUNK
      ensures forall r :: r in contents ==>
        CHUNK <= staticSize + r < staticSize + last && buffer[staticSize + r] == contents[r]
    {
      var moved := new Ptr[staticSize + CHUNK + size];
      var i, n, from := 0, last + staticSize, buffer;
      while i < n
        invariant 0 <= i <= n && buffer == from && staticSize == old(staticSize)
        invariant forall j :: 0 <= j < i ==> moved[CHUNK + j] == from[j]
      {
        moved[CHUNK + i] := from[i];
        i := i + 1;
      }
      forall r | r in contents ensures 0 <= staticSize + r < n && moved[staticSize + CHUNK + r] == contents[r] {
        assert Live(r);
        assert moved[CHUNK + (staticSize + r)] == from[staticSize + r];
      }
      buffer, staticSize := moved, staticSize + CHUNK;
    }

    /** A new static slot, null at first; the k-th of them is always at StaticPosition(k). */
    method NewStatic() returns (offset: int)
      requires Valid()
      modifies this`buffer, this`staticSize, this`staticLast, this`contents, buffer
      ensures Valid() && last == old(last) && globalLast == old(globalLast)
      ensures buffer == old(buffer) || fresh(buffer)
      ensures staticSize == if old(staticLast) >= old(staticSize) then old(staticSize) + CHUNK else old(staticSize)
      ensures offset == OffsetOf(StaticPosition(old(staticLast))) && staticLast == old(staticLast) + 1
      ensures StaticPosition(old(staticLast)) !in old(contents)
      ensures contents == old(contents)[StaticPosition(old(staticLast)) := 0]
    {
      if staticLast >= staticSize {
        AddChunk();
      }
      var i := staticLast % CHUNK;
      buffer[i] := 0;
      offset := OffsetOf(i - staticSize);
      contents := contents[i - staticSize := 0];
      staticLast := staticLast + 1;
    }

    /** Bring the request region up to `last'` slots, the new ones null. */
    method Extend(last': nat)
      requires Valid()
      modifies this`buffer, this`size, this`last, this`contents, buffer
      ensures Valid() && globalLast == old(globalLast) && last == if last' > old(last) then last' else old(last)
      ensures buffer == old(buffer) || fresh(buffer)
      ensures size == if last' > old(last) && last' >= old(size) then Chunked(last') else old(size)
      ensures old(contents).Keys !! Nulls(old(last), last).Keys && contents == old(contents) + Nulls(old(last), last)
    {
      if last' > last {
        if last' >= size {
          Reallocate(Chunked(last'));
        }
        forall i | staticSize + last <= i < staticSize + last' {
          buffer[i] := 0;
        }
        contents := contents + Nulls(last, last');
        last := last';
      }
    }

    /** At the end of a request its own slots are dropped; those below the global mark stay. */
    method Reset()
      requires Valid()
      modifies this`last, this`contents
      ensures Valid() && last == globalLast
      ensures contents == map r | r in old(contents) && r < globalLast :: old(contents)[r]
    {
      last := globalLast;
      contents := map r | r in contents && r < globalLast :: contents[r];
    }

    /** The slots in use now outlive every request. */
    method EndStartup()
      requires Valid()
      modifies this`globalLast
      ensures Valid() && globalLast == last
    {
      globalLast := last;
    }

    /** What the slot of an offset holds. */
    method Get(offset: int) returns (p: Ptr)
      requires Valid() && exists r :: r in contents && offset == OffsetOf(r)
      ensures forall r :: r in contents && offset == OffsetOf(r) ==> p == contents[r]
    {
      p := buffer[staticSize + (offset - 1) / 8];
    }

    method Put(offset: int, p: Ptr)
      requires Valid() && exists r :: r in contents && offset == OffsetOf(r)
      modifies this`contents, buffer
      ensures Valid() && contents == old(contents)[(offset - 1) / 8 := p]
    {
      buffer[staticSize + (offset - 1) / 8] := p;
      contents := contents[(offset - 1) / 8 := p];
    }
  }
}
