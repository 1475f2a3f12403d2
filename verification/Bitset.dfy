/** The bitsets of zend_bitset.h: arrays of words that stand for sets of numbers. */
module Bitset {
  import opened BitWord

  predicate Has(ws: seq<Word>, n: nat) {
    n / 64 < |ws| && Bit(ws[n / 64], n % 64)
  }

  /** The set that the words stand for. */
  function Members(ws: seq<Word>): (s: set<nat>)
    ensures forall n: nat :: n in s <==> Has(ws, n)
  {
    set n: nat | n < 64 * |ws| && Has(ws, n)
  }

  /** Words needed for n bits: just enough. */
  function WordsFor(n: nat): (r: nat)
    ensures 64 * (r - 1) < n <= 64 * r
  {
    (n + 63) / 64
  }

  // ------------------------------------------------------------ single members

  lemma OneChanged(ws: seq<Word>, i: nat, w: Word, n: nat)
    requires i < |ws| && n / 64 == i
    requires forall k: nat :: k < 64 && k != n % 64 ==> Bit(w, k) == Bit(ws[i], k)
    ensures Bit(w, n % 64) ==> Members(ws[i := w]) == Members(ws) + {n}
    ensures !Bit(w, n % 64) ==> Members(ws[i := w]) == Members(ws) - {n}
  {
    forall m: nat | m != n ensures Has(ws[i := w], m) == Has(ws, m) {
      if m / 64 == i { assert m % 64 != n % 64; }
    }
  }

  method In(set_: array<Word>, n: nat) returns (r: bool)
    requires n / 64 < set_.Length
    ensures r <==> n in Members(set_[..])
  {
    BitRight(set_[n / 64], n % 64, 0);
    r := Right(set_[n / 64], n % 64) % 2 == 1;
  }

  method Incl(set_: array<Word>, n: nat)
    requires n / 64 < set_.Length
    modifies set_
    ensures Members(set_[..]) == old(Members(set_[..])) + {n}
  {
    var i, b, w := n / 64, n % 64, set_[n / 64];
    var changed := Op(Or, w, OneWord(b));
    forall k: nat ensures Bit(changed, k) <==> Bit(w, k) || k == b {
      BitCombined(Or, w, One(b), k);
      BitOne(b, k);
    }
    ghost var before := set_[..];
    OneChanged(before, i, changed, n);
    set_[i] := changed;
    assert set_[..] == before[i := changed];
  }

  method Excl(set_: array<Word>, n: nat)
    requires n / 64 < set_.Length
    modifies set_
    ensures Members(set_[..]) == old(Members(set_[..])) - {n}
    ensures forall k :: 0 <= k < set_.Length && k != n / 64 ==> set_[k] == old(set_[k])
  {
    var i, b, w := n / 64, n % 64, set_[n / 64];
    var changed := Op(AndNot, w, OneWord(b));
    forall k: nat ensures Bit(changed, k) <==> Bit(w, k) && k != b {
      BitCombined(AndNot, w, One(b), k);
      BitOne(b, k);
    }
    ghost var before := set_[..];
    OneChanged(before, i, changed, n);
    set_[i] := changed;
    assert set_[..] == before[i := changed];
  }

  // ---------------------------------------------------------------- whole sets

  function ALL(): Word {
    0xffff_ffff_ffff_ffff
  }

  lemma AllBits(k: nat)
    requires k < 64
    ensures Bit(ALL(), k)
  {
    One64();
    LowOnes(64, k);
  }

  lemma {:induction false} LowOnes(n: nat, k: nat)
    requires k < n
    ensures Bit(One(n) - 1, k)
    decreases n
  {
    assert (One(n) - 1) / 2 == One(n - 1) - 1;
    if k > 0 { LowOnes(n - 1, k - 1); }
  }

  /** A word without bits is zero. */
  lemma NoBitsZero(w: Word)
    requires forall k: nat :: k < 64 ==> !Bit(w, k)
    ensures w == 0
  {
    forall k: nat ensures Bit(w, k) == Bit(0, k) {
      ZeroHasNoBits(k);
      if k >= 64 { WordBits(w, k); }
    }
    SameBits(w, 0);
  }

  lemma HasBit(w: Word) returns (k: nat)
    requires w != 0
    ensures k < 64 && Bit(w, k)
  {
    if exists j: nat :: j < 64 && Bit(w, j) {
      k :| k < 64 && Bit(w, k);
    } else {
      NoBitsZero(w);
    }
  }

  method Clear(set_: array<Word>, len: nat)
    requires len <= set_.Length
    modifies set_
    ensures Members(set_[..len]) == {} && set_[len..] == old(set_[len..])
  {
    forall i | 0 <= i < len { set_[i] := 0; }
    forall n: nat ensures !Has(set_[..len], n) {
      ZeroHasNoBits(n % 64);
    }
  }

  method Fill(set_: array<Word>, len: nat)
    requires len <= set_.Length
    modifies set_
    ensures forall n: nat :: n in Members(set_[..len]) <==> n < 64 * len
    ensures set_[len..] == old(set_[len..])
  {
    forall i | 0 <= i < len { set_[i] := ALL(); }
    forall n: nat | n < 64 * len ensures Has(set_[..len], n) {
      AllBits(n % 64);
    }
  }

  method Copy(set1: array<Word>, set2: array<Word>, len: nat)
    requires len <= set1.Length && len <= set2.Length
    modifies set1
    ensures Members(set1[..len]) == old(Members(set2[..len])) && set1[len..] == old(set1[len..])
  {
    forall i | 0 <= i < len { set1[i] := set2[i]; }
    assert set1[..len] == old(set2[..len]);
  }

  method Empty(set_: array<Word>, len: nat) returns (r: bool)
    requires len <= set_.Length
    ensures r <==> Members(set_[..len]) == {}
  {
    var i := 0;
    while i < len
      invariant 0 <= i <= len
      invariant forall n: nat :: n / 64 < i ==> !Has(set_[..len], n)
    {
      if set_[i] != 0 {
        var k := HasBit(set_[i]);
        assert Has(set_[..len], 64 * i + k);
        return false;
      }
      forall n: nat | n / 64 == i ensures !Has(set_[..len], n) { ZeroHasNoBits(n % 64); }
      i := i + 1;
    }
    return true;
  }

  /** Sets are the same only if their words are. */
  lemma SameMembers(a: seq<Word>, b: seq<Word>, i: nat)
    requires |a| == |b| && i < |a| && Members(a) == Members(b)
    ensures a[i] == b[i]
  {
    forall k: nat ensures Bit(a[i], k) == Bit(b[i], k) {
      if k < 64 {
        assert Has(a, 64 * i + k) == Has(b, 64 * i + k);
      } else {
        WordBits(a[i], k);
        WordBits(b[i], k);
      }
    }
    SameBits(a[i], b[i]);
  }

  method Equal(set1: array<Word>, set2: array<Word>, len: nat) returns (r: bool)
    requires len <= set1.Length && len <= set2.Length
    ensures r <==> Members(set1[..len]) == Members(set2[..len])
  {
    if Members(set1[..len]) == Members(set2[..len]) {
      forall i | 0 <= i < len ensures set1[i] == set2[i] {
        SameMembers(set1[..len], set2[..len], i);
      }
    }
    r := set1[..len] == set2[..len];
  }

  // ------------------------------------------------------------------- algebra

  /** What an operator on all words does to the sets. */
  lemma CombinedMembers(op: Operator, a: seq<Word>, b: seq<Word>, c: seq<Word>)
    requires |a| == |b| == |c| && forall k :: 0 <= k < |a| ==> c[k] == Op(op, a[k], b[k])
    ensures forall n: nat :: n in Members(c) <==> Meets(op, n in Members(a), n in Members(b))
  {
    forall n: nat ensures Has(c, n) <==> Meets(op, Has(a, n), Has(b, n)) {
      if n / 64 < |a| {
        BitCombined(op, a[n / 64], b[n / 64], n % 64);
      }
    }
  }

  method Intersection(set1: array<Word>, set2: array<Word>, len: nat)
    requires len <= set1.Length && len <= set2.Length
    modifies set1
    ensures Members(set1[..len]) == old(Members(set1[..len])) * old(Members(set2[..len]))
    ensures set1[len..] == old(set1[len..])
  {
    var i := 0;
    while i < len
      invariant 0 <= i <= len
      invariant forall k :: 0 <= k < i ==> set1[k] == Op(And, old(set1[k]), old(set2[k]))
      invariant forall k :: i <= k < set1.Length ==> set1[k] == old(set1[k])
      invariant forall k :: i <= k < set2.Length ==> set2[k] == old(set2[k])
    {
      set1[i] := Op(And, set1[i], set2[i]);
      i := i + 1;
    }
    CombinedMembers(And, old(set1[..len]), old(set2[..len]), set1[..len]);
  }

  method Union(set1: array<Word>, set2: array<Word>, len: nat)
    requires len <= set1.Length && len <= set2.Length
    modifies set1
    ensures Members(set1[..len]) == old(Members(set1[..len])) + old(Members(set2[..len]))
    ensures set1[len..] == old(set1[len..])
  {
    var i := 0;
    while i < len
      invariant 0 <= i <= len
      invariant forall k :: 0 <= k < i ==> set1[k] == Op(Or, old(set1[k]), old(set2[k]))
      invariant forall k :: i <= k < set1.Length ==> set1[k] == old(set1[k])
      invariant forall k :: i <= k < set2.Length ==> set2[k] == old(set2[k])
    {
      set1[i] := Op(Or, set1[i], set2[i]);
      i := i + 1;
    }
    CombinedMembers(Or, old(set1[..len]), old(set2[..len]), set1[..len]);
  }

  method Difference(set1: array<Word>, set2: array<Word>, len: nat)
    requires len <= set1.Length && len <= set2.Length
    modifies set1
    ensures Members(set1[..len]) == old(Members(set1[..len])) - old(Members(set2[..len]))
    ensures set1[len..] == old(set1[len..])
  {
    var i := 0;
    while i < len
      invariant 0 <= i <= len
      invariant forall k :: 0 <= k < i ==> set1[k] == Op(AndNot, old(set1[k]), old(set2[k]))
      invariant forall k :: i <= k < set1.Length ==> set1[k] == old(set1[k])
      invariant forall k :: i <= k < set2.Length ==> set2[k] == old(set2[k])
    {
      set1[i] := Op(AndNot, set1[i], set2[i]);
      i := i + 1;
    }
    CombinedMembers(AndNot, old(set1[..len]), old(set2[..len]), set1[..len]);
  }

  method UnionWithIntersection(set1: array<Word>, set2: array<Word>, set3: array<Word>, set4: array<Word>, len: nat)
    requires len <= set1.Length && len <= set2.Length && len <= set3.Length && len <= set4.Length
    modifies set1
    ensures Members(set1[..len]) ==
      old(Members(set2[..len])) + (old(Members(set3[..len])) * old(Members(set4[..len])))
    ensures set1[len..] == old(set1[len..])
  {
    ghost var inner := [];
    var i := 0;
    while i < len
      invariant 0 <= i <= len && |inner| == i
      invariant forall k :: 0 <= k < i ==> inner[k] == Op(And, old(set3[k]), old(set4[k]))
      invariant forall k :: 0 <= k < i ==> set1[k] == Op(Or, old(set2[k]), inner[k])
      invariant forall k :: i <= k < set1.Length ==> set1[k] == old(set1[k])
      invariant forall k :: i <= k < set2.Length ==> set2[k] == old(set2[k])
      invariant forall k :: i <= k < set3.Length ==> set3[k] == old(set3[k])
      invariant forall k :: i <= k < set4.Length ==> set4[k] == old(set4[k])
    {
      inner := inner + [Op(And, set3[i], set4[i])];
      set1[i] := Op(Or, set2[i], Op(And, set3[i], set4[i]));
      i := i + 1;
    }
    CombinedMembers(And, old(set3[..len]), old(set4[..len]), inner);
    CombinedMembers(Or, old(set2[..len]), inner, set1[..len]);
  }

  method UnionWithDifference(set1: array<Word>, set2: array<Word>, set3: array<Word>, set4: array<Word>, len: nat)
    requires len <= set1.Length && len <= set2.Length && len <= set3.Length && len <= set4.Length
    modifies set1
    ensures Members(set1[..len]) ==
      old(Members(set2[..len])) + (old(Members(set3[..len])) - old(Members(set4[..len])))
    ensures set1[len..] == old(set1[len..])
  {
    ghost var inner := [];
    var i := 0;
    while i < len
      invariant 0 <= i <= len && |inner| == i
      invariant forall k :: 0 <= k < i ==> inner[k] == Op(AndNot, old(set3[k]), old(set4[k]))
      invariant forall k :: 0 <= k < i ==> set1[k] == Op(Or, old(set2[k]), inner[k])
      invariant forall k :: i <= k < set1.Length ==> set1[k] == old(set1[k])
      invariant forall k :: i <= k < set2.Length ==> set2[k] == old(set2[k])
      invariant forall k :: i <= k < set3.Length ==> set3[k] == old(set3[k])
      invariant forall k :: i <= k < set4.Length ==> set4[k] == old(set4[k])
    {
      inner := inner + [Op(AndNot, set3[i], set4[i])];
      set1[i] := Op(Or, set2[i], Op(AndNot, set3[i], set4[i]));
      i := i + 1;
    }
    CombinedMembers(AndNot, old(set3[..len]), old(set4[..len]), inner);
    CombinedMembers(Or, old(set2[..len]), inner, set1[..len]);
  }

  lemma NothingExtra(a: seq<Word>, b: seq<Word>, i: nat, n: nat)
    requires |a| == |b| && i < |a| && Op(AndNot, a[i], b[i]) == 0 && n / 64 == i && Has(a, n)
    ensures Has(b, n)
  {
    BitCombined(AndNot, a[i], b[i], n % 64);
    ZeroHasNoBits(n % 64);
  }

  lemma SomethingExtra(a: seq<Word>, b: seq<Word>, i: nat) returns (n: nat)
    requires |a| == |b| && i < |a| && Op(AndNot, a[i], b[i]) != 0
    ensures Has(a, n) && !Has(b, n)
  {
    var k := HasBit(Op(AndNot, a[i], b[i]));
    BitCombined(AndNot, a[i], b[i], k);
    n := 64 * i + k;
  }

  method Subset(set1: array<Word>, set2: array<Word>, len: nat) returns (r: bool)
    requires len <= set1.Length && len <= set2.Length
    ensures r <==> Members(set1[..len]) <= Members(set2[..len])
  {
    ghost var a, b := set1[..len], set2[..len];
    var i := 0;
    while i < len
      invariant 0 <= i <= len
      invariant forall n: nat :: n / 64 < i && Has(a, n) ==> Has(b, n)
    {
      if Op(AndNot, set1[i], set2[i]) != 0 {
        var n := SomethingExtra(a, b, i);
        return false;
      }
      forall n: nat | n / 64 == i && Has(a, n) ensures Has(b, n) {
        NothingExtra(a, b, i, n);
      }
      i := i + 1;
    }
    return true;
  }

  // ------------------------------------------------------------ first and last

  ghost predicate Least(s: set<nat>, m: int) {
    m >= 0 && m in s && forall n: nat :: n in s ==> m <= n
  }

  ghost predicate Greatest(s: set<nat>, m: int) {
    m >= 0 && m in s && forall n: nat :: n in s ==> n <= m
  }

  const INT_LIMIT := 0x8000_0000

  /** A position as the C `int` it is returned as; from 2^31 on it is not the same number. */
  function Int32(x: int): (r: int)
    ensures -INT_LIMIT <= r < INT_LIMIT && (r - x) % 0x1_0000_0000 == 0
    ensures 0 <= x < INT_LIMIT ==> r == x
  {
    (x + INT_LIMIT) % 0x1_0000_0000 - INT_LIMIT
  }

  /** The least member as an `int`, or -1. */
  method First(set_: array<Word>, len: nat) returns (r: int)
    requires len <= set_.Length
    ensures Members(set_[..len]) == {} ==> r == -1
    ensures Members(set_[..len]) != {} ==> exists m :: Least(Members(set_[..len]), m) && r == Int32(m)
  {
    var i := 0;
    while i < len
      invariant 0 <= i <= len
      invariant forall n: nat :: n / 64 < i ==> !Has(set_[..len], n)
    {
      if set_[i] != 0 {
        var b := Ntz(set_[i]);
        var m := 64 * i + b;
        assert Has(set_[..len], m);
        forall n: nat | Has(set_[..len], n) ensures m <= n {
          assert n / 64 == i ==> Bit(set_[i], n % 64);
        }
        assert Least(Members(set_[..len]), m);
        return Int32(m);
      }
      forall n: nat | n / 64 == i ensures !Has(set_[..len], n) { ZeroHasNoBits(n % 64); }
      i := i + 1;
    }
    return -1;
  }

  /** The greatest member as an `int`, or -1. */
  method Last(set_: array<Word>, len: nat) returns (r: int)
    requires len <= set_.Length
    ensures Members(set_[..len]) == {} ==> r == -1
    ensures Members(set_[..len]) != {} ==> exists m :: Greatest(Members(set_[..len]), m) && r == Int32(m)
  {
    var i := len;
    while i > 0
      invariant 0 <= i <= len
      invariant forall n: nat :: n / 64 >= i ==> !Has(set_[..len], n)
    {
      i := i - 1;
      if set_[i] != 0 {
        var top := HighestByShifting(set_[i]);
        var m := 64 * i - 1 + top;
        assert Has(set_[..len], m);
        forall n: nat | Has(set_[..len], n) ensures n <= m {
          assert n / 64 == i ==> Bit(set_[i], n % 64);
        }
        assert Greatest(Members(set_[..len]), m);
        return Int32(m);
      }
      forall n: nat | n / 64 == i ensures !Has(set_[..len], n) { ZeroHasNoBits(n % 64); }
    }
    return -1;
  }

  /** How often a word can be shifted right before it is zero: one more than its highest bit. */
  method HighestByShifting(w: Word) returns (j: nat)
    requires w != 0
    ensures 0 < j <= 64 && Highest(w, j - 1)
  {
    var x := w;
    j := 0;
    while x != 0
      invariant x == Right(w, j)
      invariant x == 0 ==> j > 0 && Bit(w, j - 1)
      decreases x
    {
      RightTwice(w, j, 1);
      assert Right(x, 1) == x / 2;
      if x / 2 == 0 { BitRight(w, j, 0); }
      x := x / 2;
      j := j + 1;
    }
    forall k: nat | k > j - 1 ensures !Bit(w, k) {
      BitRight(w, j, k - j);
      ZeroHasNoBits(k - j);
    }
    if j > 64 { WordBits(w, j - 1); }
  }

  /** What taking out the least member leaves: a member from 2^31 on cannot be named by an
      `int`, and stays. */
  ghost function LeftAfter(s: set<nat>, m: int): set<nat> {
    if 0 <= m < INT_LIMIT then s - {m} else s
  }

  /** Take the least member out and return it as an `int`, or return -1. */
  method PopFirst(set_: array<Word>, len: nat) returns (r: int)
    requires len <= set_.Length
    modifies set_
    ensures old(Members(set_[..len])) == {} ==> r == -1 && Members(set_[..len]) == {}
    ensures old(Members(set_[..len])) != {} ==>
      exists m :: Least(old(Members(set_[..len])), m) && r == Int32(m)
        && Members(set_[..len]) == LeftAfter(old(Members(set_[..len])), m)
    ensures set_[len..] == old(set_[len..])
  {
    r := First(set_, len);
    if r >= 0 {
      ghost var before := set_[..];
      ghost var m :| Least(Members(before[..len]), m) && r == Int32(m);
      IntBelow(m);
      Excl(set_, r);
      PrefixMembers(before, set_[..], len, r);
      assert Members(set_[..len]) == LeftAfter(Members(before[..len]), m);
    }
  }

  /** An `int` that is not negative names the position itself or one below it. */
  lemma IntBelow(m: nat)
    ensures Int32(m) <= m && (Int32(m) == m <==> m < INT_LIMIT)
  {
  }

  /** Excluding a member of the first words is all that happens to them. */
  lemma PrefixMembers(a: seq<Word>, b: seq<Word>, len: nat, r: nat)
    requires len <= |a| == |b| && Members(b) == Members(a) - {r}
    ensures Members(b[..len]) == Members(a[..len]) - {r}
  {
    forall n: nat ensures Has(b[..len], n) <==> Has(a[..len], n) && n != r {
      if n / 64 < len { assert Has(b, n) <==> n in Members(b); }
    }
  }

  // --------------------------------------------------------------- enumeration

  ghost predicate Ascending(bits: seq<nat>) {
    forall i, j :: 0 <= i < j < |bits| ==> bits[i] < bits[j]
  }

  ghost predicate Descending(bits: seq<nat>) {
    forall i, j :: 0 <= i < j < |bits| ==> bits[i] > bits[j]
  }

  lemma AppendAscending(bits: seq<nat>, b: nat)
    requires Ascending(bits) && forall n: nat :: n in bits ==> n < b
    ensures Ascending(bits + [b])
  {
    forall i | 0 <= i < |bits| ensures bits[i] < b { assert bits[i] in bits; }
  }

  lemma AppendDescending(bits: seq<nat>, b: nat)
    requires Descending(bits) && forall n: nat :: n in bits ==> n > b
    ensures Descending(bits + [b])
  {
    forall i | 0 <= i < |bits| ensures bits[i] > b { assert bits[i] in bits; }
  }

  /** What popping has brought so far, and what is left. */
  ghost predicate Popped(bits: seq<nat>, left: set<nat>, all: set<nat>) {
    && Ascending(bits) && (forall n: nat :: n in all <==> n in bits || n in left)
    && (forall n: nat :: n in bits ==> n < INT_LIMIT)
    && forall m, n: nat :: m in bits && n in left ==> m < n
  }

  lemma PopStep(bits: seq<nat>, left: set<nat>, all: set<nat>, r: nat)
    requires Popped(bits, left, all) && Least(left, r) && r < INT_LIMIT
    ensures Popped(bits + [r], left - {r}, all)
  {
    AppendAscending(bits, r);
  }

  /** The loop comes to an end: the first member from 2^31 on, if any, is negative as an
      `int`. Otherwise it would be returned again and again. */
  ghost predicate PoppingEnds(s: set<nat>) {
    forall m: nat :: FirstLarge(s, m) ==> Int32(m) < 0
  }

  ghost predicate FirstLarge(s: set<nat>, m: nat) {
    m in s && m >= INT_LIMIT && forall n :: n in s && n >= INT_LIMIT ==> m <= n
  }

  /** At most k + 1 pops bring a negative answer. */
  ghost predicate EndsWithin(s: set<nat>, k: nat) {
    s == {} ||
    exists m :: Least(s, m) && (Int32(m) < 0 || (k > 0 && EndsWithin(LeftAfter(s, m), k - 1)))
  }

  lemma {:induction false} HasLeast(s: set<nat>) returns (m: nat)
    requires s != {}
    ensures Least(s, m)
  {
    var x :| x in s;
    m := x;
    if s - {x} != {} {
      var y := HasLeast(s - {x});
      if y < x { m := y; }
    }
    assert forall n: nat :: n in s ==> n == x || n in s - {x};
  }

  lemma EndsWithout(s: set<nat>, m: nat)
    requires m < INT_LIMIT
    ensures PoppingEnds(s - {m}) <==> PoppingEnds(s)
  {
    forall n: nat ensures FirstLarge(s - {m}, n) <==> FirstLarge(s, n) {
      if FirstLarge(s - {m}, n) {
        forall i: nat | i in s && i >= INT_LIMIT ensures n <= i { assert i in s - {m}; }
      }
    }
    if PoppingEnds(s) {
      forall n: nat | FirstLarge(s - {m}, n) ensures Int32(n) < 0 { assert FirstLarge(s, n); }
    }
    if PoppingEnds(s - {m}) {
      forall n: nat | FirstLarge(s, n) ensures Int32(n) < 0 { assert FirstLarge(s - {m}, n); }
    }
  }

  lemma {:induction false} PoppingStops(s: set<nat>) returns (k: nat)
    requires PoppingEnds(s)
    ensures EndsWithin(s, k)
  {
    k := 0;
    if s != {} {
      var m := HasLeast(s);
      if m < INT_LIMIT {
        EndsWithout(s, m);
        k := PoppingStops(s - {m});
        k := k + 1;
      } else {
        assert FirstLarge(s, m);
      }
    }
  }

  lemma {:induction false} StopsOnlyThen(s: set<nat>, k: nat)
    requires EndsWithin(s, k)
    ensures PoppingEnds(s)
    decreases k
  {
    if s != {} {
      var m: nat :| Least(s, m) && (Int32(m) < 0 || (k > 0 && EndsWithin(LeftAfter(s, m), k - 1)));
      if Int32(m) >= 0 {
        StopsOnlyThen(LeftAfter(s, m), k - 1);
        if m < INT_LIMIT { EndsWithout(s, m); }
      }
    }
  }

  /** Popping until the answer is negative comes to an end exactly for such sets. */
  lemma PoppingEndsIff(s: set<nat>)
    ensures PoppingEnds(s) <==> exists k: nat :: EndsWithin(s, k)
  {
    if PoppingEnds(s) {
      var k := PoppingStops(s);
      assert exists k: nat :: EndsWithin(s, k);
    } else {
      forall k: nat ensures !EndsWithin(s, k) {
        if EndsWithin(s, k) { StopsOnlyThen(s, k); }
      }
    }
  }

  /** Popping until the answer is negative. */
  method PopAll(set_: array<Word>, len: nat) returns (bits: seq<nat>)
    requires len <= set_.Length && PoppingEnds(Members(set_[..len]))
    modifies set_
    ensures Ascending(bits) && forall n: nat :: n in bits <==> n in old(Members(set_[..len])) && n < INT_LIMIT
    ensures forall n: nat :: n in Members(set_[..len]) <==> n in old(Members(set_[..len])) && n >= INT_LIMIT
  {
    bits := [];
    ghost var all := Members(set_[..len]);
    ghost var left := all;
    var r := PopFirst(set_, len);
    while r >= 0
      invariant Popped(bits, left, all)
      invariant left == {} ==> r == -1 && Members(set_[..len]) == {}
      invariant left != {} ==> exists m :: Least(left, m) && r == Int32(m) && Members(set_[..len]) == LeftAfter(left, m)
      decreases |left|
    {
      LeastSmall(bits, left, all, r);
      PopStep(bits, left, all, r);
      assert |left - {r}| == |left| - 1;
      bits := bits + [r];
      left := left - {r};
      r := PopFirst(set_, len);
    }
    if left != {} {
      ghost var m :| Least(left, m) && r == Int32(m) && Members(set_[..len]) == LeftAfter(left, m);
      IntBelow(m);
    }
  }

  /** While the loop goes on, the least member left is the number returned. */
  lemma LeastSmall(bits: seq<nat>, left: set<nat>, all: set<nat>, r: nat)
    requires Popped(bits, left, all) && PoppingEnds(all)
    requires exists m :: Least(left, m) && r == Int32(m)
    ensures Least(left, r) && r < INT_LIMIT
  {
    var m: nat :| Least(left, m) && r == Int32(m);
    IntBelow(m);
    assert m >= INT_LIMIT ==> FirstLarge(all, m);
  }

  /** The members below a bound, ascending. */
  ghost predicate ListsBelow(bits: seq<nat>, ws: seq<Word>, bound: nat) {
    Ascending(bits) && forall n: nat :: n in bits <==> Has(ws, n) && n < bound
  }

  lemma VisitUp(bits: seq<nat>, ws: seq<Word>, b: nat)
    requires ListsBelow(bits, ws, b)
    ensures ListsBelow(if Has(ws, b) then bits + [b] else bits, ws, b + 1)
  {
    if Has(ws, b) { AppendAscending(bits, b); }
  }

  lemma SkipUp(bits: seq<nat>, ws: seq<Word>, b: nat, b': nat)
    requires ListsBelow(bits, ws, b) && forall n: nat :: b <= n < b' || b' <= n < b ==> !Has(ws, n)
    ensures ListsBelow(bits, ws, b')
  {
  }

  /** The part of the loop that visits one word, from its lowest bit up. */
  method ForwardWord(w: Word, i: nat, before: seq<nat>, ghost ws: seq<Word>) returns (bits: seq<nat>)
    requires i < |ws| && w == ws[i] && ListsBelow(before, ws, 64 * i)
    ensures ListsBelow(bits, ws, 64 * (i + 1))
  {
    var x := w;
    var bit := 64 * i;
    ghost var k := 0;
    bits := before;
    while x != 0
      invariant k <= 64 && bit == 64 * i + k && x == Right(w, k) && ListsBelow(bits, ws, bit)
      decreases x
    {
      if k == 64 { NothingRight(w); }
      BitRight(w, k, 0);
      RightTwice(w, k, 1);
      assert Right(x, 1) == x / 2;
      assert Has(ws, bit) <==> x % 2 == 1 by { PlaceOf(i, k); }
      VisitUp(bits, ws, bit);
      if x % 2 == 1 {
        bits := bits + [bit];
      }
      x, bit, k := x / 2, bit + 1, k + 1;
    }
    NothingLeft(w, k);
    SkipUp(bits, ws, bit, 64 * (i + 1));
  }

  /** ZEND_BITSET_FOREACH: the members in the order in which the loop visits them. */
  method ForEach(set_: array<Word>, len: nat) returns (bits: seq<nat>)
    requires len <= set_.Length
    ensures Ascending(bits) && forall n: nat :: n in bits <==> n in Members(set_[..len])
  {
    ghost var ws := set_[..len];
    bits := [];
    var i := 0;
    while i < len
      invariant 0 <= i <= len && ListsBelow(bits, ws, 64 * i)
    {
      if set_[i] != 0 {
        bits := ForwardWord(set_[i], i, bits, ws);
      } else {
        forall n: nat | n / 64 == i ensures !Has(ws, n) { ZeroHasNoBits(n % 64); }
        SkipUp(bits, ws, 64 * i, 64 * (i + 1));
      }
      i := i + 1;
    }
  }

  lemma NothingLeft(w: Word, k: nat)
    requires Right(w, k) == 0
    ensures forall j: nat :: j >= k ==> !Bit(w, j)
  {
    forall j: nat | j >= k ensures !Bit(w, j) {
      BitRight(w, k, j - k);
      ZeroHasNoBits(j - k);
    }
  }

  lemma NothingRight(w: Word)
    ensures Right(w, 64) == 0
  {
    One64();
    AllLow(w, 64);
  }

  /** The members from a bound on, descending. */
  ghost predicate ListsFrom(bits: seq<nat>, ws: seq<Word>, bound: int) {
    Descending(bits) && forall n: nat :: n in bits <==> Has(ws, n) && n >= bound
  }

  lemma VisitDown(bits: seq<nat>, ws: seq<Word>, b: nat)
    requires ListsFrom(bits, ws, b + 1)
    ensures ListsFrom(if Has(ws, b) then bits + [b] else bits, ws, b)
  {
    if Has(ws, b) { AppendDescending(bits, b); }
  }

  lemma SkipDown(bits: seq<nat>, ws: seq<Word>, b: int, b': int)
    requires ListsFrom(bits, ws, b) && forall n: nat :: b' <= n < b ==> !Has(ws, n)
    requires b' <= b
    ensures ListsFrom(bits, ws, b')
  {
  }

  /** x is w shifted left by k places. */
  ghost predicate ShiftedLeft(w: Word, x: Word, k: nat) {
    forall j: nat :: j < 64 ==> (Bit(x, j) <==> j >= k && Bit(w, j - k))
  }

  lemma ShiftedLeftMore(w: Word, x: Word, k: nat)
    requires ShiftedLeft(w, x, k)
    ensures ShiftedLeft(w, DoubledWord(x), k + 1)
  {
    forall j: nat | j < 64 ensures Bit(DoubledWord(x), j) <==> j >= k + 1 && Bit(w, j - (k + 1)) {
      if j == 0 {
        BitDoubled(x, 0);
      } else {
        BitDoubled(x, j - 1);
      }
    }
  }

  lemma TopBit(x: Word)
    ensures Bit(x, 63) <==> x >= 0x8000_0000_0000_0000
  {
    One64();
    BitRight(x, 63, 0);
    RightAndLow(x, 63);
    assert Right(x, 63) * One(63) == 0x8000_0000_0000_0000 * Right(x, 63);
  }

  lemma TopBitAt(x: Word, j: nat)
    requires j == 63
    ensures Bit(x, j) <==> x >= 0x8000_0000_0000_0000
  {
    TopBit(x);
  }

  /** After k shifts the top bit is the next one to visit. */
  lemma VisitTop(bits: seq<nat>, ws: seq<Word>, i: nat, x: Word, k: nat)
    requires i < |ws| && k < 64 && ShiftedLeft(ws[i], x, k) && ListsFrom(bits, ws, 64 * i + 64 - k)
    ensures ListsFrom(if x >= 0x8000_0000_0000_0000 then bits + [64 * i + 63 - k] else bits, ws, 64 * i + 63 - k)
  {
    var j := 63 - k;
    TopBitAt(x, j + k);
    PlaceOf(i, j);
    assert Bit(x, j + k) <==> Bit(ws[i], j);
    VisitDown(bits, ws, 64 * i + j);
  }

  lemma ShiftedOut(w: Word, x: Word)
    requires ShiftedLeft(w, x, 64)
    ensures x == 0
  {
    NoBitsZero(x);
  }

  /** When nothing is left after k shifts, no lower bit was set. */
  lemma SkipLower(bits: seq<nat>, ws: seq<Word>, i: nat, k: nat)
    requires i < |ws| && k <= 64 && ShiftedLeft(ws[i], 0, k) && ListsFrom(bits, ws, 64 * i + 64 - k)
    ensures ListsFrom(bits, ws, 64 * i)
  {
    forall n: nat | 64 * i <= n < 64 * i + 64 - k ensures !Has(ws, n) {
      var j := n - 64 * i;
      PlaceOf(i, j);
      ZeroHasNoBits(j + k);
      assert Bit(0, j + k) <==> Bit(ws[i], j);
    }
    SkipDown(bits, ws, 64 * i + 64 - k, 64 * i);
  }

  /** The part of the loop that visits one word, from its top bit down. */
  method ReverseWord(w: Word, i: nat, before: seq<nat>, ghost ws: seq<Word>) returns (bits: seq<nat>)
    requires i < |ws| && w == ws[i] && ListsFrom(before, ws, 64 * (i + 1))
    ensures ListsFrom(bits, ws, 64 * i)
  {
    var x := w;
    var bit: int := 64 * (i + 1) - 1;
    ghost var k := 0;
    bits := before;
    while x != 0
      invariant k <= 64 && bit == 64 * i + 63 - k && ShiftedLeft(w, x, k) && ListsFrom(bits, ws, 64 * i + 64 - k)
      decreases 64 - k
    {
      if k == 64 { ShiftedOut(w, x); }
      VisitTop(bits, ws, i, x, k);
      if x >= 0x8000_0000_0000_0000 {
        bits := bits + [bit];
      }
      ShiftedLeftMore(w, x, k);
      x, bit, k := DoubledWord(x), bit - 1, k + 1;
    }
    SkipLower(bits, ws, i, k);
  }

  lemma PlaceOf(i: nat, k: nat)
    requires k < 64
    ensures (64 * i + k) / 64 == i && (64 * i + k) % 64 == k
  {
  }

  /** ZEND_BITSET_REVERSE_FOREACH: the members in the order in which the loop visits them. */
  method ReverseForEach(set_: array<Word>, len: nat) returns (bits: seq<nat>)
    requires len <= set_.Length
    ensures Descending(bits) && forall n: nat :: n in bits <==> n in Members(set_[..len])
  {
    ghost var ws := set_[..len];
    bits := [];
    var i := len;
    while i > 0
      invariant 0 <= i <= len && ListsFrom(bits, ws, 64 * i)
    {
      i := i - 1;
      if set_[i] != 0 {
        bits := ReverseWord(set_[i], i, bits, ws);
      } else {
        forall n: nat | n / 64 == i ensures !Has(ws, n) { ZeroHasNoBits(n % 64); }
        SkipDown(bits, ws, 64 * (i + 1), 64 * i);
      }
    }
  }
}
