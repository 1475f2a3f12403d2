/** The words of zend_bitset.h: what the shift-and-mask arithmetic says about single bits.
    A word is a number below 2^64. Shifts are by powers of two, a mask of the low n bits is
    the remainder modulo 2^n (LowBitsMask), and the operators are given bit by bit. */
module BitWord {
  import opened Folded

  const LIMIT: nat := 0x1_0000_0000_0000_0000

  type Word = w: nat | w < LIMIT

  predicate Bit(w: nat, k: nat) {
    if k == 0 then w % 2 == 1 else Bit(w / 2, k - 1)
  }

  /** 1 << n. */
  function One(n: nat): (r: nat)
    ensures r > 0
  {
    if n == 0 then 1 else 2 * One(n - 1)
  }

  lemma One64()
    ensures One(63) == 0x8000_0000_0000_0000 && One(64) == LIMIT
  {
    assert One(8) == 0x100;
    assert One(16) == 0x1_0000;
    assert One(24) == 0x100_0000;
    assert One(32) == 0x1_0000_0000;
    assert One(40) == 0x100_0000_0000;
    assert One(48) == 0x1_0000_0000_0000;
    assert One(56) == 0x100_0000_0000_0000;
  }

  /** 1 << n in a word. */
  function OneWord(n: nat): Word
    requires n < 64
  {
    OneFits(n);
    One(n)
  }

  lemma OneFits(n: nat)
    requires n < 64
    ensures One(n) < LIMIT
  {
    One64();
    OneGrows(n, 63 - n);
  }

  lemma {:induction false} OneGrows(n: nat, m: nat)
    ensures One(n) <= One(n + m)
  {
    if m > 0 { OneGrows(n, m - 1); }
  }

  lemma {:induction false} ZeroHasNoBits(k: nat)
    ensures !Bit(0, k)
  {
    if k > 0 { ZeroHasNoBits(k - 1); }
  }

  lemma {:induction false} BitOne(n: nat, k: nat)
    ensures Bit(One(n), k) <==> k == n
  {
    if n > 0 && k > 0 {
      BitOne(n - 1, k - 1);
    } else if k > 0 {
      ZeroHasNoBits(k - 1);
    }
  }

  lemma {:induction false} NoBitsAbove(w: nat, k: nat)
    requires w < One(k)
    ensures !Bit(w, k)
  {
    if k > 0 { NoBitsAbove(w / 2, k - 1); }
  }

  lemma WordBits(w: Word, k: nat)
    requires k >= 64
    ensures !Bit(w, k)
  {
    One64();
    OneGrows(64, k - 64);
    NoBitsAbove(w, k);
  }

  /** Numbers with the same bits are the same. */
  lemma {:induction false} SameBits(a: nat, b: nat)
    requires forall k: nat :: Bit(a, k) == Bit(b, k)
    ensures a == b
    decreases a + b
  {
    if a + b > 0 {
      forall k: nat ensures Bit(a / 2, k) == Bit(b / 2, k) {
        assert Bit(a, k + 1) == Bit(b, k + 1);
      }
      assert Bit(a, 0) == Bit(b, 0);
      SameBits(a / 2, b / 2);
    }
  }

  // --------------------------------------------------------------- operators

  datatype Operator = And | Or | AndNot

  function Digit(op: Operator, a: nat, b: nat): nat {
    match op
    case And => if a % 2 == 1 && b % 2 == 1 then 1 else 0
    case Or => if a % 2 == 1 || b % 2 == 1 then 1 else 0
    case AndNot => if a % 2 == 1 && b % 2 == 0 then 1 else 0
  }

  /** a & b, a | b and a & ~b. */
  function Combined(op: Operator, a: nat, b: nat): (r: nat)
    decreases a + b
  {
    if a + b == 0 then 0 else 2 * Combined(op, a / 2, b / 2) + Digit(op, a, b)
  }

  predicate Meets(op: Operator, x: bool, y: bool) {
    match op
    case And => x && y
    case Or => x || y
    case AndNot => x && !y
  }

  /** The operators act on each bit by itself. */
  lemma {:induction false} BitCombined(op: Operator, a: nat, b: nat, k: nat)
    ensures Bit(Combined(op, a, b), k) <==> Meets(op, Bit(a, k), Bit(b, k))
    decreases k
  {
    if a + b == 0 {
      ZeroHasNoBits(k);
    } else if k > 0 {
      BitCombined(op, a / 2, b / 2, k - 1);
    }
  }

  lemma {:induction false} CombinedFits(op: Operator, a: nat, b: nat, n: nat)
    requires a < One(n) && b < One(n)
    ensures Combined(op, a, b) < One(n)
    decreases n
  {
    if n > 0 && a + b > 0 { CombinedFits(op, a / 2, b / 2, n - 1); }
  }

  lemma CombinedWord(op: Operator, a: Word, b: Word)
    ensures Combined(op, a, b) < LIMIT
  {
    One64();
    CombinedFits(op, a, b, 64);
  }

  /** The operators on words. */
  function Op(op: Operator, a: Word, b: Word): Word {
    CombinedWord(op, a, b);
    Combined(op, a, b)
  }

  // ------------------------------------------------------------------ shifts

  /** w >> n. */
  function Right(w: nat, n: nat): (r: nat)
    ensures r <= w
    decreases n
  {
    if n == 0 then w else Right(w / 2, n - 1)
  }

  /** w & 0x..1, with n ones in the mask. */
  function LowBits(w: nat, n: nat): nat {
    if n == 0 then 0 else 2 * LowBits(w / 2, n - 1) + w % 2
  }

  /** They are the quotient and the remainder by 2^n. */
  lemma {:induction false} RightAndLow(w: nat, n: nat)
    ensures w == Right(w, n) * One(n) + LowBits(w, n) && LowBits(w, n) < One(n)
    decreases n
  {
    if n > 0 {
      RightAndLow(w / 2, n - 1);
      Doubled(w, Right(w / 2, n - 1), One(n - 1), LowBits(w / 2, n - 1));
    }
  }

  lemma Doubled(w: nat, r: nat, m: nat, low: nat)
    requires w / 2 == r * m + low
    ensures w == r * (2 * m) + (2 * low + w % 2)
  {
    TimesTwo(r, m);
    assert w == 2 * (w / 2) + w % 2;
  }

  lemma TimesTwo(r: nat, m: nat)
    ensures r * (2 * m) == 2 * (r * m)
  {
  }

  lemma {:induction false} LowBitsMask(w: nat, n: nat)
    ensures Combined(And, w, One(n) - 1) == LowBits(w, n)
    decreases n
  {
    if n == 0 {
      NothingKept(w);
    } else {
      assert (One(n) - 1) / 2 == One(n - 1) - 1;
      LowBitsMask(w / 2, n - 1);
    }
  }

  lemma {:induction false} NothingKept(w: nat)
    ensures Combined(And, w, 0) == 0
  {
    if w > 0 { NothingKept(w / 2); }
  }

  lemma {:induction false} BitRight(w: nat, n: nat, k: nat)
    ensures Bit(Right(w, n), k) == Bit(w, k + n)
    decreases n
  {
    if n > 0 { BitRight(w / 2, n - 1, k); }
  }

  lemma {:induction false} RightTwice(w: nat, a: nat, b: nat)
    ensures Right(Right(w, a), b) == Right(w, a + b)
    decreases a
  {
    if a > 0 { RightTwice(w / 2, a - 1, b); }
  }

  lemma {:induction false} LowBitsSplit(w: nat, a: nat, b: nat)
    ensures LowBits(w, a + b) == 0 <==> LowBits(w, a) == 0 && LowBits(Right(w, a), b) == 0
    decreases a
  {
    if a > 0 { LowBitsSplit(w / 2, a - 1, b); }
  }

  lemma {:induction false} ClearLow(w: nat, n: nat, k: nat)
    requires LowBits(w, n) == 0 && k < n
    ensures !Bit(w, k)
    decreases n
  {
    if k > 0 { ClearLow(w / 2, n - 1, k - 1); }
  }

  lemma {:induction false} AllLow(w: nat, n: nat)
    requires w < One(n)
    ensures Right(w, n) == 0 && LowBits(w, n) == w
    decreases n
  {
    if n > 0 { AllLow(w / 2, n - 1); }
  }

  /** Shifting a word left by one drops its top bit. */
  function DoubledWord(w: Word): Word {
    2 * w % LIMIT
  }

  lemma BitDoubled(w: Word, k: nat)
    requires k < 63
    ensures Bit(DoubledWord(w), k + 1) == Bit(w, k) && !Bit(DoubledWord(w), 0)
  {
    var kept := w % 0x8000_0000_0000_0000;
    assert DoubledWord(w) == 2 * kept;
    One64();
    TopDropped(w, 63, k);
  }

  /** Taking the top bit away leaves the lower ones. */
  lemma {:induction false} TopDropped(w: nat, n: nat, k: nat)
    requires k < n && w < 2 * One(n)
    ensures Bit(if w < One(n) then w else w - One(n), k) == Bit(w, k)
    decreases n
  {
    if k > 0 { TopDropped(w / 2, n - 1, k - 1); }
  }

  // --------------------------------------------------------- counting zeros

  /** r is the lowest bit of the word. */
  ghost predicate Lowest(w: Word, r: nat) {
    Bit(w, r) && forall k :: 0 <= k < r ==> !Bit(w, k)
  }

  ghost predicate Highest(w: Word, r: nat) {
    Bit(w, r) && forall k :: k > r ==> !Bit(w, k)
  }

  /** w is num shifted right by `off` places. */
  ghost predicate Shifted(num: Word, w: Word, off: nat) {
    forall k: nat :: Bit(w, k) == Bit(num, k + off)
  }

  ghost predicate Clear(num: Word, off: nat) {
    forall k: nat :: k < off ==> !Bit(num, k)
  }

  lemma ShiftedTwice(num: Word, w: Word, x: Word, off: nat, m: nat)
    requires Shifted(num, w, off) && Shifted(w, x, m)
    ensures Shifted(num, x, off + m)
    ensures Clear(num, off) && Clear(w, m) ==> Clear(num, off + m)
  {
    forall k: nat ensures Bit(x, k) == Bit(num, k + (off + m)) {
      assert Bit(x, k) == Bit(w, k + m) == Bit(num, k + m + off);
    }
    if Clear(num, off) && Clear(w, m) {
      forall k: nat | k < off + m ensures !Bit(num, k) {
        if k >= off { assert Bit(w, k - off) == Bit(num, k - off + off); }
      }
    }
  }

  lemma ShiftedBy(w: Word, n: nat)
    ensures Shifted(w, Right(w, n), n) && (LowBits(w, n) == 0 ==> Clear(w, n))
  {
    var x := Right(w, n);
    forall k: nat ensures Bit(x, k) == Bit(w, k + n) { BitRight(w, n, k); }
    forall k: nat | k < n && LowBits(w, n) == 0 ensures !Bit(w, k) { ClearLow(w, n, k); }
  }

  // ------------------------------------------------------------ trailing zeros

  ghost predicate NarrowedOk(num: Word, w: Word, off: nat, m: nat) {
    Shifted(num, w, off) && Clear(num, off) && LowBits(w, m) != 0
  }

  /** After off places of zeros the lowest bit is among the next m, those of w; folded. */
  ghost predicate Narrowed(num: Word, w: Word, off: nat, m: nat) {
    Agrees(NarrowedOk(num, w, off, m));
    var r: bool :| forall depth: nat {:trigger Inspected(depth)} :: Agree(r, NarrowedOk(num, w, off, m));
    r
  }

  lemma NarrowedStart(num: Word)
    requires num != 0
    ensures Narrowed(num, num, 0, 64)
  {
    assert Inspected(0);
    One64();
    AllLow(num, 64);
  }

  lemma NarrowedHalf(num: Word, w: Word, off: nat, m: nat)
    requires Narrowed(num, w, off, m + m)
    ensures if LowBits(w, m) == 0 then Narrowed(num, Right(w, m), off + m, m) else Narrowed(num, w, off, m)
  {
    assert Inspected(0);
    LowBitsSplit(w, m, m);
    if LowBits(w, m) == 0 {
      ShiftedBy(w, m);
      ShiftedTwice(num, w, Right(w, m), off, m);
    }
  }

  lemma LowestOfTwo(num: Word, w: Word, off: nat)
    requires Narrowed(num, w, off, 2)
    ensures Lowest(num, if w % 2 == 1 then off else off + 1)
  {
    assert Inspected(0);
    assert Bit(w, 0) == Bit(num, 0 + off) && Bit(w, 1) == Bit(num, 1 + off);
    assert LowBits(w, 2) == 2 * LowBits(w / 2, 1) + w % 2 && LowBits(w / 2, 1) == w / 2 % 2;
    assert Bit(w, 1) == Bit(w / 2, 0);
  }

  /** One step: drop the low half if it is all zeros. */
  method SkipZeros(ghost num: Word, n: nat, w: Word, half: nat) returns (n': nat, w': Word)
    requires n > 0 && Narrowed(num, w, n - 1, half + half)
    ensures n' > 0 && Narrowed(num, w', n' - 1, half)
  {
    NarrowedHalf(num, w, n - 1, half);
    if LowBits(w, half) == 0 {
      n', w' := n + half, Right(w, half);
    } else {
      n', w' := n, w;
    }
  }

  /** The number of trailing zeros, by halves. */
  method Ntz(num: Word) returns (r: nat)
    ensures num == 0 ==> r == 64
    ensures num != 0 ==> r < 64 && Lowest(num, r)
  {
    if num == 0 {
      return 64;
    }
    NarrowedStart(num);
    var n, w := SkipZeros(num, 1, num, 32);
    n, w := SkipZeros(num, n, w, 16);
    n, w := SkipZeros(num, n, w, 8);
    n, w := SkipZeros(num, n, w, 4);
    n, w := SkipZeros(num, n, w, 2);
    LowestOfTwo(num, w, n - 1);
    r := n - w % 2;
    if r >= 64 { WordBits(num, r); }
  }

  // ------------------------------------------------------------- leading zeros

  ghost predicate ToppedOk(num: Word, w: Word, off: nat, m: nat) {
    off + m <= 64 && Shifted(num, w, off) && Right(w, m) == 0
    && (w == 0 <==> num == 0) && (num == 0 ==> off == 0)
  }

  /** w is what is left of num above `off`, and it has no more than m bits; folded. */
  ghost predicate Topped(num: Word, w: Word, off: nat, m: nat) {
    Agrees(ToppedOk(num, w, off, m));
    var r: bool :| forall depth: nat {:trigger Inspected(depth)} :: Agree(r, ToppedOk(num, w, off, m));
    r
  }

  lemma ToppedStart(num: Word)
    ensures Topped(num, num, 0, 64)
  {
    assert Inspected(0);
    One64();
    AllLow(num, 64);
  }

  lemma ToppedHalf(num: Word, w: Word, off: nat, m: nat)
    requires Topped(num, w, off, m + m)
    ensures off + m + m <= 64
    ensures if Right(w, m) != 0 then Topped(num, Right(w, m), off + m, m) else Topped(num, w, off, m)
  {
    assert Inspected(0);
    RightTwice(w, m, m);
    if Right(w, m) != 0 {
      ShiftedBy(w, m);
      ShiftedTwice(num, w, Right(w, m), off, m);
    }
  }

  lemma HighestOfTwo(num: Word, w: Word, off: nat)
    requires Topped(num, w, off, 2)
    ensures off + 2 <= 64 && (num == 0 ==> w == 0 && off == 0)
    ensures num != 0 ==> 0 < w < 4 && Highest(num, if w / 2 != 0 then off + 1 else off)
  {
    assert Inspected(0);
    assert Right(w, 2) == Right(w / 2, 1) == w / 2 / 2;
    assert Bit(w, 0) == Bit(num, 0 + off) && Bit(w, 1) == Bit(num, 1 + off);
    assert Bit(w, 1) == Bit(w / 2, 0);
    forall k: nat | k > off + 1 ensures !Bit(num, k) {
      assert Bit(w, k - off) == Bit(num, k - off + off);
      BitRight(w, 2, k - off - 2);
      ZeroHasNoBits(k - off - 2);
    }
  }

  /** One step: drop the low half if anything is above it. */
  method SkipLowHalf(ghost num: Word, n: nat, w: Word, half: nat) returns (n': nat, w': Word)
    requires n <= 64 && Topped(num, w, 64 - n, half + half)
    ensures n' <= 64 && Topped(num, w', 64 - n', half)
  {
    ToppedHalf(num, w, 64 - n, half);
    var x := Right(w, half);
    if x != 0 {
      n', w' := n - half, x;
    } else {
      n', w' := n, w;
    }
  }

  /** The number of leading zeros, by halves; for zero the portable code gives 64. */
  method Nlz(num: Word) returns (r: nat)
    ensures num == 0 ==> r == 64
    ensures num != 0 ==> r < 64 && Highest(num, 63 - r)
  {
    ToppedStart(num);
    var n, w := SkipLowHalf(num, 64, num, 32);
    n, w := SkipLowHalf(num, n, w, 16);
    n, w := SkipLowHalf(num, n, w, 8);
    n, w := SkipLowHalf(num, n, w, 4);
    n, w := SkipLowHalf(num, n, w, 2);
    HighestOfTwo(num, w, 64 - n);
    if w / 2 != 0 {
      r := n - 2;
    } else {
      r := n - w;
    }
  }
}
