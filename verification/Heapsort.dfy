/** heapsort_r of bench.php: an in-place heapsort of positions 1 .. n. */
module Heapsort {
  import opened Folded

  /** Position c is not above its parent; the children of p are 2p and 2p + 1. */
  ghost predicate UnderParent(s: seq<real>, c: nat)
    requires c < |s|
  {
    s[c / 2] >= s[c]
  }

  /** In positions lo .. hi no child is above its parent. */
  ghost predicate Heap(s: seq<real>, lo: nat, hi: nat)
    requires 0 < lo && hi < |s|
  {
    forall c: nat :: 2 * lo <= c <= hi ==> UnderParent(s, c)
  }

  lemma {:induction false} RootIsLargest(s: seq<real>, hi: nat, k: nat)
    requires hi < |s| && Heap(s, 1, hi) && 1 <= k <= hi
    ensures s[k] <= s[1]
  {
    if k > 1 {
      assert UnderParent(s, k);
      RootIsLargest(s, hi, k / 2);
    }
  }

  ghost predicate Ordered(s: seq<real>, i: nat, j: nat)
    requires i < |s| && j < |s|
  {
    s[i] <= s[j]
  }

  ghost predicate Sorted(s: seq<real>, lo: nat, hi: nat)
    requires hi < |s|
  {
    forall i: nat, j: nat :: lo <= i < j <= hi ==> Ordered(s, i, j)
  }

  /** Moving the hole from i to j, when s[j] goes into i, keeps the contents. */
  lemma HoleMoved(s: seq<real>, i: nat, j: nat, v: real)
    requires i < |s| && j < |s| && i != j
    ensures multiset(s[i := s[j]][j := v]) == multiset(s[i := v])
  {
  }

  /** With a hole at i that takes v: below l all is a heap but for what v does, and above
      the hole nothing is lower than v. */
  ghost predicate Holed(s: seq<real>, l: nat, hi: nat, i: nat, v: real)
    requires 0 < l <= i <= hi < |s|
  {
    && (forall c: nat :: 2 * l <= c <= hi && c / 2 != i ==> UnderParent(s, c))
    && (i > l ==> v < s[i] && 2 * l <= i)
    && (i > l ==> CoversChildren(s, hi, i, s[i]))
  }

  ghost predicate CoversChildren(s: seq<real>, hi: nat, i: nat, v: real)
    requires hi < |s|
  {
    (2 * i <= hi ==> v >= s[2 * i]) && (2 * i < hi ==> v >= s[2 * i + 1])
  }

  lemma HoleFilled(s: seq<real>, l: nat, hi: nat, i: nat, v: real)
    requires 0 < l <= i <= hi < |s| && Holed(s, l, hi, i, v) && CoversChildren(s, hi, i, v)
    ensures Heap(s[i := v], l, hi)
  {
    var filled := s[i := v];
    forall c: nat | 2 * l <= c <= hi
      ensures UnderParent(filled, c)
    {
      if c / 2 != i { assert UnderParent(s, c); }
    }
  }

  lemma HoleLowered(s: seq<real>, l: nat, hi: nat, i: nat, j: nat, v: real)
    requires 0 < l <= i < j <= hi < |s| && Holed(s, l, hi, i, v) && j / 2 == i && v < s[j]
    requires CoversChildren(s, hi, i, s[j])
    ensures Holed(s[i := s[j]], l, hi, j, v)
  {
    if 2 * j <= hi { assert UnderParent(s, 2 * j); }
    if 2 * j < hi { assert UnderParent(s, 2 * j + 1); }
    var lowered := s[i := s[j]];
    forall c: nat | 2 * l <= c <= hi && c / 2 != j
      ensures UnderParent(lowered, c)
    {
      if c / 2 != i { assert UnderParent(s, c); }
    }
  }

  ghost predicate Below(s: seq<real>, lo: nat, hi: nat, bound: real)
    requires hi < |s|
  {
    forall k :: lo <= k <= hi ==> s[k] <= bound
  }

  ghost predicate SameOutside(s: seq<real>, t: seq<real>, lo: nat, hi: nat) {
    |s| == |t| && forall k :: 0 <= k < |s| && !(lo <= k <= hi) ==> s[k] == t[k]
  }

  lemma HoleMovedBelow(s: seq<real>, i: nat, j: nat, v: real, lo: nat, hi: nat, bound: real)
    requires lo <= i < j <= hi < |s| && Below(s[i := v], lo, hi, bound)
    ensures Below(s[i := s[j]][j := v], lo, hi, bound)
  {
    var now, next := s[i := v], s[i := s[j]][j := v];
    assert now[i] <= bound && now[j] <= bound;
    forall k | lo <= k <= hi ensures next[k] <= bound {
      assert now[k] <= bound;
    }
  }

  // ------------------------------------------------------------ sifting down

  ghost predicate SiftingOk(s: seq<real>, t: seq<real>, l: nat, hi: nat, i: nat, v: real, bound: real) {
    && 0 < l <= i <= hi < |t| && SameOutside(s, t, l, hi)
    && Holed(s, l, hi, i, v) && multiset(s[i := v]) == multiset(t[l := v])
    && (Below(t[l := v], l, hi, bound) ==> Below(s[i := v], l, hi, bound))
  }

  /** Where v is on its way from l down to the hole at i, t being the start; folded. */
  ghost predicate Sifting(s: seq<real>, t: seq<real>, l: nat, hi: nat, i: nat, v: real, bound: real) {
    Agrees(SiftingOk(s, t, l, hi, i, v, bound));
    var r: bool :| forall depth: nat {:trigger Inspected(depth)} :: Agree(r, SiftingOk(s, t, l, hi, i, v, bound));
    r
  }

  /** The heap that now reaches from l holds v and what was there but at l, the rest is as
      it was; what bounds the contents still does. */
  ghost predicate Sifted(s: seq<real>, t: seq<real>, l: nat, hi: nat, v: real, bound: real) {
    && 0 < l <= hi < |t| && SameOutside(s, t, l, hi)
    && Heap(s, l, hi) && multiset(s) == multiset(t[l := v])
    && (Below(t[l := v], l, hi, bound) ==> Below(s, l, hi, bound))
  }

  lemma SiftStart(s: seq<real>, l: nat, hi: nat, v: real, bound: real)
    requires 0 < l <= hi < |s| && Heap(s, l + 1, hi)
    ensures Sifting(s, s, l, hi, l, v, bound)
  {
    assert Inspected(0);
  }

  lemma SiftStep(s: seq<real>, t: seq<real>, l: nat, hi: nat, i: nat, j: nat, v: real, bound: real)
    requires Sifting(s, t, l, hi, i, v, bound) && 2 * i <= j <= hi < |s| && j / 2 == i && v < s[j]
    requires CoversChildren(s, hi, i, s[j])
    ensures Sifting(s[i := s[j]], t, l, hi, j, v, bound)
  {
    assert Inspected(0);
    HoleLowered(s, l, hi, i, j, v);
    HoleMoved(s, i, j, v);
    if Below(t[l := v], l, hi, bound) {
      HoleMovedBelow(s, i, j, v, l, hi, bound);
    }
  }

  lemma SiftEnd(s: seq<real>, t: seq<real>, l: nat, hi: nat, i: nat, v: real, bound: real)
    requires Sifting(s, t, l, hi, i, v, bound) && hi < |s| && i < |s| && CoversChildren(s, hi, i, v)
    ensures Sifted(s[i := v], t, l, hi, v, bound)
  {
    assert Inspected(0);
    HoleFilled(s, l, hi, i, v);
  }

  /** Sift v down from the hole at l into the heap of positions l + 1 .. ir. */
  method SiftDown(a: array<real>, l: nat, ir: nat, v: real, ghost bound: real)
    requires 0 < l <= ir < a.Length && Heap(a[..], l + 1, ir)
    modifies a
    ensures Sifted(a[..], old(a[..]), l, ir, v, bound)
  {
    ghost var t, s := a[..], a[..];
    SiftStart(t, l, ir, v, bound);
    var i, j := l, 2 * l;
    while j <= ir
      invariant l <= i <= ir && i < j && (j == 2 * i || j == ir + 1) && a[..] == s
      invariant Sifting(s, t, l, ir, i, v, bound)
      invariant j != 2 * i ==> CoversChildren(s, ir, i, v)
      decreases ir + 1 - j
    {
      if j < ir && a[j] < a[j + 1] {
        j := j + 1;
      }
      if v < a[j] {
        SiftStep(s, t, l, ir, i, j, v, bound);
        s := s[i := s[j]];
        a[i] := a[j];
        i, j := j, 2 * j;
      } else {
        j := ir + 1;
      }
    }
    SiftEnd(s, t, l, ir, i, v, bound);
    a[i] := v;
    assert a[..] == s[i := v];
  }

  // ------------------------------------------------------------ the two phases

  ghost predicate ProgressOk(s: seq<real>, t: seq<real>, n: nat, l: nat, ir: nat) {
    && 0 < l && 0 < ir <= n < |t| && SameOutside(s, t, 1, n) && multiset(s) == multiset(t)
    && Heap(s, l, ir) && Sorted(s, ir + 1, n)
    && forall x, y :: 1 <= x <= ir < y <= n ==> s[x] <= s[y]
  }

  /** A heap from l to ir, and above it what is sorted already; folded. */
  ghost predicate Progress(s: seq<real>, t: seq<real>, n: nat, l: nat, ir: nat) {
    Agrees(ProgressOk(s, t, n, l, ir));
    var r: bool :| forall depth: nat {:trigger Inspected(depth)} :: Agree(r, ProgressOk(s, t, n, l, ir));
    r
  }

  lemma ProgressStart(s: seq<real>, n: nat)
    requires 2 <= n < |s|
    ensures Progress(s, s, n, n / 2 + 1, n)
  {
    assert Inspected(0);
  }

  lemma ProgressHeap(s: seq<real>, t: seq<real>, n: nat, l: nat, ir: nat)
    requires Progress(s, t, n, l, ir) && |s| > n >= ir > 1
    ensures l > 1 ==> Heap(s, l, ir)
    ensures l == 1 ==> Heap(s[ir := s[1]], 2, ir - 1)
  {
    assert Inspected(0);
    var rest := s[ir := s[1]];
    if l == 1 {
      forall c: nat | 4 <= c <= ir - 1
        ensures UnderParent(rest, c)
      {
        assert UnderParent(s, c);
      }
    }
  }

  lemma Built(s: seq<real>, s': seq<real>, t: seq<real>, n: nat, l: nat, bound: real)
    requires Progress(s, t, n, l + 1, n) && 0 < l <= n < |s| && Sifted(s', s, l, n, s[l], bound)
    ensures Progress(s', t, n, l, n)
  {
    assert Inspected(0);
    assert s[l := s[l]] == s;
  }

  lemma AllBelowRoot(s: seq<real>, ir: nat)
    requires 1 < ir < |s| && Heap(s, 1, ir)
    ensures Below(s[ir := s[1]][1 := s[ir]], 1, ir - 1, s[1])
  {
    forall k | 1 <= k <= ir ensures s[k] <= s[1] {
      RootIsLargest(s, ir, k);
    }
  }

  lemma Extracted(s: seq<real>, s': seq<real>, t: seq<real>, n: nat, ir: nat)
    requires Progress(s, t, n, 1, ir) && 1 < ir <= n < |s| && Sifted(s', s[ir := s[1]], 1, ir - 1, s[ir], s[1])
    ensures Progress(s', t, n, 1, ir - 1)
  {
    assert Inspected(0);
    AllBelowRoot(s, ir);
    ExtractedMultiset(s, s', ir);
    ExtractedOrder(s, s', t, n, ir);
  }

  lemma ExtractedMultiset(s: seq<real>, s': seq<real>, ir: nat)
    requires 1 < ir < |s| && multiset(s') == multiset(s[ir := s[1]][1 := s[ir]])
    ensures multiset(s') == multiset(s)
  {
    HoleMoved(s, ir, 1, s[ir]);
    assert s[ir := s[ir]] == s;
  }

  /** The old root tops what is left of the heap and precedes what was sorted before. */
  lemma ExtractedOrder(s: seq<real>, s': seq<real>, t: seq<real>, n: nat, ir: nat)
    requires 1 < ir <= n < |s| && SameOutside(s, t, 1, n) && Sorted(s, ir + 1, n)
    requires forall y :: ir < y <= n ==> s[1] <= s[y]
    requires SameOutside(s', s[ir := s[1]], 1, ir - 1) && Below(s', 1, ir - 1, s[1])
    ensures SameOutside(s', t, 1, n) && Sorted(s', ir, n)
    ensures forall x, y :: 1 <= x <= ir - 1 < y <= n ==> s'[x] <= s'[y]
  {
    assert s'[ir] == s[1];
    forall i: nat, j: nat | ir <= i < j <= n
      ensures Ordered(s', i, j)
    {
      if i > ir { assert Ordered(s, i, j); }
    }
  }

  /** t with positions 1 .. n put in ascending order. */
  ghost predicate SortedVersion(s: seq<real>, t: seq<real>, n: nat) {
    n < |s| && Sorted(s, 1, n) && multiset(s) == multiset(t) && SameOutside(s, t, 1, n)
  }

  lemma LastExtracted(s: seq<real>, t: seq<real>, n: nat)
    requires Progress(s, t, n, 1, 2) && 2 <= n < |s|
    ensures SortedVersion(s[2 := s[1]][1 := s[2]], t, n)
  {
    assert Inspected(0);
    HoleMoved(s, 2, 1, s[2]);
    assert s[2 := s[2]] == s;
    RootIsLargest(s, 2, 2);
    var r := s[2 := s[1]][1 := s[2]];
    forall i: nat, j: nat | 1 <= i < j <= n
      ensures Ordered(r, i, j)
    {
      if i > 2 { assert Ordered(s, i, j); }
    }
  }

  /** Put x at position i and return what was there. */
  method Replace(a: array<real>, i: nat, x: real) returns (was: real)
    requires i < a.Length
    modifies a
    ensures was == old(a[i]) && a[..] == old(a[..])[i := x]
  {
    was := a[i];
    a[i] := x;
  }

  /** A turn of the first phase: the heap reaches down to l. */
  method BuildTurn(a: array<real>, n: nat, l: nat, ghost t: seq<real>)
    requires 0 < l <= n < a.Length && 2 <= n && Progress(a[..], t, n, l + 1, n)
    modifies a
    ensures Progress(a[..], t, n, l, n)
  {
    ghost var s := a[..];
    ProgressHeap(s, t, n, l + 1, n);
    var rra := a[l];
    SiftDown(a, l, n, rra, rra);
    Built(s, a[..], t, n, l, rra);
  }

  /** A turn of the second phase: the root goes behind what is left of the heap. */
  method ExtractTurn(a: array<real>, n: nat, ir0: nat, ghost t: seq<real>) returns (done: bool)
    requires 2 <= ir0 <= n < a.Length && Progress(a[..], t, n, 1, ir0)
    modifies a
    ensures done <==> ir0 == 2
    ensures if done then SortedVersion(a[..], t, n) else Progress(a[..], t, n, 1, ir0 - 1)
  {
    ghost var s := a[..];
    ProgressHeap(s, t, n, 1, ir0);
    var rra := Replace(a, ir0, a[1]);
    var ir := ir0 - 1;
    if ir == 1 {
      LastExtracted(s, t, n);
      var _ := Replace(a, 1, rra);
      return true;
    }
    SiftDown(a, 1, ir, rra, s[1]);
    Extracted(s, a[..], t, n, ir0);
    return false;
  }

  /** Positions 1 .. n in ascending order, holding what they held before. */
  method HeapsortR(n: nat, a: array<real>)
    requires 2 <= n < a.Length
    modifies a
    ensures SortedVersion(a[..], old(a[..]), n)
  {
    ghost var t := a[..];
    var l, ir := n / 2 + 1, n;
    ProgressStart(t, n);
    while true
      invariant 1 <= l <= n && 2 <= ir <= n && (l > 1 ==> ir == n)
      invariant Progress(a[..], t, n, l, ir)
      decreases l + ir
    {
      if l > 1 {
        l := l - 1;
        BuildTurn(a, n, l, t);
      } else {
        var done := ExtractTurn(a, n, ir, t);
        if done { return; }
        ir := ir - 1;
      }
    }
  }

  // ------------------------------------------------------------- termination

  /** l and ir after k turns of the outer loop. */
  function After(n: nat, k: nat): (int, int) {
    if k == 0 then (n / 2 + 1, n)
    else
      var (l, ir) := After(n, k - 1);
      if l > 1 then (l - 1, ir) else (l, ir - 1)
  }

  /** The next turn is the one that returns: it takes ir down to exactly 1. */
  ghost predicate ReturnsAfter(n: nat, k: nat) {
    After(n, k).0 <= 1 && After(n, k).1 - 1 == 1
  }

  lemma {:induction false} AfterTurns(n: nat, k: nat)
    ensures After(n, k) == if k <= n / 2 then (n / 2 + 1 - k, n) else (1, n - (k - n / 2))
  {
    if k > 0 { AfterTurns(n, k - 1); }
  }

  /** With fewer than two elements ir never is 1 after the decrement, and the loop goes on. */
  lemma ReturnsIffTwo(n: nat)
    ensures (exists k: nat :: ReturnsAfter(n, k)) <==> n >= 2
  {
    if n >= 2 {
      AfterTurns(n, n / 2 + n - 2);
      assert ReturnsAfter(n, n / 2 + n - 2);
    } else {
      forall k: nat ensures !ReturnsAfter(n, k) {
        AfterTurns(n, k);
      }
    }
  }
}
