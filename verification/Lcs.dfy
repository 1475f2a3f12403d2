/** Common subsequences: the mathematics the differ of run-tests.php rests on.

    `IsSubsequence` is the left-to-right scan the differ itself performs,
    `Embeds` the textbook definition, and `Length` the recurrence whose rows
    `commonSubsequenceLength` fills. */
module Lcs {
  import opened Sequences

  /** s can be found in t by scanning t once from the left. */
  predicate IsSubsequence<T(==)>(s: seq<T>, t: seq<T>)
    decreases |t|
  {
    if s == [] then true
    else if t == [] then false
    else if s[0] == t[0] then IsSubsequence(s[1..], t[1..])
    else IsSubsequence(s, t[1..])
  }

  /** `at` picks strictly increasing positions of t that spell s. */
  ghost predicate Embeds<T(!new)>(s: seq<T>, t: seq<T>, at: seq<nat>) {
    && |at| == |s|
    && (forall i :: 0 <= i < |at| ==> at[i] < |t| && t[at[i]] == s[i])
    && (forall i, j :: 0 <= i < j < |at| ==> at[i] < at[j])
  }

  function Max(x: nat, y: nat): nat {
    if x >= y then x else y
  }

  /** Length of a longest common subsequence, by the recurrence on the last elements. */
  function Length<T(==)>(a: seq<T>, b: seq<T>): nat
    decreases |a| + |b|
  {
    if a == [] || b == [] then 0
    else if Last(a) == Last(b) then Length(DropLast(a), DropLast(b)) + 1
    else Max(Length(a, DropLast(b)), Length(DropLast(a), b))
  }

  predicate IsCommon<T(==)>(s: seq<T>, a: seq<T>, b: seq<T>) {
    IsSubsequence(s, a) && IsSubsequence(s, b)
  }

  // ---------------------------------------------------------------- scanning

  /** The scan accepts exactly the sequences that embed. */
  lemma SubsequenceIffEmbeds<T(!new)>(s: seq<T>, t: seq<T>)
    ensures IsSubsequence(s, t) <==> exists at :: Embeds(s, t, at)
  {
    if IsSubsequence(s, t) {
      var at := ScanPositions(s, t);
    }
    forall at | Embeds(s, t, at)
      ensures IsSubsequence(s, t)
    {
      ScanFindsEmbedding(s, t, at);
    }
  }

  lemma {:induction false} ScanPositions<T(!new)>(s: seq<T>, t: seq<T>) returns (at: seq<nat>)
    requires IsSubsequence(s, t)
    ensures Embeds(s, t, at)
    decreases |t|
  {
    if s == [] {
      at := [];
    } else if s[0] == t[0] {
      var rest := ScanPositions(s[1..], t[1..]);
      at := [0] + seq(|rest|, i requires 0 <= i < |rest| => rest[i] + 1);
    } else {
      var rest := ScanPositions(s, t[1..]);
      at := seq(|rest|, i requires 0 <= i < |rest| => rest[i] + 1);
    }
  }

  lemma {:induction false} ScanFindsEmbedding<T(!new)>(s: seq<T>, t: seq<T>, at: seq<nat>)
    requires Embeds(s, t, at)
    ensures IsSubsequence(s, t)
    decreases |t|
  {
    if s != [] {
      assert at[0] < |t|;
      assert forall i :: 0 < i < |at| ==> at[0] < at[i];
      if s[0] == t[0] {
        var rest := seq(|at| - 1, i requires 0 <= i < |at| - 1 => at[i + 1] - 1);
        assert Embeds(s[1..], t[1..], rest);
        ScanFindsEmbedding(s[1..], t[1..], rest);
      } else {
        var rest := seq(|at|, i requires 0 <= i < |at| => at[i] - 1);
        assert Embeds(s, t[1..], rest);
        ScanFindsEmbedding(s, t[1..], rest);
      }
    }
  }

  lemma {:induction false} DropHead<T>(s: seq<T>, t: seq<T>)
    requires s != [] && IsSubsequence(s, t)
    ensures IsSubsequence(s[1..], t)
    decreases |t|
  {
    if s[0] == t[0] {
      Weaken(s[1..], t[1..], t[0]);
      assert [t[0]] + t[1..] == t;
    } else {
      DropHead(s, t[1..]);
      Weaken(s[1..], t[1..], t[0]);
      assert [t[0]] + t[1..] == t;
    }
  }

  lemma {:induction false} Weaken<T>(s: seq<T>, t: seq<T>, x: T)
    requires IsSubsequence(s, t)
    ensures IsSubsequence(s, [x] + t)
    decreases |t|, 1
  {
    assert ([x] + t)[1..] == t;
    if s != [] && s[0] == x {
      if s[0] == t[0] {
        Weaken(s[1..], t[1..], t[0]);
        assert [t[0]] + t[1..] == t;
      } else {
        DropHead(s, t[1..]);
        Weaken(s[1..], t[1..], t[0]);
        assert [t[0]] + t[1..] == t;
      }
    }
  }

  lemma {:induction false} Concat<T>(s: seq<T>, t: seq<T>, s': seq<T>, t': seq<T>)
    requires IsSubsequence(s, t) && IsSubsequence(s', t')
    ensures IsSubsequence(s + s', t + t')
    decreases |t|
  {
    if t == [] {
      assert s + s' == s' && t + t' == t';
    } else {
      assert (t + t')[1..] == t[1..] + t';
      assert t + t' == [t[0]] + (t[1..] + t');
      if s == [] {
        Concat(s, t[1..], s', t');
        Weaken(s + s', t[1..] + t', t[0]);
      } else {
        assert (s + s')[1..] == s[1..] + s';
        if s[0] == t[0] {
          Concat(s[1..], t[1..], s', t');
        } else {
          Concat(s, t[1..], s', t');
        }
      }
    }
  }

  /** A subsequence of t + t' is cut where the scan leaves t. */
  lemma {:induction false} SplitHaystack<T>(s: seq<T>, t: seq<T>, t': seq<T>) returns (k: nat)
    requires IsSubsequence(s, t + t')
    ensures k <= |s| && IsSubsequence(s[..k], t) && IsSubsequence(s[k..], t')
    decreases |t|
  {
    if s == [] {
      k := 0;
    } else if t == [] {
      k := 0;
      assert t + t' == t' && s[0..] == s;
    } else {
      assert (t + t')[1..] == t[1..] + t';
      if s[0] == t[0] {
        var k' := SplitHaystack(s[1..], t[1..], t');
        k := k' + 1;
        assert s[..k][1..] == s[1..][..k'] && s[k..] == s[1..][k'..];
      } else {
        k := SplitHaystack(s, t[1..], t');
        Weaken(s[..k], t[1..], t[0]);
        assert [t[0]] + t[1..] == t;
      }
    }
  }

  /** Dually, where s + s' is found in t, t can be cut between the two parts. */
  lemma {:induction false} SplitNeedle<T>(s: seq<T>, s': seq<T>, t: seq<T>) returns (j: nat)
    requires IsSubsequence(s + s', t)
    ensures j <= |t| && IsSubsequence(s, t[..j]) && IsSubsequence(s', t[j..])
    decreases |t|
  {
    if s == [] {
      j := 0;
      assert s + s' == s' && t[0..] == t;
    } else if s[0] == t[0] {
      assert (s + s')[1..] == s[1..] + s';
      var j' := SplitNeedle(s[1..], s', t[1..]);
      j := j' + 1;
      assert t[..j][1..] == t[1..][..j'] && t[j..] == t[1..][j'..];
    } else {
      var j' := SplitNeedle(s, s', t[1..]);
      j := j' + 1;
      assert t[..j][1..] == t[1..][..j'] && t[j..] == t[1..][j'..];
    }
  }

  lemma {:induction false} SubsequenceNotLonger<T>(s: seq<T>, t: seq<T>)
    requires IsSubsequence(s, t)
    ensures |s| <= |t|
    decreases |t|
  {
    if s != [] {
      SubsequenceNotLonger(if s[0] == t[0] then s[1..] else s, t[1..]);
    }
  }

  lemma {:induction false} SubsequenceReflexive<T>(s: seq<T>)
    ensures IsSubsequence(s, s)
  {
    if s != [] { SubsequenceReflexive(s[1..]); }
  }

  lemma {:induction false} ReverseSubsequence<T>(s: seq<T>, t: seq<T>)
    requires IsSubsequence(s, t)
    ensures IsSubsequence(Reverse(s), Reverse(t))
    decreases |t|
  {
    if s != [] {
      if s[0] == t[0] {
        ReverseSubsequence(s[1..], t[1..]);
        SubsequenceReflexive([t[0]]);
        Concat(Reverse(s[1..]), Reverse(t[1..]), [t[0]], [t[0]]);
      } else {
        ReverseSubsequence(s, t[1..]);
        Concat(Reverse(s), Reverse(t[1..]), [], [t[0]]);
        assert Reverse(s) + [] == Reverse(s);
      }
    }
  }

  // ------------------------------------------------------- Length is the maximum

  /** Taking the last element off t costs s at most its last element. */
  lemma SubsequenceOfDropLast<T>(s: seq<T>, t: seq<T>)
    requires t != [] && IsSubsequence(s, t)
    ensures s != [] ==> IsSubsequence(DropLast(s), DropLast(t))
    ensures s != [] && Last(s) != Last(t) ==> IsSubsequence(s, DropLast(t))
  {
    assert t == DropLast(t) + [Last(t)];
    var k := SplitHaystack(s, DropLast(t), [Last(t)]);
    SubsequenceNotLonger(s[k..], [Last(t)]);
    if k == |s| {
      assert s[..k] == s;
      if s != [] {
        assert s == DropLast(s) + [Last(s)];
        var j := SplitNeedle(DropLast(s), [Last(s)], DropLast(t));
        var cut := DropLast(t);
        Concat(DropLast(s), cut[..j], [], cut[j..]);
        assert cut[..j] + cut[j..] == cut && DropLast(s) + [] == DropLast(s);
      }
    } else {
      assert k == |s| - 1 && s[..k] == DropLast(s) && s[k..] == [Last(s)];
      assert Last(s) == Last(t);
    }
  }

  lemma {:induction false} NoneLonger<T>(s: seq<T>, a: seq<T>, b: seq<T>)
    requires IsCommon(s, a, b)
    ensures |s| <= Length(a, b)
    decreases |a| + |b|
  {
    SubsequenceNotLonger(s, a);
    SubsequenceNotLonger(s, b);
    if s != [] {
      SubsequenceOfDropLast(s, a);
      SubsequenceOfDropLast(s, b);
      if Last(a) == Last(b) {
        NoneLonger(DropLast(s), DropLast(a), DropLast(b));
      } else if Last(s) != Last(a) {
        NoneLonger(s, DropLast(a), b);
      } else {
        NoneLonger(s, a, DropLast(b));
      }
    }
  }

  lemma {:induction false} SomeAsLong<T>(a: seq<T>, b: seq<T>) returns (s: seq<T>)
    ensures IsCommon(s, a, b) && |s| == Length(a, b)
    decreases |a| + |b|
  {
    if a == [] || b == [] {
      s := [];
    } else {
      assert a == DropLast(a) + [Last(a)] && b == DropLast(b) + [Last(b)];
      if Last(a) == Last(b) {
        s := SomeAsLong(DropLast(a), DropLast(b));
        SubsequenceReflexive([Last(a)]);
        Concat(s, DropLast(a), [Last(a)], [Last(a)]);
        Concat(s, DropLast(b), [Last(b)], [Last(b)]);
        s := s + [Last(a)];
      } else if Length(a, DropLast(b)) >= Length(DropLast(a), b) {
        s := SomeAsLong(a, DropLast(b));
        Concat(s, DropLast(b), [], [Last(b)]);
        assert s + [] == s;
      } else {
        s := SomeAsLong(DropLast(a), b);
        Concat(s, DropLast(a), [], [Last(a)]);
        assert s + [] == s;
      }
    }
  }

  /** The recurrence computes the greatest length of a common subsequence. */
  lemma LengthIsMaximum<T(!new)>(a: seq<T>, b: seq<T>)
    ensures exists s :: IsCommon(s, a, b) && |s| == Length(a, b)
    ensures forall s :: IsCommon(s, a, b) ==> |s| <= Length(a, b)
  {
    var s := SomeAsLong(a, b);
    forall s | IsCommon(s, a, b)
      ensures |s| <= Length(a, b)
    {
      NoneLonger(s, a, b);
    }
  }

  // -------------------------------------------------- what Hirschberg's method needs

  /** Reversing both inputs keeps the length. */
  lemma LengthReverse<T>(a: seq<T>, b: seq<T>)
    ensures Length(Reverse(a), Reverse(b)) == Length(a, b)
  {
    var s := SomeAsLong(a, b);
    ReverseSubsequence(s, a);
    ReverseSubsequence(s, b);
    NoneLonger(Reverse(s), Reverse(a), Reverse(b));
    var r := SomeAsLong(Reverse(a), Reverse(b));
    ReverseSubsequence(r, Reverse(a));
    ReverseSubsequence(r, Reverse(b));
    ReverseTwice(a);
    ReverseTwice(b);
    NoneLonger(Reverse(r), a, b);
  }

  /** However b is cut, the two halves together find no more than the whole. */
  lemma SplitBound<T>(a: seq<T>, a': seq<T>, b: seq<T>, j: nat)
    requires j <= |b|
    ensures Length(a, b[..j]) + Length(a', b[j..]) <= Length(a + a', b)
  {
    var s := SomeAsLong(a, b[..j]);
    var s' := SomeAsLong(a', b[j..]);
    Concat(s, a, s', a');
    Concat(s, b[..j], s', b[j..]);
    assert b[..j] + b[j..] == b;
    NoneLonger(s + s', a + a', b);
  }

  /** Some cut of b loses nothing. */
  lemma SplitAttained<T>(a: seq<T>, a': seq<T>, b: seq<T>) returns (j: nat)
    ensures j <= |b|
    ensures Length(a, b[..j]) + Length(a', b[j..]) == Length(a + a', b)
  {
    var s := SomeAsLong(a + a', b);
    var k := SplitHaystack(s, a, a');
    assert s[..k] + s[k..] == s;
    j := SplitNeedle(s[..k], s[k..], b);
    NoneLonger(s[..k], a, b[..j]);
    NoneLonger(s[k..], a', b[j..]);
    SplitBound(a, a', b, j);
  }

  // ------------------------------------------------------------------- trimming

  lemma LengthSharedTail<T>(a: seq<T>, b: seq<T>, tail: seq<T>)
    ensures Length(a + tail, b + tail) == Length(a, b) + |tail|
    decreases |tail|
  {
    if tail == [] {
      assert a + tail == a && b + tail == b;
    } else {
      assert DropLast(a + tail) == a + DropLast(tail);
      assert DropLast(b + tail) == b + DropLast(tail);
      LengthSharedTail(a, b, DropLast(tail));
    }
  }

  lemma {:induction false} LengthSharedHead<T>(a: seq<T>, b: seq<T>, head: seq<T>)
    ensures Length(head + a, head + b) == Length(a, b) + |head|
  {
    LengthReverse(head + a, head + b);
    LengthReverse(a, b);
    ReverseConcat(head, a);
    ReverseConcat(head, b);
    LengthSharedTail(Reverse(a), Reverse(b), Reverse(head));
  }

  /** Cutting a shared head and a shared tail off both inputs loses nothing. */
  lemma LengthTrim<T>(head: seq<T>, a: seq<T>, b: seq<T>, tail: seq<T>)
    ensures Length(head + a + tail, head + b + tail) == |head| + Length(a, b) + |tail|
  {
    LengthSharedTail(head + a, head + b, tail);
    LengthSharedHead(a, b, head);
  }
}
