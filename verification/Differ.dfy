/** The `Differ` of run-tests.php in its literal mode, where two tokens match
    when they are identical. PHP arrays are values, so the arrays the code shifts
    and unsets are local sequences here. */
module Differ {
  import opened Lcs
  import opened Sequences

  /** One row of the edit script; changed rows carry the line number they had
      in the input they come from. */
  datatype Entry<T> =
    | Old(token: T)
    | Added(token: T, line: nat)
    | Removed(token: T, line: nat)

  /** The tokens an edit script takes from the first input: all but the added ones. */
  function FromSide<T>(d: seq<Entry<T>>): seq<T> {
    if d == [] then []
    else FromSide(DropLast(d)) + if Last(d).Added? then [] else [Last(d).token]
  }

  /** The tokens an edit script yields: all but the removed ones. */
  function ToSide<T>(d: seq<Entry<T>>): seq<T> {
    if d == [] then []
    else ToSide(DropLast(d)) + if Last(d).Removed? then [] else [Last(d).token]
  }

  /** The unchanged tokens. */
  function Kept<T>(d: seq<Entry<T>>): seq<T> {
    if d == [] then []
    else Kept(DropLast(d)) + if Last(d).Old? then [Last(d).token] else []
  }

  function Changes<T>(d: seq<Entry<T>>): nat {
    if d == [] then 0
    else Changes(DropLast(d)) + if Last(d).Old? then 0 else 1
  }

  ghost predicate IsEditScript<T>(d: seq<Entry<T>>, from: seq<T>, to: seq<T>) {
    FromSide(d) == from && ToSide(d) == to
  }

  /** Every changed row carries the 1-based position of its token in its own input. */
  ghost predicate Numbered<T>(d: seq<Entry<T>>) {
    forall i :: 0 <= i < |d| ==>
      && (d[i].Removed? ==> d[i].line == |FromSide(d[..i])| + 1)
      && (d[i].Added? ==> d[i].line == |ToSide(d[..i])| + 1)
  }

  /** Where lines were replaced, the old ones stand before the new ones. */
  ghost predicate RemovalsFirst<T>(d: seq<Entry<T>>) {
    forall i :: 0 < i < |d| && d[i - 1].Added? ==> !d[i].Removed?
  }

  predicate EndsAdded<T>(d: seq<Entry<T>>) {
    d != [] && Last(d).Added?
  }

  // ------------------------------------------------------------- edit scripts

  lemma AppendInOrder<T>(d: seq<Entry<T>>, e: Entry<T>)
    requires RemovalsFirst(d) && !(EndsAdded(d) && e.Removed?)
    ensures RemovalsFirst(d + [e])
  {
  }

  lemma Append<T>(d: seq<Entry<T>>, e: Entry<T>)
    ensures FromSide(d + [e]) == FromSide(d) + if e.Added? then [] else [e.token]
    ensures ToSide(d + [e]) == ToSide(d) + if e.Removed? then [] else [e.token]
    ensures Kept(d + [e]) == Kept(d) + if e.Old? then [e.token] else []
  {
    assert DropLast(d + [e]) == d;
  }

  lemma AppendNumbered<T>(d: seq<Entry<T>>, e: Entry<T>)
    requires Numbered(d)
    requires e.Removed? ==> e.line == |FromSide(d)| + 1
    requires e.Added? ==> e.line == |ToSide(d)| + 1
    ensures Numbered(d + [e])
  {
    forall i | 0 <= i < |d + [e]|
      ensures (d + [e])[..i] == if i < |d| then d[..i] else d
    {
    }
  }

  /** What an edit script keeps is common to both sides, and every other token of
      either side is a change. */
  lemma {:induction false} KeptIsCommon<T>(d: seq<Entry<T>>)
    ensures IsCommon(Kept(d), FromSide(d), ToSide(d))
    ensures |FromSide(d)| + |ToSide(d)| == Changes(d) + 2 * |Kept(d)|
  {
    if d != [] {
      KeptIsCommon(DropLast(d));
      var kept := if Last(d).Old? then [Last(d).token] else [];
      SubsequenceReflexive(kept);
      Concat(Kept(DropLast(d)), FromSide(DropLast(d)),
             kept, if Last(d).Added? then [] else [Last(d).token]);
      Concat(Kept(DropLast(d)), ToSide(DropLast(d)),
             kept, if Last(d).Removed? then [] else [Last(d).token]);
    }
  }

  /** No edit script between two inputs gets by with fewer changes than the
      longest common subsequence leaves over. */
  lemma FewestChanges<T>(d: seq<Entry<T>>, from: seq<T>, to: seq<T>)
    requires IsEditScript(d, from, to)
    ensures Changes(d) >= |from| + |to| - 2 * Length(from, to)
  {
    KeptIsCommon(d);
    NoneLonger(Kept(d), from, to);
  }

  /** A script's numbered removals point back into the first input, its numbered
      additions into the second. */
  lemma {:induction false} LineNumbersPointBack<T>(d: seq<Entry<T>>, i: nat)
    requires Numbered(d) && i < |d|
    ensures d[i].Removed? ==> d[i].line <= |FromSide(d)| && FromSide(d)[d[i].line - 1] == d[i].token
    ensures d[i].Added? ==> d[i].line <= |ToSide(d)| && ToSide(d)[d[i].line - 1] == d[i].token
  {
    assert d == DropLast(d) + [Last(d)];
    if i < |d| - 1 {
      forall k | 0 <= k < |d| - 1
        ensures DropLast(d)[..k] == d[..k]
      {
      }
      LineNumbersPointBack(DropLast(d), i);
    }
  }

  // ------------------------------------------------------------ the algorithms

  /** One row of the dynamic programme: the common length with every prefix of `to`. */
  method CommonSubsequenceLength<T(==)>(from: seq<T>, to: seq<T>) returns (current: seq<nat>)
    ensures |current| == |to| + 1
    ensures forall j :: 0 <= j <= |to| ==> current[j] == Length(from, to[..j])
  {
    current := seq(|to| + 1, _ => 0);
    var i := 0;
    while i < |from|
      invariant 0 <= i <= |from| && |current| == |to| + 1
      invariant forall j :: 0 <= j <= |to| ==> current[j] == Length(from[..i], to[..j])
    {
      var prev := current;
      var j := 0;
      while j < |to|
        invariant 0 <= j <= |to| && |current| == |to| + 1
        invariant forall k :: 0 <= k <= j ==> current[k] == Length(from[..i + 1], to[..k])
      {
        assert DropLast(from[..i + 1]) == from[..i] && DropLast(to[..j + 1]) == to[..j];
        if from[i] == to[j] {
          current := current[j + 1 := prev[j] + 1];
        } else {
          current := current[j + 1 := Max(current[j], prev[j + 1])];
        }
        j := j + 1;
      }
      i := i + 1;
    }
    assert from[..i] == from;
  }

  /** The last cut of `to` that loses nothing. */
  ghost predicate LastBest<T>(fromStart: seq<T>, fromEnd: seq<T>, to: seq<T>, j: nat) {
    && j <= |to| && CutLength(fromStart, fromEnd, to, j) == Length(fromStart + fromEnd, to)
    && forall k :: j < k <= |to| ==> CutLength(fromStart, fromEnd, to, k) < Length(fromStart + fromEnd, to)
  }

  /** Which of the longest common subsequences it is: the first input is cut in the middle
      and the second at the last place that loses nothing, again and again. */
  ghost predicate Chosen<T>(common: seq<T>, from: seq<T>, to: seq<T>)
    decreases |from|
  {
    if |from| <= 1 then common == if from != [] && from[0] in to then from else []
    else
      var i := |from| / 2;
      exists j: nat, k: nat :: LastBest(from[..i], from[i..], to, j) && k <= |common|
        && Chosen(common[..k], from[..i], to[..j]) && Chosen(common[k..], from[i..], to[j..])
  }

  lemma ChosenParts<T>(from: seq<T>, to: seq<T>, j: nat, first: seq<T>, second: seq<T>)
    requires |from| >= 2 && LastBest(from[..|from| / 2], from[|from| / 2..], to, j)
    requires Chosen(first, from[..|from| / 2], to[..j]) && Chosen(second, from[|from| / 2..], to[j..])
    ensures Chosen(first + second, from, to)
  {
    var common, k := first + second, |first|;
    assert common[..k] == first && common[k..] == second;
  }

  /** Hirschberg's divide and conquer: a longest common subsequence. */
  method CalculateCommonSubsequence<T(==, !new)>(from: seq<T>, to: seq<T>) returns (common: seq<T>)
    ensures IsCommon(common, from, to)
    ensures |common| == Length(from, to)
    ensures forall s :: IsCommon(s, from, to) ==> |s| <= |common|
    ensures Chosen(common, from, to)
    decreases |from|
  {
    LengthIsMaximum(from, to);
    if |from| == 0 {
      return [];
    }
    if |from| == 1 {
      common := FirstMatch(from, to);
      return;
    }
    var i := |from| / 2;
    var fromStart, fromEnd := from[..i], from[i..];
    assert from == fromStart + fromEnd;
    var jMax := BestCut(fromStart, fromEnd, to);
    var toStart, toEnd := to[..jMax], to[jMax..];
    assert to == toStart + toEnd;
    var commonStart := CalculateCommonSubsequence(fromStart, toStart);
    var commonEnd := CalculateCommonSubsequence(fromEnd, toEnd);
    Concat(commonStart, fromStart, commonEnd, fromEnd);
    Concat(commonStart, toStart, commonEnd, toEnd);
    common := commonStart + commonEnd;
    ChosenParts(from, to, jMax, commonStart, commonEnd);
  }

  /** How long a common subsequence gets when `to` is cut at j. */
  ghost function CutLength<T>(fromStart: seq<T>, fromEnd: seq<T>, to: seq<T>, j: nat): nat
    requires j <= |to|
  {
    Length(fromStart, to[..j]) + Length(fromEnd, to[j..])
  }

  /** The two row programmes, the second run on the reversed inputs: together they give the
      length at every cut. */
  method CutRows<T(==)>(fromStart: seq<T>, fromEnd: seq<T>, to: seq<T>) returns (llB: seq<nat>, llE: seq<nat>)
    ensures |llB| == |llE| == |to| + 1
    ensures forall j :: 0 <= j <= |to| ==> llB[j] + llE[|to| - j] == CutLength(fromStart, fromEnd, to, j)
  {
    llB := CommonSubsequenceLength(fromStart, to);
    llE := CommonSubsequenceLength(Reverse(fromEnd), Reverse(to));
    forall j | 0 <= j <= |to|
      ensures llB[j] + llE[|to| - j] == CutLength(fromStart, fromEnd, to, j)
    {
      ReversedRow(fromEnd, to, j);
    }
  }

  /** The last cut of `to` at which the two row programmes, the second run on the
      reversed inputs, add up to the most: it loses nothing. */
  method BestCut<T(==)>(fromStart: seq<T>, fromEnd: seq<T>, to: seq<T>) returns (jMax: nat)
    ensures jMax <= |to|
    ensures CutLength(fromStart, fromEnd, to, jMax) == Length(fromStart + fromEnd, to)
    ensures forall j :: jMax < j <= |to| ==>
      CutLength(fromStart, fromEnd, to, j) < Length(fromStart + fromEnd, to)
  {
    var llB, llE := CutRows(fromStart, fromEnd, to);
    jMax := 0;
    var max := 0;
    var j := 0;
    while j <= |to|
      invariant 0 <= j <= |to| + 1 && jMax <= |to|
      invariant forall k :: 0 <= k < j ==> CutLength(fromStart, fromEnd, to, k) <= max
      invariant forall k :: jMax < k < j ==> CutLength(fromStart, fromEnd, to, k) < max
      invariant if j == 0 then max == 0 else max == CutLength(fromStart, fromEnd, to, jMax)
    {
      var m := llB[j] + llE[|to| - j];
      if m >= max {
        max, jMax := m, j;
      }
      j := j + 1;
    }
    BestLosesNothing(fromStart, fromEnd, to, jMax);
  }

  lemma BestLosesNothing<T>(fromStart: seq<T>, fromEnd: seq<T>, to: seq<T>, jMax: nat)
    requires jMax <= |to|
    requires forall k :: 0 <= k <= |to| ==>
      CutLength(fromStart, fromEnd, to, k) <= CutLength(fromStart, fromEnd, to, jMax)
    ensures CutLength(fromStart, fromEnd, to, jMax) == Length(fromStart + fromEnd, to)
  {
    var best := SplitAttained(fromStart, fromEnd, to);
    assert CutLength(fromStart, fromEnd, to, best) <= CutLength(fromStart, fromEnd, to, jMax);
    SplitBound(fromStart, fromEnd, to, jMax);
  }

  /** What the row of the reversed inputs holds at |to| - j. */
  lemma ReversedRow<T>(fromEnd: seq<T>, to: seq<T>, j: nat)
    requires j <= |to|
    ensures Length(Reverse(fromEnd), Reverse(to)[..|to| - j]) == Length(fromEnd, to[j..])
  {
    ReverseSuffix(to, j);
    LengthReverse(fromEnd, to[j..]);
  }

  lemma TakeFirst<T>(a: seq<T>, b: seq<T>)
    ensures (a + b)[..|a|] == a
  {
  }

  lemma ReverseSuffix<T>(s: seq<T>, j: nat)
    requires j <= |s|
    ensures Reverse(s)[..|s| - j] == Reverse(s[j..])
  {
    assert s[..j] + s[j..] == s;
    ReverseConcat(s[..j], s[j..]);
    TakeFirst(Reverse(s[j..]), Reverse(s[..j]));
  }

  /** The one-token case: scan `to` for the token. */
  method FirstMatch<T(==)>(from: seq<T>, to: seq<T>) returns (common: seq<T>)
    requires |from| == 1
    ensures IsCommon(common, from, to) && |common| == Length(from, to)
    ensures common == if from[0] in to then from else []
  {
    var k := 0;
    while k < |to|
      invariant 0 <= k <= |to|
      invariant from[0] !in to[..k]
    {
      if from[0] == to[k] {
        common := [to[k]];
        assert to == to[..k] + (common + to[k + 1..]);
        SubsequenceReflexive(common);
        Concat(common, common, [], to[k + 1..]);
        Concat([], to[..k], common, common + to[k + 1..]);
        assert [] + common == common == common + [] && from == common;
        NoneLonger(common, from, to);
        var longest := SomeAsLong(from, to);
        SubsequenceNotLonger(longest, from);
        return;
      }
      k := k + 1;
    }
    common := [];
    var longest := SomeAsLong(from, to);
    SubsequenceNotLonger(longest, from);
    if |longest| == 1 {
      SubsequenceTokens(longest, from, longest[0]);
      SubsequenceTokens(longest, to, longest[0]);
    }
  }

  lemma {:induction false} SubsequenceTokens<T>(s: seq<T>, t: seq<T>, x: T)
    requires IsSubsequence(s, t) && x in s
    ensures x in t
    decreases |t|
  {
    if s[0] == t[0] {
      if x != s[0] { SubsequenceTokens(s[1..], t[1..], x); }
    } else {
      SubsequenceTokens(s, t[1..], x);
    }
  }

  /** Cut the shared head and the shared tail off both inputs. */
  method GetArrayDiffParted<T(==)>(from: seq<T>, to: seq<T>)
    returns (from': seq<T>, to': seq<T>, start: seq<T>, end: seq<T>)
    ensures from == start + from' + end
    ensures to == start + to' + end
    ensures Trimmed(from, to, start, from', to', end)
    ensures from' != [] && to' != [] ==> from'[0] != to'[0] && Last(from') != Last(to')
  {
    from', to', start, end := from, to, [], [];
    while from' != [] && to' != [] && from'[0] == to'[0]
      invariant start + from' == from && start + to' == to
      decreases |from'|
    {
      start := start + [from'[0]];
      from', to' := from'[1..], to'[1..];
    }
    while from' != [] && to' != [] && Last(from') == Last(to')
      invariant start + from' + end == from && start + to' + end == to
      invariant from' != [] && to' != [] ==> from'[0] != to'[0]
      invariant from' + end != [] && to' + end != [] ==> (from' + end)[0] != (to' + end)[0]
      decreases |from'|
    {
      end := [Last(from')] + end;
      from', to' := DropLast(from'), DropLast(to');
    }
  }

  /** The rows for two inputs and their common tokens: up to the next common token the first
      input's are removed, then the second's added, then the token is kept. */
  function Script<T(==)>(from: seq<T>, to: seq<T>, common: seq<T>, fromLine: nat, toLine: nat): seq<Entry<T>>
    decreases |from| + |to|
  {
    if from != [] && (common == [] || to == [] || from[0] != common[0]) then
      [Removed(from[0], fromLine)] + Script(from[1..], to, common, fromLine + 1, toLine)
    else if to != [] && (common == [] || from == [] || to[0] != common[0]) then
      [Added(to[0], toLine)] + Script(from, to[1..], common, fromLine, toLine + 1)
    else if from != [] && to != [] && common != [] then
      [Old(common[0])] + Script(from[1..], to[1..], common[1..], fromLine + 1, toLine + 1)
    else []
  }

  ghost predicate LeadsTo<T>(diff: seq<Entry<T>>, from: seq<T>, to: seq<T>, common: seq<T>, fromLine: nat, toLine: nat,
                             goal: seq<Entry<T>>) {
    goal == diff + Script(from, to, common, fromLine, toLine)
  }

  lemma RowFirst<T>(diff: seq<Entry<T>>, row: Entry<T>, rest: seq<Entry<T>>)
    ensures diff + ([row] + rest) == diff + [row] + rest
  {
  }

  lemma LeadsByRemoval<T>(diff: seq<Entry<T>>, from: seq<T>, to: seq<T>, common: seq<T>, fromLine: nat, toLine: nat,
                          goal: seq<Entry<T>>)
    requires LeadsTo(diff, from, to, common, fromLine, toLine, goal)
    requires from != [] && (common == [] || to == [] || from[0] != common[0])
    ensures LeadsTo(diff + [Removed(from[0], fromLine)], from[1..], to, common, fromLine + 1, toLine, goal)
  {
    RowFirst(diff, Removed(from[0], fromLine), Script(from[1..], to, common, fromLine + 1, toLine));
  }

  lemma LeadsByAddition<T>(diff: seq<Entry<T>>, from: seq<T>, to: seq<T>, common: seq<T>, fromLine: nat, toLine: nat,
                           goal: seq<Entry<T>>)
    requires LeadsTo(diff, from, to, common, fromLine, toLine, goal)
    requires to != [] && (common == [] || from == [] || to[0] != common[0])
    requires from == [] || (common != [] && from[0] == common[0])
    ensures LeadsTo(diff + [Added(to[0], toLine)], from, to[1..], common, fromLine, toLine + 1, goal)
  {
    RowFirst(diff, Added(to[0], toLine), Script(from, to[1..], common, fromLine, toLine + 1));
  }

  lemma LeadsByToken<T>(diff: seq<Entry<T>>, from: seq<T>, to: seq<T>, common: seq<T>, fromLine: nat, toLine: nat,
                        goal: seq<Entry<T>>)
    requires LeadsTo(diff, from, to, common, fromLine, toLine, goal)
    requires from != [] && to != [] && common != [] && from[0] == to[0] == common[0]
    ensures LeadsTo(diff + [Old(common[0])], from[1..], to[1..], common[1..], fromLine + 1, toLine + 1, goal)
  {
    RowFirst(diff, Old(common[0]), Script(from[1..], to[1..], common[1..], fromLine + 1, toLine + 1));
  }

  /** Rows that keep the tokens. */
  function OldRows<T>(tokens: seq<T>): seq<Entry<T>> {
    if tokens == [] then [] else OldRows(DropLast(tokens)) + [Old(Last(tokens))]
  }

  /** Both inputs without the longest shared head, and then without the longest tail the
      rests share. */
  ghost predicate Trimmed<T>(from: seq<T>, to: seq<T>, start: seq<T>, from': seq<T>, to': seq<T>, end: seq<T>) {
    && from == start + from' + end && to == start + to' + end
    && (from' + end != [] && to' + end != [] ==> (from' + end)[0] != (to' + end)[0])
    && (from' != [] && to' != [] ==> Last(from') != Last(to'))
  }

  ghost predicate IsScriptOf<T>(diff: seq<Entry<T>>, start: seq<T>, from: seq<T>, to: seq<T>, end: seq<T>,
                                common: seq<T>) {
    Chosen(common, from, to)
    && diff == OldRows(start) + Script(from, to, common, |start| + 1, |start| + 1) + OldRows(end)
  }

  /** The script that is printed: determined by the two inputs. */
  ghost predicate IsTheScript<T(!new)>(diff: seq<Entry<T>>, from: seq<T>, to: seq<T>) {
    exists start, from', to', end, common ::
      Trimmed(from, to, start, from', to', end) && IsScriptOf(diff, start, from', to', end, common)
  }

  /** What is written so far and what is left make up both inputs; both line
      counters stand one past what is written. */
  ghost predicate Progress<T>(diff: seq<Entry<T>>, fromLine: nat, toLine: nat,
                              fromRest: seq<T>, toRest: seq<T>, from: seq<T>, to: seq<T>) {
    && FromSide(diff) + fromRest == from && ToSide(diff) + toRest == to
    && fromLine == |FromSide(diff)| + 1 && toLine == |ToSide(diff)| + 1
    && Numbered(diff) && RemovalsFirst(diff)
  }

  /** Shift the head of the first input into the script as a removal. */
  lemma StepRemove<T>(diff: seq<Entry<T>>, fromLine: nat, toLine: nat,
                      fromRest: seq<T>, toRest: seq<T>, from: seq<T>, to: seq<T>)
    requires fromRest != [] && Progress(diff, fromLine, toLine, fromRest, toRest, from, to) && !EndsAdded(diff)
    ensures !EndsAdded(diff + [Removed(fromRest[0], fromLine)])
    ensures Progress(diff + [Removed(fromRest[0], fromLine)], fromLine + 1, toLine, fromRest[1..], toRest, from, to)
    ensures Kept(diff + [Removed(fromRest[0], fromLine)]) == Kept(diff)
  {
    Append(diff, Removed(fromRest[0], fromLine));
    AppendNumbered(diff, Removed(fromRest[0], fromLine));
    AppendInOrder(diff, Removed(fromRest[0], fromLine));
  }

  /** Shift the head of the second input into the script as an addition. */
  lemma StepAdd<T>(diff: seq<Entry<T>>, fromLine: nat, toLine: nat,
                   fromRest: seq<T>, toRest: seq<T>, from: seq<T>, to: seq<T>)
    requires toRest != [] && Progress(diff, fromLine, toLine, fromRest, toRest, from, to)
    ensures Progress(diff + [Added(toRest[0], toLine)], fromLine, toLine + 1, fromRest, toRest[1..], from, to)
    ensures Kept(diff + [Added(toRest[0], toLine)]) == Kept(diff)
  {
    Append(diff, Added(toRest[0], toLine));
    AppendNumbered(diff, Added(toRest[0], toLine));
    AppendInOrder(diff, Added(toRest[0], toLine));
  }

  /** Shift a shared head into the script as an unchanged row. */
  lemma StepKeep<T>(diff: seq<Entry<T>>, fromLine: nat, toLine: nat,
                    fromRest: seq<T>, toRest: seq<T>, from: seq<T>, to: seq<T>, token: T)
    requires fromRest != [] && toRest != [] && fromRest[0] == toRest[0] == token
    requires Progress(diff, fromLine, toLine, fromRest, toRest, from, to)
    ensures Progress(diff + [Old(token)], fromLine + 1, toLine + 1, fromRest[1..], toRest[1..], from, to)
    ensures Kept(diff + [Old(token)]) == Kept(diff) + [token] && !EndsAdded(diff + [Old(token)])
  {
    Append(diff, Old(token));
    AppendNumbered(diff, Old(token));
    AppendInOrder(diff, Old(token));
  }

  lemma RestAfter<T>(start: seq<T>, rest: seq<T>, k: nat)
    requires k < |start|
    ensures start[k..] + rest != [] && (start[k..] + rest)[0] == start[k]
    ensures (start[k..] + rest)[1..] == start[k + 1..] + rest
  {
  }

  /** Emit the trimmed head: every token counts as a line of both inputs. */
  method EmitStart<T(==)>(start: seq<T>, ghost fromRest: seq<T>, ghost toRest: seq<T>)
    returns (diff: seq<Entry<T>>, fromLine: nat, toLine: nat)
    ensures Progress(diff, fromLine, toLine, fromRest, toRest, start + fromRest, start + toRest)
    ensures Kept(diff) == start && !EndsAdded(diff)
    ensures diff == OldRows(start) && fromLine == toLine == |start| + 1
  {
    diff, fromLine, toLine := [], 1, 1;
    var k := 0;
    while k < |start|
      invariant 0 <= k <= |start|
      invariant Progress(diff, fromLine, toLine, start[k..] + fromRest, start[k..] + toRest,
                         start + fromRest, start + toRest)
      invariant Kept(diff) == start[..k] && !EndsAdded(diff)
      invariant diff == OldRows(start[..k]) && fromLine == toLine == k + 1
    {
      assert DropLast(start[..k + 1]) == start[..k];
      RestAfter(start, fromRest, k);
      RestAfter(start, toRest, k);
      StepKeep(diff, fromLine, toLine, start[k..] + fromRest, start[k..] + toRest,
               start + fromRest, start + toRest, start[k]);
      TakeOneMore([], start, k);
      diff := diff + [Old(start[k])];
      fromLine, toLine := fromLine + 1, toLine + 1;
      k := k + 1;
    }
    assert start[k..] + fromRest == fromRest && start[k..] + toRest == toRest && start[..k] == start;
  }

  /** Remove and add up to the next common token on both sides, then keep it. */
  method EmitToken<T(==)>(diff0: seq<Entry<T>>, fromLine0: nat, toLine0: nat, from0: seq<T>, to0: seq<T>,
                          token: T, ghost rest: seq<T>, ghost from: seq<T>, ghost to: seq<T>,
                          ghost goal: seq<Entry<T>>)
    returns (diff: seq<Entry<T>>, fromLine: nat, toLine: nat, from': seq<T>, to': seq<T>)
    requires IsCommon([token] + rest, from0, to0)
    requires Progress(diff0, fromLine0, toLine0, from0, to0, from, to) && !EndsAdded(diff0)
    requires LeadsTo(diff0, from0, to0, [token] + rest, fromLine0, toLine0, goal)
    ensures LeadsTo(diff, from', to', rest, fromLine, toLine, goal)
    ensures IsCommon(rest, from', to')
    ensures Progress(diff, fromLine, toLine, from', to', from, to)
    ensures Kept(diff) == Kept(diff0) + [token] && !EndsAdded(diff)
  {
    diff, fromLine, toLine, from', to' := diff0, fromLine0, toLine0, from0, to0;
    ghost var wanted := [token] + rest;
    assert wanted[1..] == rest;
    while from' != [] && from'[0] != token
      invariant IsSubsequence(wanted, from') && Kept(diff) == Kept(diff0) && !EndsAdded(diff)
      invariant Progress(diff, fromLine, toLine, from', to', from, to)
      invariant LeadsTo(diff, from', to', wanted, fromLine, toLine, goal)
      decreases |from'|
    {
      LeadsByRemoval(diff, from', to', wanted, fromLine, toLine, goal);
      StepRemove(diff, fromLine, toLine, from', to', from, to);
      diff := diff + [Removed(from'[0], fromLine)];
      from', fromLine := from'[1..], fromLine + 1;
    }
    while to' != [] && token != to'[0]
      invariant IsSubsequence(wanted, to') && Kept(diff) == Kept(diff0)
      invariant Progress(diff, fromLine, toLine, from', to', from, to)
      invariant LeadsTo(diff, from', to', wanted, fromLine, toLine, goal)
      decreases |to'|
    {
      LeadsByAddition(diff, from', to', wanted, fromLine, toLine, goal);
      StepAdd(diff, fromLine, toLine, from', to', from, to);
      diff := diff + [Added(to'[0], toLine)];
      to', toLine := to'[1..], toLine + 1;
    }
    LeadsByToken(diff, from', to', wanted, fromLine, toLine, goal);
    StepKeep(diff, fromLine, toLine, from', to', from, to, token);
    diff := diff + [Old(token)];
    fromLine, toLine := fromLine + 1, toLine + 1;
    from', to' := from'[1..], to'[1..];
  }

  /** Emit up to each common token in turn. */
  method EmitCommon<T(==)>(diff0: seq<Entry<T>>, fromLine0: nat, toLine0: nat, from0: seq<T>, to0: seq<T>,
                           common: seq<T>, ghost from: seq<T>, ghost to: seq<T>, ghost goal: seq<Entry<T>>)
    returns (diff: seq<Entry<T>>, fromLine: nat, toLine: nat, from': seq<T>, to': seq<T>)
    requires IsCommon(common, from0, to0)
    requires Progress(diff0, fromLine0, toLine0, from0, to0, from, to) && !EndsAdded(diff0)
    requires LeadsTo(diff0, from0, to0, common, fromLine0, toLine0, goal)
    ensures LeadsTo(diff, from', to', [], fromLine, toLine, goal)
    ensures Progress(diff, fromLine, toLine, from', to', from, to)
    ensures Kept(diff) == Kept(diff0) + common && !EndsAdded(diff)
  {
    diff, fromLine, toLine, from', to' := diff0, fromLine0, toLine0, from0, to0;
    var k := 0;
    while k < |common|
      invariant 0 <= k <= |common|
      invariant IsCommon(common[k..], from', to')
      invariant Progress(diff, fromLine, toLine, from', to', from, to)
      invariant Kept(diff) == Kept(diff0) + common[..k] && !EndsAdded(diff)
      invariant LeadsTo(diff, from', to', common[k..], fromLine, toLine, goal)
    {
      assert common[k..] == [common[k]] + common[k + 1..];
      diff, fromLine, toLine, from', to' :=
        EmitToken(diff, fromLine, toLine, from', to', common[k], common[k + 1..], from, to, goal);
      k := k + 1;
    }
    assert common[..k] == common && common[k..] == [];
  }

  /** Whatever is left after the last common token is removed, then added. */
  method EmitRemainder<T>(diff0: seq<Entry<T>>, fromLine0: nat, toLine0: nat, from0: seq<T>, to0: seq<T>,
                          ghost from: seq<T>, ghost to: seq<T>, ghost goal: seq<Entry<T>>)
    returns (diff: seq<Entry<T>>)
    requires Progress(diff0, fromLine0, toLine0, from0, to0, from, to) && !EndsAdded(diff0)
    requires LeadsTo(diff0, from0, to0, [], fromLine0, toLine0, goal)
    ensures diff == goal
    ensures IsEditScript(diff, from, to) && Numbered(diff) && RemovalsFirst(diff) && Kept(diff) == Kept(diff0)
  {
    var fromLine, toLine, from', to' := fromLine0, toLine0, from0, to0;
    diff := diff0;
    while from' != []
      invariant Progress(diff, fromLine, toLine, from', to', from, to)
      invariant Kept(diff) == Kept(diff0) && !EndsAdded(diff)
      invariant LeadsTo(diff, from', to', [], fromLine, toLine, goal)
      decreases |from'|
    {
      LeadsByRemoval(diff, from', to', [], fromLine, toLine, goal);
      StepRemove(diff, fromLine, toLine, from', to', from, to);
      diff := diff + [Removed(from'[0], fromLine)];
      from', fromLine := from'[1..], fromLine + 1;
    }
    while to' != []
      invariant Progress(diff, fromLine, toLine, [], to', from, to) && Kept(diff) == Kept(diff0)
      invariant LeadsTo(diff, [], to', [], fromLine, toLine, goal)
      decreases |to'|
    {
      LeadsByAddition(diff, [], to', [], fromLine, toLine, goal);
      StepAdd(diff, fromLine, toLine, [], to', from, to);
      diff := diff + [Added(to'[0], toLine)];
      to', toLine := to'[1..], toLine + 1;
    }
  }

  /** Emit the trimmed tail. */
  method EmitEnd<T>(diff0: seq<Entry<T>>, end: seq<T>) returns (diff: seq<Entry<T>>)
    requires Numbered(diff0) && RemovalsFirst(diff0)
    ensures Numbered(diff) && RemovalsFirst(diff) && Kept(diff) == Kept(diff0) + end
    ensures IsEditScript(diff, FromSide(diff0) + end, ToSide(diff0) + end)
    ensures diff == diff0 + OldRows(end)
  {
    ghost var from, to, kept := FromSide(diff0), ToSide(diff0), Kept(diff0);
    diff := diff0;
    var k := 0;
    assert from + end[..0] == from && to + end[..0] == to && kept + end[..0] == kept;
    while k < |end|
      invariant 0 <= k <= |end| && Ended(diff, from + end[..k], to + end[..k], kept + end[..k])
      invariant diff == diff0 + OldRows(end[..k])
    {
      OldRowsMore(diff0, end, k);
      EndStep(diff, from + end[..k], to + end[..k], kept + end[..k], end[k]);
      TakeOneMore(from, end, k);
      TakeOneMore(to, end, k);
      TakeOneMore(kept, end, k);
      diff := diff + [Old(end[k])];
      k := k + 1;
    }
    assert end[..k] == end;
  }

  lemma OldRowsMore<T>(diff: seq<Entry<T>>, end: seq<T>, k: nat)
    requires k < |end|
    ensures diff + OldRows(end[..k + 1]) == diff + OldRows(end[..k]) + [Old(end[k])]
  {
    assert DropLast(end[..k + 1]) == end[..k];
  }

  ghost predicate Ended<T>(diff: seq<Entry<T>>, from: seq<T>, to: seq<T>, kept: seq<T>) {
    IsEditScript(diff, from, to) && Numbered(diff) && RemovalsFirst(diff) && Kept(diff) == kept
  }

  lemma EndStep<T>(diff: seq<Entry<T>>, from: seq<T>, to: seq<T>, kept: seq<T>, token: T)
    requires Ended(diff, from, to, kept)
    ensures Ended(diff + [Old(token)], from + [token], to + [token], kept + [token])
  {
    Append(diff, Old(token));
    AppendNumbered(diff, Old(token));
    AppendInOrder(diff, Old(token));
  }

  lemma TakeOneMore<T>(a: seq<T>, b: seq<T>, k: nat)
    requires k < |b|
    ensures a + b[..k + 1] == a + b[..k] + [b[k]]
  {
  }

  /** The edit script between two inputs. It rebuilds both, numbers its changes by
      their place in their own input, puts removals before additions, and no other script
      has fewer changes. */
  method DiffToArray<T(==, !new)>(from: seq<T>, to: seq<T>) returns (diff: seq<Entry<T>>)
    ensures IsEditScript(diff, from, to)
    ensures Numbered(diff) && RemovalsFirst(diff)
    ensures Changes(diff) == |from| + |to| - 2 * Length(from, to)
    ensures forall e :: IsEditScript(e, from, to) ==> Changes(diff) <= Changes(e)
    ensures IsTheScript(diff, from, to)
  {
    var from', to', start, end := GetArrayDiffParted(from, to);
    var common := CalculateCommonSubsequence(from', to');
    ghost var fromMid, toMid := from', to';
    LengthTrim(start, from', to', end);
    ghost var allFrom, allTo := start + from', start + to';
    var fromLine, toLine;
    diff, fromLine, toLine := EmitStart(start, from', to');
    ghost var goal := diff + Script(from', to', common, fromLine, toLine);
    diff, fromLine, toLine, from', to' := EmitCommon(diff, fromLine, toLine, from', to', common, allFrom, allTo, goal);
    diff := EmitRemainder(diff, fromLine, toLine, from', to', allFrom, allTo, goal);
    diff := EmitEnd(diff, end);
    assert IsScriptOf(diff, start, fromMid, toMid, end, common);
    KeptIsCommon(diff);
    NoScriptIsShorter(diff, from, to);
  }

  lemma NoScriptIsShorter<T(!new)>(d: seq<Entry<T>>, from: seq<T>, to: seq<T>)
    requires Changes(d) == |from| + |to| - 2 * Length(from, to)
    ensures forall e :: IsEditScript(e, from, to) ==> Changes(d) <= Changes(e)
  {
    forall e | IsEditScript(e, from, to)
      ensures Changes(d) <= Changes(e)
    {
      FewestChanges(e, from, to);
    }
  }
}
