/** `DiffOutputBuilder::getDiff`: which rows of an edit script are printed, and
    where the `--` separators go. A printed row is one `Line`; the zero-padded
    column layout of a row is not modelled. */
module DiffOutput {
  import opened Differ
  import opened Lcs

  datatype Line<T> =
    | Separator
    | Context(token: T)
    | Plus(line: nat, token: T)
    | Minus(line: nat, token: T)

  function RowLine<T>(e: Entry<T>): Line<T> {
    match e
    case Old(token) => Context(token)
    case Added(token, line) => Plus(line, token)
    case Removed(token, line) => Minus(line, token)
  }

  function Distance(i: int, j: int): nat {
    if i <= j then j - i else i - j
  }

  /** Row i is printed when some changed row is at most c rows away. */
  ghost predicate Shown<T>(d: seq<Entry<T>>, c: nat, i: nat)
    requires i < |d|
  {
    exists j :: 0 <= j < |d| && !d[j].Old? && Distance(i, j) <= c
  }

  /** The intended output from row i on: the shown rows in order, and one
      separator for every maximal run of hidden rows. */
  ghost function Excerpt<T>(d: seq<Entry<T>>, c: nat, i: nat, hidden: bool): seq<Line<T>>
    requires i <= |d|
    decreases |d| - i
  {
    if i == |d| then (if hidden then [Separator] else [])
    else if Shown(d, c, i) then
      (if hidden then [Separator] else []) + [RowLine(d[i])] + Excerpt(d, c, i + 1, false)
    else Excerpt(d, c, i + 1, true)
  }

  // ------------------------------------------------------- what an excerpt is

  /** The rows of an excerpt, without its separators. */
  ghost function Rows<T>(out: seq<Line<T>>): seq<Line<T>> {
    if out == [] then [] else (if out[0].Separator? then [] else [out[0]]) + Rows(out[1..])
  }

  ghost function ShownRows<T>(d: seq<Entry<T>>, c: nat, i: nat): seq<Line<T>>
    requires i <= |d|
    decreases |d| - i
  {
    if i == |d| then []
    else (if Shown(d, c, i) then [RowLine(d[i])] else []) + ShownRows(d, c, i + 1)
  }

  /** Hidden rows print nothing until the next shown row or the end. */
  lemma {:induction false} HiddenRun<T>(d: seq<Entry<T>>, c: nat, i: nat, k: nat, hidden: bool)
    requires i <= k <= |d|
    requires forall j :: i <= j < k ==> !Shown(d, c, j)
    ensures Excerpt(d, c, i, hidden) == Excerpt(d, c, k, hidden || i < k)
    decreases k - i
  {
    if i < k { HiddenRun(d, c, i + 1, k, true); }
  }

  /** What row k of the script comes to: the row itself if it is shown, and else a separator
      if it is the last of a run of hidden rows. */
  ghost function LinesOfRow<T>(d: seq<Entry<T>>, c: nat, k: nat): seq<Line<T>>
    requires k < |d|
  {
    if Shown(d, c, k) then [RowLine(d[k])]
    else if k + 1 == |d| || Shown(d, c, k + 1) then [Separator]
    else []
  }

  ghost function LinesFrom<T>(d: seq<Entry<T>>, c: nat, k: nat): seq<Line<T>>
    requires k <= |d|
    decreases |d| - k
  {
    if k == |d| then [] else LinesOfRow(d, c, k) + LinesFrom(d, c, k + 1)
  }

  /** The separator that is due where a run of hidden rows ends. */
  ghost function Due<T>(d: seq<Entry<T>>, c: nat, k: nat, hidden: bool): seq<Line<T>>
    requires k <= |d|
  {
    if hidden && (k == |d| || Shown(d, c, k)) then [Separator] else []
  }

  lemma RowAdded<T>(d: seq<Entry<T>>, c: nat, k: nat, hidden: bool)
    requires k < |d|
    requires Excerpt(d, c, k + 1, !Shown(d, c, k)) == Due(d, c, k + 1, !Shown(d, c, k)) + LinesFrom(d, c, k + 1)
    ensures Excerpt(d, c, k, hidden) == Due(d, c, k, hidden) + (LinesOfRow(d, c, k) + LinesFrom(d, c, k + 1))
  {
    var due, row, rest := Due(d, c, k, hidden), LinesOfRow(d, c, k), LinesFrom(d, c, k + 1);
    assert due + (row + rest) == due + row + rest;
    if Shown(d, c, k) {
      assert Excerpt(d, c, k + 1, false) == rest;
    } else {
      assert due + row == Due(d, c, k + 1, true);
    }
  }

  /** An excerpt is made up row by row. */
  lemma {:induction false} ExcerptRowByRow<T>(d: seq<Entry<T>>, c: nat, k: nat, hidden: bool)
    requires k <= |d|
    ensures Excerpt(d, c, k, hidden) == Due(d, c, k, hidden) + LinesFrom(d, c, k)
    decreases |d| - k
  {
    if k < |d| {
      ExcerptRowByRow(d, c, k + 1, !Shown(d, c, k));
      RowAdded(d, c, k, hidden);
    }
  }

  lemma WholeExcerpt<T>(d: seq<Entry<T>>, c: nat)
    ensures Excerpt(d, c, 0, false) == LinesFrom(d, c, 0)
  {
    ExcerptRowByRow(d, c, 0, false);
    assert [] + LinesFrom(d, c, 0) == LinesFrom(d, c, 0);
  }

  lemma {:induction false} RowsConcat<T>(a: seq<Line<T>>, b: seq<Line<T>>)
    ensures Rows(a + b) == Rows(a) + Rows(b)
  {
    if a == [] {
      assert a + b == b;
    } else {
      assert (a + b)[1..] == a[1..] + b;
      RowsConcat(a[1..], b);
    }
  }

  lemma RowsOfOne<T>(x: Line<T>)
    ensures Rows([x]) == if x.Separator? then [] else [x]
  {
    assert [x][1..] == [];
  }

  lemma {:induction false} LinesRows<T>(d: seq<Entry<T>>, c: nat, k: nat)
    requires k <= |d|
    ensures Rows(LinesFrom(d, c, k)) == ShownRows(d, c, k)
    decreases |d| - k
  {
    if k < |d| {
      LinesRows(d, c, k + 1);
      RowsConcat(LinesOfRow(d, c, k), LinesFrom(d, c, k + 1));
      RowsOfOne(RowLine(d[k]));
      RowsOfOne<T>(Separator);
    }
  }

  /** Without its separators an excerpt is the shown rows. */
  lemma ExcerptRows<T>(d: seq<Entry<T>>, c: nat, k: nat, hidden: bool)
    requires k <= |d|
    ensures Rows(Excerpt(d, c, k, hidden)) == ShownRows(d, c, k)
  {
    ExcerptRowByRow(d, c, k, hidden);
    RowsConcat(Due(d, c, k, hidden), LinesFrom(d, c, k));
    RowsOfOne<T>(Separator);
    LinesRows(d, c, k);
  }

  lemma {:induction false} LineOfSomeRow<T>(d: seq<Entry<T>>, c: nat, k: nat, x: Line<T>) returns (i: nat)
    requires k <= |d| && x in LinesFrom(d, c, k) && !x.Separator?
    ensures k <= i < |d| && Shown(d, c, i) && x == RowLine(d[i])
    decreases |d| - k
  {
    if x in LinesOfRow(d, c, k) {
      i := k;
    } else {
      i := LineOfSomeRow(d, c, k + 1, x);
    }
  }

  lemma {:induction false} ChangePrinted<T>(d: seq<Entry<T>>, c: nat, k: nat, i: nat)
    requires k <= i < |d| && !d[i].Old?
    ensures RowLine(d[i]) in LinesFrom(d, c, k)
    decreases |d| - k
  {
    if k == i {
      assert Distance(i, i) <= c;
      assert LinesOfRow(d, c, i) == [RowLine(d[i])];
      assert LinesFrom(d, c, i)[0] == RowLine(d[i]);
    } else {
      ChangePrinted(d, c, k + 1, i);
      assert LinesFrom(d, c, k) == LinesOfRow(d, c, k) + LinesFrom(d, c, k + 1);
    }
  }

  /** A line printed with a minus and a number is that line of the first input, one with a
      plus that of the second, and one with neither a line of both. */
  ghost predicate PointsBack<T>(x: Line<T>, from: seq<T>, to: seq<T>) {
    match x
    case Separator => true
    case Context(token) => token in from && token in to
    case Minus(line, token) => 1 <= line <= |from| && from[line - 1] == token
    case Plus(line, token) => 1 <= line <= |to| && to[line - 1] == token
  }

  lemma {:induction false} UnchangedIsCommon<T>(d: seq<Entry<T>>, i: nat)
    requires i < |d| && d[i].Old?
    ensures d[i].token in FromSide(d) && d[i].token in ToSide(d)
    decreases |d|
  {
    if i < |d| - 1 { UnchangedIsCommon(d[..|d| - 1], i); }
  }

  lemma RowPointsBack<T>(d: seq<Entry<T>>, i: nat, from: seq<T>, to: seq<T>)
    requires IsEditScript(d, from, to) && Numbered(d) && i < |d|
    ensures PointsBack(RowLine(d[i]), from, to)
  {
    LineNumbersPointBack(d, i);
    if d[i].Old? { UnchangedIsCommon(d, i); }
  }

  // ------------------------------------------------------------ the algorithm

  ghost predicate Quiet<T>(d: seq<Entry<T>>, i: nat, k: nat)
    requires i <= k <= |d|
  {
    forall j :: i <= j < k ==> d[j].Old?
  }

  /** The buffer is the intended output up to row i, with no run of hidden rows open. */
  ghost predicate Printed<T>(d: seq<Entry<T>>, c: nat, buffer: seq<Line<T>>, i: nat)
    requires i <= |d|
  {
    buffer + Excerpt(d, c, i, false) == Excerpt(d, c, 0, false)
  }

  lemma PrintRow<T>(d: seq<Entry<T>>, c: nat, buffer: seq<Line<T>>, i: nat, changed: nat)
    requires i < |d| && Printed(d, c, buffer, i)
    requires changed < |d| && !d[changed].Old? && Distance(i, changed) <= c
    ensures Printed(d, c, buffer + [RowLine(d[i])], i + 1)
  {
    assert Shown(d, c, i);
    assert Excerpt(d, c, i, false) == [RowLine(d[i])] + Excerpt(d, c, i + 1, false);
    assert buffer + ([RowLine(d[i])] + Excerpt(d, c, i + 1, false))
        == (buffer + [RowLine(d[i])]) + Excerpt(d, c, i + 1, false);
  }

  /** The unchanged rows i..next, all within reach of the change at `next`. */
  method PrintLeadingContext<T>(diffs: seq<Entry<T>>, c: nat, buffer0: seq<Line<T>>, i0: nat, next: nat)
    returns (buffer: seq<Line<T>>)
    requires i0 <= next < |diffs| && next - i0 <= c && !diffs[next].Old?
    requires Quiet(diffs, i0, next) && Printed(diffs, c, buffer0, i0)
    ensures Printed(diffs, c, buffer, next)
  {
    buffer := buffer0;
    var i := i0;
    while i < next
      invariant i0 <= i <= next && Printed(diffs, c, buffer, i)
    {
      PrintRow(diffs, c, buffer, i, next);
      buffer := buffer + [Context(diffs[i].token)];
      i := i + 1;
    }
  }

  /** The run of changed rows that starts at `next`. */
  method PrintChanges<T>(diffs: seq<Entry<T>>, c: nat, buffer0: seq<Line<T>>, next: nat)
    returns (buffer: seq<Line<T>>, i: nat)
    requires next < |diffs| && !diffs[next].Old? && Printed(diffs, c, buffer0, next)
    ensures next < i <= |diffs| && !diffs[i - 1].Old? && (i < |diffs| ==> diffs[i].Old?)
    ensures Printed(diffs, c, buffer, i)
  {
    buffer, i := buffer0, next;
    while i < |diffs| && !diffs[i].Old?
      invariant next <= i <= |diffs| && (next < i ==> !diffs[i - 1].Old?)
      invariant Printed(diffs, c, buffer, i)
    {
      PrintRow(diffs, c, buffer, i, i);
      match diffs[i] {
        case Added(token, line) => buffer := buffer + [Plus(line, token)];
        case Removed(token, line) => buffer := buffer + [Minus(line, token)];
      }
      i := i + 1;
    }
  }

  /** Up to c unchanged rows after the change just before i0. */
  method PrintTrailingContext<T>(diffs: seq<Entry<T>>, c: nat, buffer0: seq<Line<T>>, i0: nat)
    returns (buffer: seq<Line<T>>, i: nat)
    requires 0 < i0 <= |diffs| && !diffs[i0 - 1].Old? && Printed(diffs, c, buffer0, i0)
    ensures i0 <= i <= |diffs| && Quiet(diffs, i0, i) && Printed(diffs, c, buffer, i)
    ensures i == |diffs| || !diffs[i].Old? || i == i0 + c
  {
    buffer, i := buffer0, i0;
    var afterContext := if i + c < |diffs| then i + c else |diffs|;
    while i < afterContext && diffs[i].Old?
      invariant i0 <= i <= afterContext && Quiet(diffs, i0, i) && Printed(diffs, c, buffer, i)
    {
      PrintRow(diffs, c, buffer, i, i0 - 1);
      buffer := buffer + [Context(diffs[i].token)];
      i := i + 1;
    }
  }

  /** Skipping rows that lie out of reach of every change prints one separator. */
  lemma SkipRows<T>(d: seq<Entry<T>>, c: nat, buffer: seq<Line<T>>, i: nat, k: nat)
    requires i < k <= |d| && Printed(d, c, buffer, i)
    requires forall j :: i <= j < k ==> !Shown(d, c, j)
    requires k < |d| ==> Shown(d, c, k)
    ensures k < |d| ==> Printed(d, c, buffer + [Separator], k)
    ensures k == |d| ==> buffer + [Separator] == Excerpt(d, c, 0, false)
  {
    HiddenRun(d, c, i, k, false);
    if k < |d| {
      assert Excerpt(d, c, k, true) == [Separator] + Excerpt(d, c, k, false);
      assert buffer + ([Separator] + Excerpt(d, c, k, false)) == (buffer + [Separator]) + Excerpt(d, c, k, false);
    }
  }

  method GetDiff<T>(diffs: seq<Entry<T>>, contextLineCount: nat) returns (buffer: seq<Line<T>>)
    ensures buffer == Excerpt(diffs, contextLineCount, 0, false)
    ensures Rows(buffer) == ShownRows(diffs, contextLineCount, 0)
  {
    var c := contextLineCount;
    ExcerptRows(diffs, c, 0, false);
    var i := 0;
    buffer := [];
    while i < |diffs|
      invariant 0 <= i <= |diffs| && Printed(diffs, c, buffer, i)
      invariant i == |diffs| || !diffs[i].Old? || forall j :: 0 <= j < i && !diffs[j].Old? ==> i - j > c
      decreases |diffs| - i
    {
      var next := i;
      while next < |diffs| && diffs[next].Old?
        invariant i <= next <= |diffs| && Quiet(diffs, i, next)
      {
        next := next + 1;
      }
      if next == |diffs| {
        SkipRows(diffs, c, buffer, i, |diffs|);
        if i - 1 < |diffs| {
          buffer := buffer + [Separator];
        }
        return;
      }
      if i < next - c {
        assert Distance(next - c, next) <= c;
        SkipRows(diffs, c, buffer, i, next - c);
        buffer := buffer + [Separator];
        i := next - c;
      }
      buffer := PrintLeadingContext(diffs, c, buffer, i, next);
      buffer, i := PrintChanges(diffs, c, buffer, next);
      buffer, i := PrintTrailingContext(diffs, c, buffer, i);
    }
  }

  /** The printed difference of two inputs: every line of it points back to where it comes
      from, and every change of a script with the fewest changes is printed. */
  method Diff<T(==, !new)>(from: seq<T>, to: seq<T>, contextLineCount: nat)
    returns (buffer: seq<Line<T>>, ghost script: seq<Entry<T>>)
    ensures IsEditScript(script, from, to) && Changes(script) == |from| + |to| - 2 * Length(from, to)
    ensures IsTheScript(script, from, to) && buffer == Excerpt(script, contextLineCount, 0, false)
    ensures forall x :: x in buffer ==> PointsBack(x, from, to)
    ensures forall i :: 0 <= i < |script| && !script[i].Old? ==> RowLine(script[i]) in buffer
  {
    var diffs := DiffToArray(from, to);
    script := diffs;
    buffer := GetDiff(diffs, contextLineCount);
    WholeExcerpt(diffs, contextLineCount);
    forall x | x in buffer ensures PointsBack(x, from, to) {
      if !x.Separator? {
        var i := LineOfSomeRow(diffs, contextLineCount, 0, x);
        RowPointsBack(diffs, i, from, to);
      }
    }
    forall i | 0 <= i < |script| && !script[i].Old? ensures RowLine(script[i]) in buffer {
      ChangePrinted(diffs, contextLineCount, 0, i);
    }
  }
}
