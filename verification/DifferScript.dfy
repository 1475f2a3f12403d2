/** The printed script is determined by its two inputs: there is one way to trim them, one
    common subsequence that is chosen, and one script for it. */
module DifferScript {
  import opened Lcs
  import opened Sequences
  import opened Differ

  lemma LastBestUnique<T>(fromStart: seq<T>, fromEnd: seq<T>, to: seq<T>, j: nat, k: nat)
    requires LastBest(fromStart, fromEnd, to, j) && LastBest(fromStart, fromEnd, to, k)
    ensures j == k
  {
  }

  /** The parts of a chosen subsequence: it is cut where the inputs are. */
  lemma ChosenMeans<T>(c: seq<T>, from: seq<T>, to: seq<T>) returns (j: nat, k: nat)
    requires Chosen(c, from, to) && |from| > 1
    ensures var i := |from| / 2;
      && LastBest(from[..i], from[i..], to, j) && k <= |c|
      && Chosen(c[..k], from[..i], to[..j]) && Chosen(c[k..], from[i..], to[j..])
  {
    var i := |from| / 2;
    j, k :| LastBest(from[..i], from[i..], to, j) && k <= |c|
      && Chosen(c[..k], from[..i], to[..j]) && Chosen(c[k..], from[i..], to[j..]);
  }

  lemma SameParts<T>(c: seq<T>, d: seq<T>, k: nat, l: nat)
    requires k <= |c| && l <= |d| && c[..k] == d[..l] && c[k..] == d[l..]
    ensures c == d
  {
    assert c == c[..k] + c[k..] && d == d[..l] + d[l..];
  }

  /** Of the longest common subsequences one is chosen. */
  lemma {:induction false} ChosenUnique<T>(c: seq<T>, d: seq<T>, from: seq<T>, to: seq<T>)
    requires Chosen(c, from, to) && Chosen(d, from, to)
    ensures c == d
    decreases |from|
  {
    if |from| > 1 {
      var i := |from| / 2;
      var j, k := ChosenMeans(c, from, to);
      var j', l := ChosenMeans(d, from, to);
      LastBestUnique(from[..i], from[i..], to, j, j');
      ChosenUnique(c[..k], d[..l], from[..i], to[..j]);
      ChosenUnique(c[k..], d[l..], from[i..], to[j..]);
      SameParts(c, d, k, l);
    }
  }

  // ------------------------------------------------------------------- trimming

  lemma HeadShared<T>(start: seq<T>, f: seq<T>, t: seq<T>)
    ensures forall n :: 0 <= n < |start| ==> (start + f)[n] == (start + t)[n]
  {
  }

  lemma BehindHead<T>(start: seq<T>, f: seq<T>)
    ensures f != [] ==> (start + f)[|start|] == f[0]
  {
  }

  lemma HeadUnique<T>(start: seq<T>, f: seq<T>, t: seq<T>, start': seq<T>, f': seq<T>, t': seq<T>)
    requires start + f == start' + f' && start + t == start' + t'
    requires f' != [] && t' != [] ==> f'[0] != t'[0]
    ensures |start| <= |start'|
  {
    HeadShared(start, f, t);
    BehindHead(start', f');
    BehindHead(start', t');
    assert |start + f| == |start' + f'| && |start + t| == |start' + t'|;
  }

  lemma TailShared<T>(f: seq<T>, t: seq<T>, end: seq<T>, n: nat)
    ensures n < |end| ==> (f + end)[|f + end| - 1 - n] == (t + end)[|t + end| - 1 - n]
  {
  }

  lemma BeforeTail<T>(f: seq<T>, end: seq<T>)
    ensures f != [] ==> (f + end)[|f + end| - 1 - |end|] == Last(f)
  {
  }

  lemma TailUnique<T>(f: seq<T>, t: seq<T>, end: seq<T>, f': seq<T>, t': seq<T>, end': seq<T>)
    requires f + end == f' + end' && t + end == t' + end'
    requires f' != [] && t' != [] ==> Last(f') != Last(t')
    ensures |end| <= |end'|
  {
    TailShared(f, t, end, |end'|);
    BeforeTail(f', end');
    BeforeTail(t', end');
    assert |f + end| == |f' + end'| && |t + end| == |t' + end'|;
  }

  lemma SplitSame<T>(a: seq<T>, b: seq<T>, a': seq<T>, b': seq<T>)
    requires a + b == a' + b' && |a| == |a'|
    ensures a == a' && b == b'
  {
    assert a == (a + b)[..|a|] && a' == (a' + b')[..|a|];
    assert b == (a + b)[|a|..] && b' == (a' + b')[|a|..];
  }

  /** There is one way to set the shared head and the shared tail aside. */
  lemma TrimmedUnique<T>(from: seq<T>, to: seq<T>, start: seq<T>, f: seq<T>, t: seq<T>, end: seq<T>,
                         start': seq<T>, f': seq<T>, t': seq<T>, end': seq<T>)
    requires Trimmed(from, to, start, f, t, end) && Trimmed(from, to, start', f', t', end')
    ensures start == start' && f == f' && t == t' && end == end'
  {
    Regrouped(start, f, end);
    Regrouped(start, t, end);
    Regrouped(start', f', end');
    Regrouped(start', t', end');
    HeadUnique(start, f + end, t + end, start', f' + end', t' + end');
    HeadUnique(start', f' + end', t' + end', start, f + end, t + end);
    SplitSame(start, f + end, start', f' + end');
    SplitSame(start, t + end, start', t' + end');
    TailUnique(f, t, end, f', t', end');
    TailUnique(f', t', end', f, t, end);
    SplitSame(f, end, f', end');
    SplitSame(t, end, t', end');
  }

  lemma Regrouped<T>(a: seq<T>, b: seq<T>, c: seq<T>)
    ensures a + b + c == a + (b + c)
  {
  }

  /** Two inputs have one script. */
  lemma TheScriptUnique<T(!new)>(d: seq<Entry<T>>, e: seq<Entry<T>>, from: seq<T>, to: seq<T>)
    requires IsTheScript(d, from, to) && IsTheScript(e, from, to)
    ensures d == e
  {
    var start, f, t, end, common :|
      Trimmed(from, to, start, f, t, end) && IsScriptOf(d, start, f, t, end, common);
    var start', f', t', end', common' :|
      Trimmed(from, to, start', f', t', end') && IsScriptOf(e, start', f', t', end', common');
    TrimmedUnique(from, to, start, f, t, end, start', f', t', end');
    ChosenUnique(common, common', f, t);
  }
}
