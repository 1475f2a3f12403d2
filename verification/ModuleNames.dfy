/** Names of modules, which are compared without regard to ASCII case. */
module ModuleNames {

  function Lower(c: char): char {
    if 'A' <= c <= 'Z' then c - 'A' + 'a' else c
  }

  /** What a name is compared by. */
  function Fold(s: string): string {
    if s == "" then "" else Fold(s[..|s| - 1]) + [Lower(s[|s| - 1])]
  }

  /** c is the capital and d the small form of the i-th of the 26 ASCII letters. */
  predicate CaseForms(c: char, d: char, i: nat) {
    i < 26 && c as int == 65 + i && d as int == 97 + i
  }

  /** The same character, or the two forms of the same ASCII letter. */
  ghost predicate SameLetter(c: char, d: char) {
    c == d || exists i: nat :: CaseForms(c, d, i) || CaseForms(d, c, i)
  }

  lemma LowerSame(c: char, d: char)
    ensures Lower(c) == Lower(d) <==> SameLetter(c, d)
  {
    if 'A' <= c <= 'Z' && Lower(c) == d { assert CaseForms(c, d, c as int - 65); }
    if 'A' <= d <= 'Z' && Lower(d) == c { assert CaseForms(d, c, d as int - 65); }
  }

  lemma {:induction false} FoldAt(s: string)
    ensures |Fold(s)| == |s| && forall i :: 0 <= i < |s| ==> Fold(s)[i] == Lower(s[i])
  {
    if s != "" { FoldAt(s[..|s| - 1]); }
  }

  /** Two names are taken for the same if and only if they agree, character by character,
      but for the case of ASCII letters. */
  lemma FoldSame(s: string, t: string)
    ensures Fold(s) == Fold(t) <==> |s| == |t| && forall i :: 0 <= i < |s| ==> SameLetter(s[i], t[i])
  {
    FoldAt(s);
    FoldAt(t);
    forall i | 0 <= i < |s| && i < |t| ensures Fold(s)[i] == Fold(t)[i] <==> SameLetter(s[i], t[i]) {
      LowerSame(s[i], t[i]);
    }
  }

  /** The comparison is by a normal form: folding twice is folding once. */
  lemma {:induction false} FoldTwice(s: string)
    ensures Fold(Fold(s)) == Fold(s)
  {
    FoldAt(s);
    FoldAt(Fold(s));
  }
}
