/** What `zend_parse_va_args` answers, call by call: which specifications are malformed,
    which calls have an inadmissible number of arguments, and what is bound otherwise. */
module ParseOutcome {
  import opened Options
  import opened ParseArgs

  // ----------------------------------------------- which characters are letters

  /** The specifier letters, in the order of the source's switch. */
  const SPECIFIERS: string := "ldsbraoOzZChfFAHpSPLn"

  lemma SpecifierLetters(c: char)
    ensures IsLetter(c) <==> c in SPECIFIERS
    ensures IsParsed(c) <==> c in SPECIFIERS && c != 'Z' && c != 'L'
    ensures IsModifier(c) <==> c in "/!"
  {
    assert SPECIFIERS[..10] == "ldsbraoOzZ" && SPECIFIERS[10..] == "ChfFAHpSPLn";
    assert SPECIFIERS == SPECIFIERS[..10] + SPECIFIERS[10..];
  }

  // --------------------------------------------------- malformed specifications

  predicate IsMark(c: char) {
    c == '*' || c == '+'
  }

  predicate IsKnown(c: char) {
    IsLetter(c) || IsModifier(c) || IsMark(c) || c == '|'
  }

  ghost predicate HasMark(spec: string) {
    exists i :: 0 <= i < |spec| && IsMark(spec[i])
  }

  ghost predicate HasUnknown(spec: string) {
    exists i :: 0 <= i < |spec| && !IsKnown(spec[i])
  }

  ghost predicate HasTwoMarks(spec: string) {
    exists i, j :: 0 <= i < j < |spec| && IsMark(spec[i]) && IsMark(spec[j])
  }

  /** An unknown character, a second varargs mark, or a mark in a call with extra named
      arguments. */
  ghost predicate Malformed(spec: string, varargs: bool, extraNamed: bool) {
    HasUnknown(spec) || HasTwoMarks(spec) || (HasMark(spec) && (varargs || extraNamed))
  }

  lemma MalformedStep(spec: string, varargs: bool, extraNamed: bool)
    requires spec != ""
    ensures Malformed(spec, varargs, extraNamed) <==>
      || !IsKnown(spec[0])
      || (IsMark(spec[0]) && (varargs || extraNamed))
      || Malformed(spec[1..], varargs || IsMark(spec[0]), extraNamed)
  {
    var rest := spec[1..];
    if HasMark(rest) {
      var i :| 0 <= i < |rest| && IsMark(rest[i]);
      assert IsMark(spec[i + 1]);
    }
    if HasUnknown(rest) {
      var i :| 0 <= i < |rest| && !IsKnown(rest[i]);
      assert !IsKnown(spec[i + 1]);
    }
    if HasTwoMarks(rest) {
      var i, j :| 0 <= i < j < |rest| && IsMark(rest[i]) && IsMark(rest[j]);
      assert IsMark(spec[i + 1]) && IsMark(spec[j + 1]);
    }
    if i :| 0 <= i < |spec| && IsMark(spec[i]) {
      if i > 0 { assert IsMark(rest[i - 1]); }
    }
    if i :| 0 <= i < |spec| && !IsKnown(spec[i]) {
      if i > 0 { assert !IsKnown(rest[i - 1]); }
    }
    if i, j :| 0 <= i < j < |spec| && IsMark(spec[i]) && IsMark(spec[j]) {
      assert IsMark(rest[j - 1]);
      if i > 0 { assert IsMark(rest[i - 1]); }
    }
  }

  /** The first pass rejects exactly the malformed specifications. */
  lemma {:induction false} CountRejects(spec: string, c: Counts, extraNamed: bool)
    ensures Count(spec, c, extraNamed).None? <==> Malformed(spec, c.varargs, extraNamed)
    decreases |spec|
  {
    if spec != "" {
      MalformedStep(spec, c.varargs, extraNamed);
      var rest := spec[1..];
      if IsLetter(spec[0]) {
        CountRejects(rest, c.(max := c.max + 1), extraNamed);
      } else if spec[0] == '|' {
        CountRejects(rest, c.(min := c.max, optional := true), extraNamed);
      } else if IsModifier(spec[0]) {
        CountRejects(rest, c, extraNamed);
      } else if IsMark(spec[0]) && !c.varargs && !extraNamed {
        var max := if spec[0] == '+' then c.max + 1 else c.max;
        CountRejects(rest, c.(max := max, post := max, varargs := true), extraNamed);
      }
    }
  }

  lemma MalformedRefused(spec: string, numArgs: nat, callArgs: nat, extraNamed: bool, accepts: (nat, nat) -> bool)
    requires Malformed(spec, false, extraNamed)
    ensures Parse(spec, numArgs, callArgs, extraNamed, accepts) == None
  {
    CountRejects(spec, ZERO_COUNTS, extraNamed);
  }

  // -------------------------------------------------------- the least number

  /** The bar, if there is one, stands at b: the letters before it are required. */
  lemma {:induction false} MinimumAtBar(items: seq<Item>, seen: nat, otherwise: nat, b: nat)
    requires b < |items| && items[b].Bar? && forall i :: 0 <= i < |items| && i != b ==> items[i].Letter?
    ensures MinimumFrom(items, seen, otherwise) == seen + Letters(items[..b])
    decreases |items|
  {
    if b == 0 {
      NoBarMinimum(items[1..], seen, seen);
    } else {
      MinimumAtBar(items[1..], seen + 1, otherwise, b - 1);
      assert items[..b][1..] == items[1..][..b - 1];
    }
  }

  /** Required are the letters before the bar; without a bar all letters are, and one
      argument more for the mark `+`. */
  lemma MinimumMeans(s: Shape)
    requires WellFormed(s)
    ensures forall b :: 0 <= b < |s.lead| && s.lead[b].Bar? ==> Minimum(s) == Letters(s.lead[..b])
    ensures (forall b :: 0 <= b < |s.lead| ==> s.lead[b].Letter?) ==>
      Minimum(s) == Letters(s.lead) + (if s.mark == Some('+') then 1 else 0) + Letters(s.trail)
  {
    var all := Letters(s.lead) + (if s.mark == Some('+') then 1 else 0) + Letters(s.trail);
    forall b | 0 <= b < |s.lead| && s.lead[b].Bar? ensures Minimum(s) == Letters(s.lead[..b]) {
      MinimumAtBar(s.lead, 0, all, b);
    }
    if forall b :: 0 <= b < |s.lead| ==> s.lead[b].Letter? {
      NoBarMinimum(s.lead, 0, all);
    }
  }

  // ------------------------------------------------------------- every call

  /** The number of arguments is admissible, and no mark meets extra named arguments. */
  ghost predicate Admissible(s: Shape, numArgs: nat, callArgs: nat, extraNamed: bool) {
    && Minimum(s) <= numArgs <= callArgs
    && (s.mark.None? ==> numArgs <= Letters(s.lead))
    && (s.mark.Some? ==> !extraNamed)
  }

  /** What the letters get, if they take it. */
  ghost function Bound(s: Shape, numArgs: nat): seq<Binding>
    requires |SpecOf(s)| < U32_LIMIT
  {
    LettersFitShape(s);
    if Starved(s, numArgs) then Starving(s, numArgs)
    else if numArgs <= Letters(s.lead) || numArgs >= Letters(s.lead) + Letters(s.trail) then Intended(s, numArgs)
    else []
  }

  lemma LettersFitShape(s: Shape)
    ensures Letters(s.lead) + Letters(s.trail) <= |SpecOf(s)|
  {
    LettersFit(s.lead);
    LettersFit(s.trail);
  }

  lemma MarkedRefused(s: Shape, numArgs: nat, callArgs: nat, accepts: (nat, nat) -> bool)
    requires s.mark.Some? && IsMark(s.mark.value)
    ensures Parse(SpecOf(s), numArgs, callArgs, true, accepts) == None
  {
    var spec := SpecOf(s);
    assert spec[|Text(s.lead)|] == s.mark.value;
    MalformedRefused(spec, numArgs, callArgs, true, accepts);
  }

  /** A call with a well-formed specification fails if its number of arguments is not
      admissible or a letter refuses what it gets, and binds them as stated otherwise. */
  lemma Outcome(s: Shape, numArgs: nat, callArgs: nat, extraNamed: bool, accepts: (nat, nat) -> bool)
    requires WellFormed(s) && numArgs < U32_LIMIT && |SpecOf(s)| < U32_LIMIT
    ensures Parse(SpecOf(s), numArgs, callArgs, extraNamed, accepts)
         == if Admissible(s, numArgs, callArgs, extraNamed) && Accepted(accepts, Bound(s, numArgs))
            then Some(Bound(s, numArgs)) else None
  {
    if s.mark.Some? && extraNamed {
      MarkedRefused(s, numArgs, callArgs, accepts);
    } else if !Admissible(s, numArgs, callArgs, extraNamed) {
      CountShape(s, extraNamed);
    } else if Starved(s, numArgs) {
      StarvedWraps(s, numArgs, callArgs, extraNamed, accepts);
    } else {
      Distribution(s, numArgs, callArgs, extraNamed, accepts);
    }
  }

  /** `ll` needs two arguments. */
  lemma TooFewExample(accepts: (nat, nat) -> bool)
    ensures Parse("ll", 1, 1, false, accepts) == None
  {
    var s := Shape([Letter('l', ""), Letter('l', "")], None, []);
    assert s.lead[1..] == [Letter('l', "")] && s.lead[1..][1..] == [];
    assert Text(s.lead) == "ll" && SpecOf(s) == "ll";
    assert Letters(s.lead) == 2;
    MinimumMeans(s);
    Outcome(s, 1, 1, false, accepts);
  }
}
