/** `zend_parse_va_args`: how the arguments of a call are distributed over a type
    specification string, with the unsigned 32-bit arithmetic of the original.

    Converting one argument is not modelled: `accepts(k, i)` says whether the k-th
    specifier letter accepts argument i. */
module ParseArgs {
  import opened Folded
  import opened Options

  const U32_LIMIT: nat := 0x1_0000_0000

  function U32(x: int): (r: nat)
    ensures r < U32_LIMIT
    ensures 0 <= x < U32_LIMIT ==> r == x
  {
    x % U32_LIMIT
  }

  predicate IsLetter(c: char) {
    || c == 'l' || c == 'd' || c == 's' || c == 'b' || c == 'r' || c == 'a' || c == 'o' || c == 'O'
    || c == 'z' || c == 'Z' || c == 'C' || c == 'h' || c == 'f' || c == 'F' || c == 'A' || c == 'H'
    || c == 'p' || c == 'S' || c == 'P' || c == 'L' || c == 'n'
  }

  /** `Z` and `L` are counted as specifiers but no longer parsed. */
  predicate IsParsed(c: char) {
    IsLetter(c) && c != 'Z' && c != 'L'
  }

  predicate IsModifier(c: char) {
    c == '/' || c == '!'
  }

  // ------------------------------------------------------- counting specifiers

  datatype Counts = Counts(min: nat, max: nat, post: nat, varargs: bool, optional: bool)

  /** The first pass over the specification; None is one of its fatal errors. */
  function Count(rest: string, c: Counts, extraNamed: bool): (r: Option<Counts>)
    ensures r.Some? && (c.varargs ==> c.post <= c.max) ==> (r.value.varargs ==> r.value.post <= r.value.max)
  {
    if rest == [] then Some(c)
    else if IsLetter(rest[0]) then Count(rest[1..], c.(max := c.max + 1), extraNamed)
    else if rest[0] == '|' then Count(rest[1..], c.(min := c.max, optional := true), extraNamed)
    else if IsModifier(rest[0]) then Count(rest[1..], c, extraNamed)
    else if rest[0] == '*' || rest[0] == '+' then
      if c.varargs || extraNamed then None
      else
        var max := if rest[0] == '+' then c.max + 1 else c.max;
        Count(rest[1..], c.(max := max, post := max, varargs := true), extraNamed)
    else None
  }

  /** The bounds on the number of arguments, and how many are wanted after the varargs. */
  function Totals(c: Counts): Counts
    requires c.varargs ==> c.post <= c.max
  {
    c.(min := if c.optional then c.min else c.max,
       max := if c.varargs then U32_LIMIT - 1 else c.max,
       post := if c.varargs then c.max - c.post else c.post)
  }

  // --------------------------------------------------- distributing arguments

  /** One entry consumed from the caller's list of result pointers: argument `arg` goes
      to the k-th letter; `count` arguments from `first` on go to the varargs; or the
      varargs are empty. */
  datatype Binding = Arg(letter: nat, arg: nat) | Rest(first: nat, count: nat) | NoRest

  function SkipModifiers(rest: string): (r: string)
    ensures |r| <= |rest|
  {
    if rest != [] && IsModifier(rest[0]) then SkipModifiers(rest[1..]) else rest
  }

  /** Parse argument i with the letter at the head of `rest`. */
  function ConsumeOne(rest: string, numArgs: nat, post: nat, i: nat, k: nat,
                      accepts: (nat, nat) -> bool): Option<seq<Binding>>
    requires numArgs > 0
    decreases |rest|, 0
  {
    if rest == [] || !IsParsed(rest[0]) || !accepts(k, i) then None
    else
      match Consume(SkipModifiers(rest[1..]), numArgs - 1, post, U32(i + 1), k + 1, accepts)
      case Some(tail) => Some([Arg(k, i)] + tail)
      case None => None
  }

  /** The second pass: `numArgs` arguments are left, the next one is number i, and k
      letters have been used. */
  function Consume(rest: string, numArgs: nat, post: nat, i: nat, k: nat,
                   accepts: (nat, nat) -> bool): Option<seq<Binding>>
    decreases |rest|, 1
  {
    if numArgs == 0 then Some([])
    else
      var at := if rest != [] && rest[0] == '|' then rest[1..] else rest;
      if at != [] && (at[0] == '*' || at[0] == '+') then
        var count := U32(numArgs - post);
        if count > 0 then
          match Consume(at[1..], U32(numArgs - count), post, U32(i + count), k, accepts)
          case Some(tail) => Some([Rest(i, count)] + tail)
          case None => None
        else
          match ConsumeOne(at[1..], numArgs, post, i, k, accepts)
          case Some(tail) => Some([NoRest] + tail)
          case None => None
      else ConsumeOne(at, numArgs, post, i, k, accepts)
  }

  const ZERO_COUNTS := Counts(0, 0, 0, false, false)

  /** The whole function; `callArgs` is the number of arguments of the running call. */
  function Parse(spec: string, numArgs: nat, callArgs: nat, extraNamed: bool,
                 accepts: (nat, nat) -> bool): Option<seq<Binding>>
  {
    match Count(spec, ZERO_COUNTS, extraNamed)
    case None => None
    case Some(c) =>
      var t := Totals(c);
      if numArgs < t.min || numArgs > t.max || numArgs > callArgs then None
      else Consume(spec, numArgs, t.post, 0, 0, accepts)
  }

  // ----------------------------------------------- well-formed specifications

  /** What a specification is made of: letters with their modifiers, and the mark after
      which the rest is optional. */
  datatype Item = Letter(c: char, modifiers: string) | Bar

  /** The items before the varargs mark, the mark, and the items after it. */
  datatype Shape = Shape(lead: seq<Item>, mark: Option<char>, trail: seq<Item>)

  function Text(items: seq<Item>): string {
    if items == [] then ""
    else (match items[0] case Letter(c, modifiers) => [c] + modifiers case Bar => "|") + Text(items[1..])
  }

  function SpecOf(s: Shape): string {
    Text(s.lead) + (match s.mark case Some(c) => [c] case None => "") + Text(s.trail)
  }

  function Letters(items: seq<Item>): nat {
    if items == [] then 0 else (if items[0].Letter? then 1 else 0) + Letters(items[1..])
  }

  ghost predicate ItemOk(it: Item) {
    it.Letter? ==> IsParsed(it.c) && forall i :: 0 <= i < |it.modifiers| ==> IsModifier(it.modifiers[i])
  }

  /** At most one varargs mark, at most one bar, and no bar after the mark. */
  ghost predicate WellFormed(s: Shape) {
    && (forall i :: 0 <= i < |s.lead| ==> ItemOk(s.lead[i]))
    && (forall i :: 0 <= i < |s.trail| ==> ItemOk(s.trail[i]) && s.trail[i].Letter?)
    && (forall i, j :: 0 <= i < j < |s.lead| ==> !(s.lead[i].Bar? && s.lead[j].Bar?))
    && (match s.mark case Some(c) => c == '*' || c == '+' case None => s.trail == [])
  }

  /** Letters before the bar, or all that are required when there is none. */
  function Minimum(s: Shape): nat {
    MinimumFrom(s.lead, 0, Letters(s.lead) + (if s.mark == Some('+') then 1 else 0) + Letters(s.trail))
  }

  function MinimumFrom(items: seq<Item>, seen: nat, otherwise: nat): nat {
    if items == [] then otherwise
    else if items[0].Bar? then MinimumFrom(items[1..], seen, seen)
    else MinimumFrom(items[1..], seen + 1, otherwise)
  }

  // -------------------------------------------------- the intended distribution

  /** Letters k, k + 1, .. take arguments i, i + 1, .. */
  function Straight(k: nat, i: nat, n: nat): seq<Binding> {
    seq(n, x requires 0 <= x < n => Arg(k + x, i + x))
  }

  /** Leading letters take the first arguments, trailing letters the last, the varargs
      what lies between. */
  function Intended(s: Shape, numArgs: nat): seq<Binding>
    requires numArgs <= Letters(s.lead) || numArgs >= Letters(s.lead) + Letters(s.trail)
  {
    var p, t := Letters(s.lead), Letters(s.trail);
    if numArgs <= p then Straight(0, 0, numArgs)
    else Straight(0, 0, p) + (Middle(p, numArgs - p - t) + Straight(p, numArgs - t, t))
  }

  function Middle(first: nat, count: nat): seq<Binding> {
    if count > 0 then [Rest(first, count)] else [NoRest]
  }

  /** The argument numbers a list of bindings consumes, in order. */
  function Consumed(b: seq<Binding>): seq<nat> {
    if b == [] then []
    else (match b[0]
          case Arg(_, i) => [i]
          case Rest(first, count) => seq(count, x requires 0 <= x < count => first + x)
          case NoRest => []) + Consumed(b[1..])
  }

  // ----------------------------------------------------------- the first pass

  function Tally(items: seq<Item>, c: Counts): Counts {
    if items == [] then c
    else Tally(items[1..], if items[0].Bar? then c.(min := c.max, optional := true) else c.(max := c.max + 1))
  }

  lemma {:induction false} CountModifiers(modifiers: string, rest: string, c: Counts, extraNamed: bool)
    requires forall i :: 0 <= i < |modifiers| ==> IsModifier(modifiers[i])
    ensures Count(modifiers + rest, c, extraNamed) == Count(rest, c, extraNamed)
  {
    if modifiers == "" {
      assert modifiers + rest == rest;
    } else {
      assert (modifiers + rest)[1..] == modifiers[1..] + rest;
      CountModifiers(modifiers[1..], rest, c, extraNamed);
    }
  }

  lemma CountLetter(ch: char, rest: string, c: Counts, extraNamed: bool)
    requires IsLetter(ch)
    ensures Count([ch] + rest, c, extraNamed) == Count(rest, c.(max := c.max + 1), extraNamed)
  {
    assert ([ch] + rest)[1..] == rest;
  }

  /** The text of a run of items, first item first. */
  lemma TextLetter(items: seq<Item>, rest: string)
    requires items != [] && items[0].Letter?
    ensures Text(items) + rest == [items[0].c] + (items[0].modifiers + (Text(items[1..]) + rest))
  {
  }

  lemma TextBar(items: seq<Item>, rest: string)
    requires items != [] && items[0].Bar?
    ensures Text(items) + rest == "|" + (Text(items[1..]) + rest)
  {
  }

  lemma CountBar(rest: string, c: Counts, extraNamed: bool)
    ensures Count("|" + rest, c, extraNamed) == Count(rest, c.(min := c.max, optional := true), extraNamed)
  {
    assert ("|" + rest)[1..] == rest;
  }

  lemma {:induction false} CountItems(items: seq<Item>, rest: string, c: Counts, extraNamed: bool)
    requires forall i :: 0 <= i < |items| ==> ItemOk(items[i])
    ensures Count(Text(items) + rest, c, extraNamed) == Count(rest, Tally(items, c), extraNamed)
    decreases |items|
  {
    if items == [] {
      assert Text(items) + rest == rest;
    } else if items[0].Bar? {
      TextBar(items, rest);
      CountBar(Text(items[1..]) + rest, c, extraNamed);
      CountItems(items[1..], rest, c.(min := c.max, optional := true), extraNamed);
    } else {
      var tail := Text(items[1..]) + rest;
      assert ItemOk(items[0]);
      TextLetter(items, rest);
      CountLetter(items[0].c, items[0].modifiers + tail, c, extraNamed);
      CountModifiers(items[0].modifiers, tail, c.(max := c.max + 1), extraNamed);
      CountItems(items[1..], rest, c.(max := c.max + 1), extraNamed);
    }
  }

  lemma {:induction false} TallyMeans(items: seq<Item>, c: Counts, otherwise: nat)
    ensures var t := Tally(items, c);
      && t.max == c.max + Letters(items) && t.post == c.post && t.varargs == c.varargs
      && (if t.optional then t.min else otherwise) == MinimumFrom(items, c.max, if c.optional then c.min else otherwise)
    decreases |items|
  {
    if items != [] {
      TallyMeans(items[1..], if items[0].Bar? then c.(min := c.max, optional := true) else c.(max := c.max + 1),
                 otherwise);
    }
  }

  /** The first pass finds the shape's minimum, maximum and number of trailing letters. */
  lemma CountShape(s: Shape, extraNamed: bool)
    requires WellFormed(s) && (s.mark.Some? ==> !extraNamed)
    ensures var c := Count(SpecOf(s), ZERO_COUNTS, extraNamed);
      && c.Some? && Totals(c.value).min == Minimum(s)
      && Totals(c.value).max == (if s.mark.Some? then U32_LIMIT - 1 else Letters(s.lead))
      && Totals(c.value).post == (if s.mark.Some? then Letters(s.trail) else 0)
  {
    TallyMeans(s.lead, ZERO_COUNTS, Letters(s.lead) + (if s.mark == Some('+') then 1 else 0) + Letters(s.trail));
    if s.mark.None? {
      assert SpecOf(s) == Text(s.lead) + "";
      CountItems(s.lead, "", ZERO_COUNTS, extraNamed);
    } else {
      assert SpecOf(s) == Text(s.lead) + ([s.mark.value] + Text(s.trail));
      CountItems(s.lead, [s.mark.value] + Text(s.trail), ZERO_COUNTS, extraNamed);
      CountMarked(s.mark.value, s.trail, Tally(s.lead, ZERO_COUNTS));
    }
  }

  lemma CountMark(mark: char, rest: string, c: Counts)
    requires (mark == '*' || mark == '+') && !c.varargs
    ensures var max := if mark == '+' then c.max + 1 else c.max;
      Count([mark] + rest, c, false) == Count(rest, c.(max := max, post := max, varargs := true), false)
  {
    assert ([mark] + rest)[1..] == rest;
  }

  lemma CountMarked(mark: char, trail: seq<Item>, c: Counts)
    requires (mark == '*' || mark == '+') && !c.varargs
    requires forall i :: 0 <= i < |trail| ==> ItemOk(trail[i])
    requires forall i :: 0 <= i < |trail| ==> trail[i].Letter?
    ensures var post := if mark == '+' then c.max + 1 else c.max;
      Count([mark] + Text(trail), c, false)
        == Some(c.(max := post + Letters(trail), post := post, varargs := true))
  {
    var max := if mark == '+' then c.max + 1 else c.max;
    var marked := c.(max := max, post := max, varargs := true);
    CountMark(mark, Text(trail), c);
    CountTrail(trail, marked);
  }

  lemma CountTrail(items: seq<Item>, c: Counts)
    requires forall i :: 0 <= i < |items| ==> ItemOk(items[i])
    requires forall i :: 0 <= i < |items| ==> items[i].Letter?
    ensures Count(Text(items), c, false) == Some(c.(max := c.max + Letters(items)))
  {
    assert Text(items) == Text(items) + "";
    TallyLetters(items, c);
    CountItems(items, "", c, false);
  }

  lemma {:induction false} TallyLetters(items: seq<Item>, c: Counts)
    requires forall i :: 0 <= i < |items| ==> items[i].Letter?
    ensures Tally(items, c) == c.(max := c.max + Letters(items))
    decreases |items|
  {
    if items != [] { TallyLetters(items[1..], c.(max := c.max + 1)); }
  }

  // ---------------------------------------------------------- the second pass

  /** Letters k, k + 1, .. accept arguments i, i + 1, .. */
  predicate AllAccept(accepts: (nat, nat) -> bool, k: nat, i: nat, n: nat)
    decreases n
  {
    n == 0 || (accepts(k, i) && AllAccept(accepts, k + 1, i + 1, n - 1))
  }

  function Prepend(b: seq<Binding>, tail: Option<seq<Binding>>): Option<seq<Binding>> {
    match tail
    case Some(t) => Some(b + t)
    case None => None
  }

  /** What may follow a run of items: nothing, a mark or a letter. */
  predicate Clean(rest: string) {
    rest == "" || (!IsModifier(rest[0]) && rest[0] != '|')
  }

  lemma {:induction false} SkipsModifiers(modifiers: string, rest: string)
    requires forall i :: 0 <= i < |modifiers| ==> IsModifier(modifiers[i])
    requires rest == "" || !IsModifier(rest[0])
    ensures SkipModifiers(modifiers + rest) == rest
  {
    if modifiers == "" {
      assert modifiers + rest == rest;
    } else {
      assert (modifiers + rest)[1..] == modifiers[1..] + rest;
      SkipsModifiers(modifiers[1..], rest);
    }
  }

  lemma SkipsBar(rest: string, n: nat, post: nat, i: nat, k: nat, accepts: (nat, nat) -> bool)
    requires Clean(rest)
    ensures Consume("|" + rest, n, post, i, k, accepts) == Consume(rest, n, post, i, k, accepts)
  {
    assert ("|" + rest)[1..] == rest;
  }

  lemma ConsumeLetter(c: char, modifiers: string, rest: string, n: nat, post: nat, i: nat, k: nat,
                      accepts: (nat, nat) -> bool)
    requires ItemOk(Letter(c, modifiers)) && (rest == "" || !IsModifier(rest[0])) && n > 0
    ensures Consume([c] + (modifiers + rest), n, post, i, k, accepts)
         == if accepts(k, i) then Prepend([Arg(k, i)], Consume(rest, n - 1, post, U32(i + 1), k + 1, accepts)) else None
  {
    assert ([c] + (modifiers + rest))[1..] == modifiers + rest;
    SkipsModifiers(modifiers, rest);
  }

  /** What `letters` letters and then `rest` do with n arguments. */
  function Taken(letters: nat, rest: string, n: nat, post: nat, i: nat, k: nat,
                 accepts: (nat, nat) -> bool): Option<seq<Binding>>
  {
    var m := if n <= letters then n else letters;
    if !AllAccept(accepts, k, i, m) then None
    else Prepend(Straight(k, i, m), if n == m then Some([]) else Consume(rest, n - m, post, i + m, k + m, accepts))
  }

  lemma TakenOneMore(letters: nat, rest: string, n: nat, post: nat, i: nat, k: nat, accepts: (nat, nat) -> bool)
    requires n > 0 && accepts(k, i)
    ensures Taken(letters + 1, rest, n, post, i, k, accepts)
         == Prepend([Arg(k, i)], Taken(letters, rest, n - 1, post, i + 1, k + 1, accepts))
  {
    var m := if n - 1 <= letters then n - 1 else letters;
    OneMore(k, i, m);
    PrependTwice([Arg(k, i)], Straight(k + 1, i + 1, m),
                 if n - 1 == m then Some([]) else Consume(rest, n - 1 - m, post, i + 1 + m, k + 1 + m, accepts));
  }

  lemma TakenNone(rest: string, n: nat, post: nat, i: nat, k: nat, accepts: (nat, nat) -> bool)
    ensures Taken(0, rest, n, post, i, k, accepts) == Consume(rest, n, post, i, k, accepts)
  {
    PrependNothing(Straight(k, i, 0), Consume(rest, n, post, i, k, accepts));
  }

  lemma BarFirst(items: seq<Item>, rest: string, n: nat, post: nat, i: nat, k: nat, accepts: (nat, nat) -> bool)
    requires items != [] && items[0].Bar? && forall j :: 0 < j < |items| ==> ItemOk(items[j]) && !items[j].Bar?
    requires Clean(rest)
    ensures Consume(Text(items) + rest, n, post, i, k, accepts)
         == Consume(Text(items[1..]) + rest, n, post, i, k, accepts)
  {
    var tail := Text(items[1..]) + rest;
    TextBar(items, rest);
    HeadOf(items[1..], rest);
    SkipsBar(tail, n, post, i, k, accepts);
  }

  lemma LetterFirst(items: seq<Item>, rest: string, n: nat, post: nat, i: nat, k: nat, accepts: (nat, nat) -> bool)
    requires items != [] && items[0].Letter? && forall j :: 0 <= j < |items| ==> ItemOk(items[j])
    requires Clean(rest) && n > 0
    ensures Consume(Text(items) + rest, n, post, i, k, accepts)
         == if accepts(k, i)
            then Prepend([Arg(k, i)], Consume(Text(items[1..]) + rest, n - 1, post, U32(i + 1), k + 1, accepts))
            else None
  {
    var tail := Text(items[1..]) + rest;
    TextLetter(items, rest);
    HeadOf(items[1..], rest);
    assert ItemOk(items[0]);
    ConsumeLetter(items[0].c, items[0].modifiers, tail, n, post, i, k, accepts);
  }

  lemma TakenRefused(letters: nat, rest: string, n: nat, post: nat, i: nat, k: nat, accepts: (nat, nat) -> bool)
    requires n > 0 && letters > 0 && !accepts(k, i)
    ensures Taken(letters, rest, n, post, i, k, accepts) == None
  {
  }

  lemma TakenZero(letters: nat, rest: string, post: nat, i: nat, k: nat, accepts: (nat, nat) -> bool)
    ensures Taken(letters, rest, 0, post, i, k, accepts) == Some([])
  {
    assert Straight(k, i, 0) + [] == [];
  }

  /** Items take arguments one letter at a time until either runs out. */
  lemma {:induction false} ConsumeItems(items: seq<Item>, rest: string, n: nat, post: nat, i: nat, k: nat,
                                        accepts: (nat, nat) -> bool)
    requires forall j :: 0 <= j < |items| ==> ItemOk(items[j])
    requires forall j, l :: 0 <= j < l < |items| ==> !(items[j].Bar? && items[l].Bar?)
    requires Clean(rest) && i + n < U32_LIMIT
    ensures Consume(Text(items) + rest, n, post, i, k, accepts) == Taken(Letters(items), rest, n, post, i, k, accepts)
    decreases |items|
  {
    if n == 0 {
      TakenZero(Letters(items), rest, post, i, k, accepts);
    } else if items == [] {
      assert Text(items) + rest == rest;
      TakenNone(rest, n, post, i, k, accepts);
    } else if items[0].Bar? {
      BarFirst(items, rest, n, post, i, k, accepts);
      ConsumeItems(items[1..], rest, n, post, i, k, accepts);
    } else {
      LetterFirst(items, rest, n, post, i, k, accepts);
      if accepts(k, i) {
        ConsumeItems(items[1..], rest, n - 1, post, i + 1, k + 1, accepts);
        TakenOneMore(Letters(items[1..]), rest, n, post, i, k, accepts);
      } else {
        TakenRefused(Letters(items), rest, n, post, i, k, accepts);
      }
    }
  }

  lemma PrependNothing(b: seq<Binding>, tail: Option<seq<Binding>>)
    requires b == []
    ensures Prepend(b, tail) == tail
  {
    if tail.Some? { assert b + tail.value == tail.value; }
  }

  lemma PrependTwice(a: seq<Binding>, b: seq<Binding>, tail: Option<seq<Binding>>)
    ensures Prepend(a, Prepend(b, tail)) == Prepend(a + b, tail)
  {
    if tail.Some? { assert a + (b + tail.value) == a + b + tail.value; }
  }

  lemma OneMore(k: nat, i: nat, m: nat)
    ensures [Arg(k, i)] + Straight(k + 1, i + 1, m) == Straight(k, i, m + 1)
  {
  }

  /** Text after an item starts with no modifier, and with a bar only if one is left. */
  lemma HeadOf(items: seq<Item>, rest: string)
    requires forall j :: 0 <= j < |items| ==> ItemOk(items[j])
    requires Clean(rest)
    ensures var text := Text(items) + rest;
      (text == "" || !IsModifier(text[0])) && ((forall j :: 0 <= j < |items| ==> !items[j].Bar?) ==> Clean(text))
  {
    if items != [] {
      assert ItemOk(items[0]);
    } else {
      assert Text(items) + rest == rest;
    }
  }

  // ----------------------------------------------------------------- the theorems

  /** Fewer arguments are left at the varargs mark than there are letters after it. */
  predicate Starved(s: Shape, numArgs: nat) {
    s.mark.Some? && Letters(s.lead) < numArgs < Letters(s.lead) + Letters(s.trail)
  }

  lemma TextClean(s: Shape)
    requires WellFormed(s)
    ensures Clean(Text(s.trail)) && (s.mark.Some? ==> Clean([s.mark.value] + Text(s.trail)))
    ensures s.mark.Some? ==> SpecOf(s) == Text(s.lead) + ([s.mark.value] + Text(s.trail))
    ensures s.mark.None? ==> SpecOf(s) == Text(s.lead) + ""
  {
    HeadOf(s.trail, "");
    assert Text(s.trail) + "" == Text(s.trail);
  }

  /** The letters after the mark take the last arguments. */
  lemma ConsumeTrail(s: Shape, numArgs: nat, accepts: (nat, nat) -> bool)
    requires WellFormed(s) && s.mark.Some? && numArgs < U32_LIMIT
    requires numArgs >= Letters(s.lead) + Letters(s.trail)
    ensures var p, t := Letters(s.lead), Letters(s.trail);
      Consume(Text(s.trail), t, t, numArgs - t, p, accepts)
        == if AllAccept(accepts, p, numArgs - t, t) then Some(Straight(p, numArgs - t, t)) else None
  {
    var p, t := Letters(s.lead), Letters(s.trail);
    assert Text(s.trail) + "" == Text(s.trail);
    ConsumeItems(s.trail, "", t, t, numArgs - t, p, accepts);
    var all := Straight(p, numArgs - t, t);
    assert all + [] == all;
  }

  /** At the mark, with enough arguments left, the varargs take what the trailing
      letters do not need. */
  lemma ConsumeMark(s: Shape, numArgs: nat, accepts: (nat, nat) -> bool)
    requires WellFormed(s) && s.mark.Some? && numArgs < U32_LIMIT
    requires numArgs > Letters(s.lead) && numArgs >= Letters(s.lead) + Letters(s.trail)
    ensures var p, t := Letters(s.lead), Letters(s.trail);
      Consume([s.mark.value] + Text(s.trail), numArgs - p, t, p, p, accepts)
        == if AllAccept(accepts, p, numArgs - t, t)
           then Some(Middle(p, numArgs - p - t) + Straight(p, numArgs - t, t))
           else None
  {
    var p, t := Letters(s.lead), Letters(s.trail);
    var at := [s.mark.value] + Text(s.trail);
    assert at[1..] == Text(s.trail);
    ConsumeTrail(s, numArgs, accepts);
    var count := numArgs - p - t;
    assert U32(numArgs - p - t) == count;
    if count == 0 {
      ConsumesLetterFirst(s, t, t, p, p, accepts);
    }
  }

  lemma ConsumesLetterFirst(s: Shape, n: nat, post: nat, i: nat, k: nat, accepts: (nat, nat) -> bool)
    requires WellFormed(s) && n > 0 && s.trail != []
    ensures ConsumeOne(Text(s.trail), n, post, i, k, accepts) == Consume(Text(s.trail), n, post, i, k, accepts)
  {
    assert ItemOk(s.trail[0]) && s.trail[0].Letter?;
    assert Text(s.trail)[0] == s.trail[0].c;
  }

  /** Unless starved, an accepted call distributes its arguments as intended, and fails
      only if a letter refuses the argument meant for it. */
  lemma Distribution(s: Shape, numArgs: nat, callArgs: nat, extraNamed: bool, accepts: (nat, nat) -> bool)
    requires WellFormed(s) && numArgs < U32_LIMIT && (s.mark.Some? ==> !extraNamed)
    requires Minimum(s) <= numArgs <= callArgs && (s.mark.None? ==> numArgs <= Letters(s.lead))
    requires !Starved(s, numArgs)
    ensures var r := Parse(SpecOf(s), numArgs, callArgs, extraNamed, accepts);
      && (r.Some? <==> Accepted(accepts, Intended(s, numArgs)))
      && (r.Some? ==> r.value == Intended(s, numArgs))
  {
    ParseIsTaken(s, numArgs, callArgs, extraNamed, accepts);
    if numArgs <= Letters(s.lead) {
      TakenEarly(s, numArgs, if s.mark.Some? then Letters(s.trail) else 0, accepts);
    } else {
      TakenLate(s, numArgs, accepts);
    }
  }

  lemma TakenEarly(s: Shape, numArgs: nat, post: nat, accepts: (nat, nat) -> bool)
    requires numArgs <= Letters(s.lead)
    ensures Taken(Letters(s.lead), AfterLead(s), numArgs, post, 0, 0, accepts)
         == if Accepted(accepts, Intended(s, numArgs)) then Some(Intended(s, numArgs)) else None
  {
    StraightAccepted(accepts, 0, 0, numArgs);
    assert Straight(0, 0, numArgs) + [] == Straight(0, 0, numArgs);
  }

  lemma TakenLate(s: Shape, numArgs: nat, accepts: (nat, nat) -> bool)
    requires WellFormed(s) && s.mark.Some? && numArgs < U32_LIMIT
    requires numArgs > Letters(s.lead) && numArgs >= Letters(s.lead) + Letters(s.trail)
    ensures Taken(Letters(s.lead), AfterLead(s), numArgs, Letters(s.trail), 0, 0, accepts)
         == if Accepted(accepts, Intended(s, numArgs)) then Some(Intended(s, numArgs)) else None
  {
    StraightAccepted(accepts, 0, 0, Letters(s.lead));
    ConsumeMark(s, numArgs, accepts);
    IntendedAccepted(s, numArgs, accepts);
  }

  /** What follows the leading items. */
  function AfterLead(s: Shape): string {
    match s.mark case Some(c) => [c] + Text(s.trail) case None => ""
  }

  /** A call with an admissible number of arguments gets as far as the leading letters. */
  lemma ParseIsTaken(s: Shape, numArgs: nat, callArgs: nat, extraNamed: bool, accepts: (nat, nat) -> bool)
    requires WellFormed(s) && numArgs < U32_LIMIT && (s.mark.Some? ==> !extraNamed)
    requires Minimum(s) <= numArgs <= callArgs && (s.mark.None? ==> numArgs <= Letters(s.lead))
    ensures Parse(SpecOf(s), numArgs, callArgs, extraNamed, accepts)
         == Taken(Letters(s.lead), AfterLead(s), numArgs, if s.mark.Some? then Letters(s.trail) else 0, 0, 0, accepts)
  {
    CountShape(s, extraNamed);
    TextClean(s);
    var post := Totals(Count(SpecOf(s), ZERO_COUNTS, extraNamed).value).post;
    ConsumeItems(s.lead, AfterLead(s), numArgs, post, 0, 0, accepts);
  }

  lemma IntendedAccepted(s: Shape, numArgs: nat, accepts: (nat, nat) -> bool)
    requires numArgs > Letters(s.lead) && numArgs >= Letters(s.lead) + Letters(s.trail)
    ensures var p, t := Letters(s.lead), Letters(s.trail);
      Accepted(accepts, Intended(s, numArgs)) <==>
        Accepted(accepts, Straight(0, 0, p)) && AllAccept(accepts, p, numArgs - t, t)
  {
    var p, t := Letters(s.lead), Letters(s.trail);
    StraightAccepted(accepts, p, numArgs - t, t);
    ThreePartsAccepted(accepts, Straight(0, 0, p), Middle(p, numArgs - p - t), Straight(p, numArgs - t, t));
  }

  lemma ThreePartsAccepted(accepts: (nat, nat) -> bool, a: seq<Binding>, b: seq<Binding>, c: seq<Binding>)
    requires forall x :: x in b ==> !x.Arg?
    ensures Accepted(accepts, a + (b + c)) <==> Accepted(accepts, a) && Accepted(accepts, c)
  {
    AcceptedConcat(accepts, b, c);
    AcceptedConcat(accepts, a, b + c);
  }

  ghost predicate Accepted(accepts: (nat, nat) -> bool, b: seq<Binding>) {
    forall x :: x in b && x.Arg? ==> accepts(x.letter, x.arg)
  }

  lemma {:induction false} StraightAccepted(accepts: (nat, nat) -> bool, k: nat, i: nat, n: nat)
    ensures AllAccept(accepts, k, i, n) <==> Accepted(accepts, Straight(k, i, n))
    decreases n
  {
    if n > 0 {
      StraightAccepted(accepts, k + 1, i + 1, n - 1);
      OneMore(k, i, n - 1);
      AcceptedConcat(accepts, [Arg(k, i)], Straight(k + 1, i + 1, n - 1));
      assert Arg(k, i) in [Arg(k, i)];
    }
  }

  lemma AcceptedConcat(accepts: (nat, nat) -> bool, a: seq<Binding>, b: seq<Binding>)
    ensures Accepted(accepts, a + b) <==> Accepted(accepts, a) && Accepted(accepts, b)
  {
    if Accepted(accepts, a + b) {
      forall x | (x in a || x in b) && x.Arg?
        ensures accepts(x.letter, x.arg)
      {
        assert x in a + b;
      }
    }
  }

  function Range(first: nat, n: nat): seq<nat> {
    seq(n, x requires 0 <= x < n => first + x)
  }

  lemma {:induction false} ConsumedConcat(a: seq<Binding>, b: seq<Binding>)
    ensures Consumed(a + b) == Consumed(a) + Consumed(b)
  {
    if a == [] {
      assert a + b == b;
    } else {
      assert (a + b)[1..] == a[1..] + b;
      ConsumedConcat(a[1..], b);
    }
  }

  lemma {:induction false} ConsumedStraight(k: nat, i: nat, n: nat)
    ensures Consumed(Straight(k, i, n)) == Range(i, n)
    decreases n
  {
    if n > 0 {
      assert Straight(k, i, n)[1..] == Straight(k + 1, i + 1, n - 1);
      ConsumedStraight(k + 1, i + 1, n - 1);
    }
  }

  lemma PartsUseAll(p: nat, count: nat, t: nat)
    ensures Consumed(Straight(0, 0, p) + (Middle(p, count) + Straight(p, p + count, t))) == Range(0, p + count + t)
  {
    ConsumedStraight(0, 0, p);
    ConsumedStraight(p, p + count, t);
    ConsumedConcat(Straight(0, 0, p), Middle(p, count) + Straight(p, p + count, t));
    ConsumedConcat(Middle(p, count), Straight(p, p + count, t));
    ConsumedMiddle(p, count);
    RangeConcat(p, count, t);
    RangeConcat(0, p, count + t);
  }

  /** The intended distribution uses every argument once, in order. */
  lemma IntendedUsesAll(s: Shape, numArgs: nat)
    requires numArgs <= Letters(s.lead) || numArgs >= Letters(s.lead) + Letters(s.trail)
    ensures Consumed(Intended(s, numArgs)) == Range(0, numArgs)
  {
    var p, t := Letters(s.lead), Letters(s.trail);
    if numArgs <= p {
      ConsumedStraight(0, 0, numArgs);
    } else {
      PartsUseAll(p, numArgs - p - t, t);
    }
  }

  lemma ConsumedMiddle(first: nat, count: nat)
    ensures Consumed(Middle(first, count)) == Range(first, count)
  {
    var middle := Middle(first, count);
    assert middle[1..] == [];
    assert Consumed(middle) == Range(first, count) + [];
  }

  lemma RangeConcat(first: nat, n: nat, m: nat)
    ensures Range(first, n) + Range(first + n, m) == Range(first, n + m)
  {
  }

  /** Letters k, k + 1, .. take the arguments from i on, counted in 32 bits. */
  function Wrapped(k: nat, i: int, n: nat): seq<Binding> {
    seq(n, x requires 0 <= x < n => Arg(k + x, U32(i + x)))
  }

  /** What a starved call does: the subtraction wraps, the varargs claim more arguments than
      the call has, and the trailing letters begin at the argument number that wraps back. */
  function Starving(s: Shape, numArgs: nat): seq<Binding>
    requires Starved(s, numArgs) && Letters(s.lead) + Letters(s.trail) < U32_LIMIT
  {
    var p, t := Letters(s.lead), Letters(s.trail);
    Straight(0, 0, p) + ([Rest(p, U32_LIMIT - (p + t - numArgs))] + Wrapped(p, numArgs - t, t))
  }

  lemma WrappedOneMore(k: nat, i: int, n: nat, accepts: (nat, nat) -> bool)
    ensures Wrapped(k, i, n + 1) == [Arg(k, U32(i))] + Wrapped(k + 1, i + 1, n)
    ensures Accepted(accepts, Wrapped(k, i, n + 1)) <==>
      accepts(k, U32(i)) && Accepted(accepts, Wrapped(k + 1, i + 1, n))
  {
    AcceptedConcat(accepts, [Arg(k, U32(i))], Wrapped(k + 1, i + 1, n));
    assert Arg(k, U32(i)) in [Arg(k, U32(i))];
  }

  lemma WrappedStep(k: nat, i: int, n: nat, accepts: (nat, nat) -> bool, tail: Option<seq<Binding>>)
    requires tail == if Accepted(accepts, Wrapped(k + 1, i + 1, n)) then Some(Wrapped(k + 1, i + 1, n)) else None
    ensures (if accepts(k, U32(i)) then Prepend([Arg(k, U32(i))], tail) else None)
         == if Accepted(accepts, Wrapped(k, i, n + 1)) then Some(Wrapped(k, i, n + 1)) else None
  {
    WrappedOneMore(k, i, n, accepts);
  }

  /** As many arguments as there are letters, counted in 32 bits, go to them in order. */
  lemma {:induction false} ConsumeWrapped(items: seq<Item>, post: nat, i: int, k: nat, accepts: (nat, nat) -> bool)
    requires forall j :: 0 <= j < |items| ==> ItemOk(items[j]) && items[j].Letter?
    ensures var all := Wrapped(k, i, Letters(items));
      Consume(Text(items), Letters(items), post, U32(i), k, accepts)
        == if Accepted(accepts, all) then Some(all) else None
    decreases |items|
  {
    if items != [] {
      var tail := Text(items[1..]);
      assert Text(items) + "" == Text(items) && tail + "" == tail;
      LetterFirst(items, "", Letters(items), post, U32(i), k, accepts);
      ConsumeWrapped(items[1..], post, i + 1, k + 1, accepts);
      WrapsOn(i);
      WrappedStep(k, i, Letters(items[1..]), accepts,
                  Consume(tail, Letters(items) - 1, post, U32(i + 1), k + 1, accepts));
    }
  }

  lemma WrapsOn(i: int)
    ensures U32(U32(i) + 1) == U32(i + 1)
  {
  }

  lemma MarkWraps(p: nat, t: nat, n: nat)
    requires p < n < p + t < U32_LIMIT
    ensures var count := U32_LIMIT - (p + t - n);
      U32(n - p - t) == count && U32(n - p - count) == t && U32(p + count) == U32(n - t)
  {
  }

  lemma ConsumesRest(mark: char, rest: string, n: nat, post: nat, i: nat, k: nat, count: nat,
                     accepts: (nat, nat) -> bool)
    requires (mark == '*' || mark == '+') && n > 0 && U32(n - post) == count > 0
    ensures Consume([mark] + rest, n, post, i, k, accepts)
         == Prepend([Rest(i, count)], Consume(rest, U32(n - count), post, U32(i + count), k, accepts))
  {
    assert ([mark] + rest)[1..] == rest;
  }

  /** At the mark of a starved call. */
  lemma StarvedMark(s: Shape, numArgs: nat, accepts: (nat, nat) -> bool)
    requires WellFormed(s) && Starved(s, numArgs) && Letters(s.lead) + Letters(s.trail) < U32_LIMIT
    ensures var p, t := Letters(s.lead), Letters(s.trail);
      var end := Wrapped(p, numArgs - t, t);
      Consume([s.mark.value] + Text(s.trail), numArgs - p, t, p, p, accepts)
        == if Accepted(accepts, end) then Some([Rest(p, U32_LIMIT - (p + t - numArgs))] + end) else None
  {
    MarkOf(s.mark.value, s.trail, Letters(s.lead), numArgs, Letters(s.trail), accepts);
  }

  lemma MarkOf(mark: char, trail: seq<Item>, p: nat, n: nat, t: nat, accepts: (nat, nat) -> bool)
    requires (mark == '*' || mark == '+') && t == Letters(trail) && p < n < p + t < U32_LIMIT
    requires forall j :: 0 <= j < |trail| ==> ItemOk(trail[j]) && trail[j].Letter?
    ensures var end := Wrapped(p, n - t, t);
      Consume([mark] + Text(trail), n - p, t, p, p, accepts)
        == if Accepted(accepts, end) then Some([Rest(p, U32_LIMIT - (p + t - n))] + end) else None
  {
    var rest, count := Text(trail), U32_LIMIT - (p + t - n);
    MarkWraps(p, t, n);
    ConsumesRest(mark, rest, n - p, t, p, p, count, accepts);
    ConsumeWrapped(trail, t, n - t, p, accepts);
  }

  lemma AcceptedParts(accepts: (nat, nat) -> bool, first: seq<Binding>, mid: seq<Binding>, end: seq<Binding>,
                      tail: Option<seq<Binding>>)
    requires forall x :: x in mid ==> !x.Arg?
    requires tail == if Accepted(accepts, end) then Some(mid + end) else None
    ensures (if Accepted(accepts, first) then Prepend(first, tail) else None)
         == if Accepted(accepts, first + (mid + end)) then Some(first + (mid + end)) else None
  {
    ThreePartsAccepted(accepts, first, mid, end);
  }

  /** A starved call makes the subtraction wrap: the varargs claim more arguments than
      the call has, and the letters after them start over. It is accepted exactly if each
      letter accepts the argument it gets that way. */
  lemma StarvedWraps(s: Shape, numArgs: nat, callArgs: nat, extraNamed: bool, accepts: (nat, nat) -> bool)
    requires WellFormed(s) && numArgs < U32_LIMIT && |SpecOf(s)| < U32_LIMIT && !extraNamed
    requires Minimum(s) <= numArgs <= callArgs && Starved(s, numArgs)
    ensures Letters(s.lead) + Letters(s.trail) < U32_LIMIT
    ensures Parse(SpecOf(s), numArgs, callArgs, extraNamed, accepts)
         == if Accepted(accepts, Starving(s, numArgs)) then Some(Starving(s, numArgs)) else None
    ensures var count := U32_LIMIT - (Letters(s.lead) + Letters(s.trail) - numArgs);
      count > numArgs && Rest(Letters(s.lead), count) in Starving(s, numArgs)
  {
    var p, t := Letters(s.lead), Letters(s.trail);
    ParseIsTaken(s, numArgs, callArgs, extraNamed, accepts);
    LettersFit(s.lead);
    LettersFit(s.trail);
    TakenStarved(s, numArgs, accepts);
    assert Starving(s, numArgs)[p] == Rest(p, U32_LIMIT - (p + t - numArgs));
  }

  lemma TakenStarved(s: Shape, numArgs: nat, accepts: (nat, nat) -> bool)
    requires WellFormed(s) && Starved(s, numArgs) && Letters(s.lead) + Letters(s.trail) < U32_LIMIT
    ensures Taken(Letters(s.lead), AfterLead(s), numArgs, Letters(s.trail), 0, 0, accepts)
         == if Accepted(accepts, Starving(s, numArgs)) then Some(Starving(s, numArgs)) else None
  {
    var p, t := Letters(s.lead), Letters(s.trail);
    StarvedMark(s, numArgs, accepts);
    StraightAccepted(accepts, 0, 0, p);
    AcceptedParts(accepts, Straight(0, 0, p), [Rest(p, U32_LIMIT - (p + t - numArgs))], Wrapped(p, numArgs - t, t),
                  Consume(AfterLead(s), numArgs - p, t, p, p, accepts));
  }

  lemma {:induction false} LettersFit(items: seq<Item>)
    ensures Letters(items) <= |Text(items)|
  {
    if items != [] { LettersFit(items[1..]); }
  }

  lemma {:induction false} ConsumedLonger(b: seq<Binding>, first: nat, count: nat)
    requires Rest(first, count) in b
    ensures |Consumed(b)| >= count
  {
    if b[0] != Rest(first, count) { ConsumedLonger(b[1..], first, count); }
  }

  /** An accepted call uses each of its arguments exactly once, in order, if and only if
      it does not run out of arguments between the varargs mark and the letters after it. */
  lemma UsesAllIffNotStarved(s: Shape, numArgs: nat, callArgs: nat, extraNamed: bool, accepts: (nat, nat) -> bool)
    requires WellFormed(s) && numArgs < U32_LIMIT && |SpecOf(s)| < U32_LIMIT && (s.mark.Some? ==> !extraNamed)
    requires Minimum(s) <= numArgs <= callArgs && (s.mark.None? ==> numArgs <= Letters(s.lead))
    requires Parse(SpecOf(s), numArgs, callArgs, extraNamed, accepts).Some?
    ensures Consumed(Parse(SpecOf(s), numArgs, callArgs, extraNamed, accepts).value) == Range(0, numArgs)
        <==> !Starved(s, numArgs)
  {
    if Starved(s, numArgs) {
      StarvedWraps(s, numArgs, callArgs, extraNamed, accepts);
      ConsumedLonger(Parse(SpecOf(s), numArgs, callArgs, extraNamed, accepts).value, Letters(s.lead),
                     U32_LIMIT - (Letters(s.lead) + Letters(s.trail) - numArgs));
    } else {
      Distribution(s, numArgs, callArgs, extraNamed, accepts);
      IntendedUsesAll(s, numArgs);
    }
  }

  /** Only a bar before the mark and two letters after it can starve a call. */
  lemma StarvedNeedsBar(s: Shape, numArgs: nat)
    requires WellFormed(s) && Minimum(s) <= numArgs && Starved(s, numArgs)
    ensures (exists i :: 0 <= i < |s.lead| && s.lead[i].Bar?) && Letters(s.trail) >= 2
  {
    if forall i :: 0 <= i < |s.lead| ==> !s.lead[i].Bar? {
      NoBarMinimum(s.lead, 0, Letters(s.lead) + (if s.mark == Some('+') then 1 else 0) + Letters(s.trail));
    }
  }

  lemma {:induction false} NoBarMinimum(items: seq<Item>, seen: nat, otherwise: nat)
    requires forall i :: 0 <= i < |items| ==> !items[i].Bar?
    ensures MinimumFrom(items, seen, otherwise) == otherwise
  {
    if items != [] { NoBarMinimum(items[1..], seen + 1, otherwise); }
  }

  const EXAMPLE := Shape([Bar, Letter('l', "")], Some('*'), [Letter('l', ""), Letter('l', "")])

  lemma ExampleParts()
    ensures WellFormed(EXAMPLE) && Minimum(EXAMPLE) == 0 && Starved(EXAMPLE, 2) && SpecOf(EXAMPLE) == "|l*ll"
    ensures Letters(EXAMPLE.lead) == 1 && Letters(EXAMPLE.trail) == 2
  {
    var s := EXAMPLE;
    assert s.lead[1..] == [Letter('l', "")] && s.lead[1..][1..] == [];
    assert s.trail[1..] == [Letter('l', "")] && s.trail[1..][1..] == [];
    assert Text(s.lead) == "|l" && Text(s.trail) == "ll";
    assert Letters(s.lead) == 1 && Letters(s.trail) == 2;
    assert MinimumFrom(s.lead, 0, 3) == MinimumFrom([Letter('l', "")], 0, 0);
  }

  predicate AcceptsAny(letter: nat, arg: nat) {
    true
  }

  /** The specification `|l*ll` called with two arguments that every letter accepts: the
      second one reaches the mark while two letters still want one each, the varargs claim
      2^32 - 1, and argument 0 goes to the second letter as well. */
  lemma StarvedExample()
    ensures Starved(EXAMPLE, 2) && SpecOf(EXAMPLE) == "|l*ll"
    ensures Parse("|l*ll", 2, 2, false, AcceptsAny)
         == Some([Arg(0, 0), Rest(1, U32_LIMIT - 1), Arg(1, 0), Arg(2, 1)])
  {
    ExampleParts();
    StarvedWraps(EXAMPLE, 2, 2, false, AcceptsAny);
    assert Straight(0, 0, 1) == [Arg(0, 0)] && Wrapped(1, 0, 2) == [Arg(1, U32(0)), Arg(2, U32(1))];
    assert Starving(EXAMPLE, 2) == [Arg(0, 0), Rest(1, U32_LIMIT - 1), Arg(1, 0), Arg(2, 1)];
  }

  // ------------------------------------------------------------- the algorithm

  /** The first pass. */
  method CountSpecifiers(spec: string, extraNamed: bool) returns (r: Option<Counts>)
    ensures r == Count(spec, ZERO_COUNTS, extraNamed)
  {
    var c := ZERO_COUNTS;
    var walk := 0;
    while walk < |spec|
      invariant 0 <= walk <= |spec|
      invariant Count(spec[walk..], c, extraNamed) == Count(spec, ZERO_COUNTS, extraNamed)
    {
      var ch := spec[walk];
      assert spec[walk..][1..] == spec[walk + 1..];
      if IsLetter(ch) {
        c := c.(max := c.max + 1);
      } else if ch == '|' {
        c := c.(min := c.max, optional := true);
      } else if ch == '*' || ch == '+' {
        if c.varargs { return None; }
        c := c.(varargs := true);
        if ch == '+' {
          c := c.(max := c.max + 1);
        }
        c := c.(post := c.max);
        if extraNamed { return None; }
      } else if !IsModifier(ch) {
        return None;
      }
      walk := walk + 1;
    }
    return Some(c);
  }

  method ParseVaArgs(numArgs0: nat, spec: string, callArgs: nat, extraNamed: bool, accepts: (nat, nat) -> bool)
    returns (r: Option<seq<Binding>>)
    requires numArgs0 < U32_LIMIT && |spec| < U32_LIMIT
    ensures r == Parse(spec, numArgs0, callArgs, extraNamed, accepts)
  {
    var counted := CountSpecifiers(spec, extraNamed);
    if counted.None? { return None; }
    var c := counted.value;
    if !c.optional {
      c := c.(min := c.max);
    }
    if c.varargs {
      c := c.(post := c.max - c.post, max := U32_LIMIT - 1);
    }
    if numArgs0 < c.min || numArgs0 > c.max || numArgs0 > callArgs { return None; }

    r := Distribute(spec, numArgs0, c.post, accepts);
  }

  /** One turn of the second pass, from position `at`; a bar there is skipped. */
  lemma ConsumeAt(spec: string, at: nat, from: nat, n: nat, post: nat, i: nat, k: nat, accepts: (nat, nat) -> bool)
    requires at <= |spec| && n > 0 && from == if at < |spec| && spec[at] == '|' then at + 1 else at
    ensures var count := U32(n - post);
      Consume(spec[at..], n, post, i, k, accepts)
        == if from < |spec| && (spec[from] == '*' || spec[from] == '+') then
             if count > 0 then
               Prepend([Rest(i, count)], Consume(spec[from + 1..], U32(n - count), post, U32(i + count), k, accepts))
             else Prepend([NoRest], ConsumeOne(spec[from + 1..], n, post, i, k, accepts))
           else ConsumeOne(spec[from..], n, post, i, k, accepts)
  {
    assert from > at ==> spec[at..][1..] == spec[from..];
    if from < |spec| { assert spec[from..][1..] == spec[from + 1..]; }
  }

  ghost predicate LeftOk(goal: Option<seq<Binding>>, bound: seq<Binding>, one: bool, spec: string, at: nat, n: nat,
                         post: nat, i: nat, k: nat, accepts: (nat, nat) -> bool)
  {
    at <= |spec| && (one ==> n > 0) &&
    goal == Prepend(bound, if one then ConsumeOne(spec[at..], n, post, i, k, accepts)
                           else Consume(spec[at..], n, post, i, k, accepts))
  }

  /** The whole answer is what is bound so far and then the reading from `at` on, which has to
      begin with a letter if `one`; folded. */
  ghost predicate Left(goal: Option<seq<Binding>>, bound: seq<Binding>, one: bool, spec: string, at: nat, n: nat,
                       post: nat, i: nat, k: nat, accepts: (nat, nat) -> bool)
  {
    Agrees(LeftOk(goal, bound, one, spec, at, n, post, i, k, accepts));
    var r: bool :| forall depth: nat {:trigger Inspected(depth)} ::
      Agree(r, LeftOk(goal, bound, one, spec, at, n, post, i, k, accepts));
    r
  }

  lemma LeftAll(spec: string, n: nat, post: nat, accepts: (nat, nat) -> bool)
    ensures Left(Consume(spec, n, post, 0, 0, accepts), [], false, spec, 0, n, post, 0, 0, accepts)
  {
    assert Inspected(0);
    assert spec[0..] == spec;
    PrependNothing([], Consume(spec, n, post, 0, 0, accepts));
  }

  lemma LeftNone(goal: Option<seq<Binding>>, bound: seq<Binding>, spec: string, at: nat, post: nat, i: nat, k: nat,
                 accepts: (nat, nat) -> bool)
    requires Left(goal, bound, false, spec, at, 0, post, i, k, accepts)
    ensures goal == Some(bound)
  {
    assert Inspected(0);
    assert bound + [] == bound;
  }

  /** No mark at `from`: a letter has to follow. */
  lemma LeftLetter(goal: Option<seq<Binding>>, bound: seq<Binding>, spec: string, at: nat, from: nat, n: nat, post: nat,
                   i: nat, k: nat, accepts: (nat, nat) -> bool)
    requires Left(goal, bound, false, spec, at, n, post, i, k, accepts)
    requires at <= |spec| && n > 0 && from == if at < |spec| && spec[at] == '|' then at + 1 else at
    requires !(from < |spec| && (spec[from] == '*' || spec[from] == '+'))
    ensures Left(goal, bound, true, spec, from, n, post, i, k, accepts)
  {
    assert Inspected(0);
    ConsumeAt(spec, at, from, n, post, i, k, accepts);
  }

  /** The mark at `from`, with arguments for the varargs or without. */
  lemma LeftMark(goal: Option<seq<Binding>>, bound: seq<Binding>, spec: string, at: nat, from: nat, n: nat, post: nat,
                 i: nat, k: nat, accepts: (nat, nat) -> bool)
    requires Left(goal, bound, false, spec, at, n, post, i, k, accepts)
    requires at <= |spec| && n > 0 && from == if at < |spec| && spec[at] == '|' then at + 1 else at
    requires from < |spec| && (spec[from] == '*' || spec[from] == '+')
    ensures var count := U32(n - post);
      if count > 0
      then Left(goal, bound + [Rest(i, count)], false, spec, from + 1, U32(n - count), post, U32(i + count), k, accepts)
      else Left(goal, bound + [NoRest], true, spec, from + 1, n, post, i, k, accepts)
  {
    assert Inspected(0);
    ConsumeAt(spec, at, from, n, post, i, k, accepts);
    var count := U32(n - post);
    if count > 0 {
      PrependTwice(bound, [Rest(i, count)],
                   Consume(spec[from + 1..], U32(n - count), post, U32(i + count), k, accepts));
    } else {
      PrependTwice(bound, [NoRest], ConsumeOne(spec[from + 1..], n, post, i, k, accepts));
    }
  }

  /** A letter parsed at `at`; the next one is at `next`. */
  lemma LeftParsed(goal: Option<seq<Binding>>, bound: seq<Binding>, spec: string, at: nat, next: Option<nat>, n: nat,
                   post: nat, i: nat, k: nat, accepts: (nat, nat) -> bool)
    requires Left(goal, bound, true, spec, at, n + 1, post, i, k, accepts)
    requires at <= |spec| && (next.Some? ==> next.value <= |spec|)
    requires ConsumeOne(spec[at..], n + 1, post, i, k, accepts)
          == if next.Some?
             then Prepend([Arg(k, i)], Consume(spec[next.value..], n, post, U32(i + 1), k + 1, accepts))
             else None
    ensures if next.Some?
            then Left(goal, bound + [Arg(k, i)], false, spec, next.value, n, post, U32(i + 1), k + 1, accepts)
            else goal == None
  {
    assert Inspected(0);
    if next.Some? {
      PrependTwice(bound, [Arg(k, i)], Consume(spec[next.value..], n, post, U32(i + 1), k + 1, accepts));
    }
  }

  /** The second pass. */
  method Distribute(spec: string, numArgs0: nat, post: nat, accepts: (nat, nat) -> bool)
    returns (r: Option<seq<Binding>>)
    ensures r == Consume(spec, numArgs0, post, 0, 0, accepts)
  {
    var numArgs: nat, i: nat, k: nat, at: nat := numArgs0, 0, 0, 0;
    var bound: seq<Binding> := [];
    ghost var goal := Consume(spec, numArgs0, post, 0, 0, accepts);
    LeftAll(spec, numArgs0, post, accepts);
    while numArgs > 0
      invariant 0 <= at <= |spec| && Left(goal, bound, false, spec, at, numArgs, post, i, k, accepts)
      decreases |spec| - at
    {
      var from := if at < |spec| && spec[at] == '|' then at + 1 else at;
      var numVarargs := 0;
      if from < |spec| && (spec[from] == '*' || spec[from] == '+') {
        LeftMark(goal, bound, spec, at, from, numArgs, post, i, k, accepts);
        numVarargs := U32(numArgs - post);
        from := from + 1;
        if numVarargs > 0 {
          bound := bound + [Rest(i, numVarargs)];
          at, numArgs, i := from, U32(numArgs - numVarargs), U32(i + numVarargs);
          continue;
        }
        bound := bound + [NoRest];
      } else {
        LeftLetter(goal, bound, spec, at, from, numArgs, post, i, k, accepts);
      }
      numArgs := numArgs - 1;
      var next := ParseOne(spec, from, numArgs, post, i, k, accepts);
      LeftParsed(goal, bound, spec, from, next, numArgs, post, i, k, accepts);
      if next.None? { return None; }
      bound := bound + [Arg(k, i)];
      at, i, k := next.value, U32(i + 1), k + 1;
    }
    LeftNone(goal, bound, spec, at, post, i, k, accepts);
    return Some(bound);
  }

  /** Parse argument i with the letter at `at`; the result is where the next letter is. */
  method ParseOne(spec: string, at: nat, ghost left: nat, ghost post: nat, i: nat, k: nat, accepts: (nat, nat) -> bool)
    returns (next: Option<nat>)
    requires at <= |spec|
    ensures next.Some? ==> at < next.value <= |spec|
    ensures ConsumeOne(spec[at..], left + 1, post, i, k, accepts)
         == if next.Some? then Prepend([Arg(k, i)], Consume(spec[next.value..], left, post, U32(i + 1), k + 1, accepts))
            else None
  {
    if at >= |spec| || !IsParsed(spec[at]) || !accepts(k, i) { return None; }
    assert spec[at..][1..] == spec[at + 1..];
    var walk := at + 1;
    while walk < |spec| && IsModifier(spec[walk])
      invariant at < walk <= |spec|
      invariant SkipModifiers(spec[walk..]) == SkipModifiers(spec[at + 1..])
    {
      assert spec[walk..][1..] == spec[walk + 1..];
      walk := walk + 1;
    }
    return Some(walk);
  }
}
