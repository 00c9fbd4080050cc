/**
 * A text for every tree that has one in Unicode mode: each node as its own piece of text, code points as escapes.
 * The parser gives back the tree that was printed.
 */
module Printing {
  import opened Basics
  import opened Characters
  import opened CharacterRanges
  import opened Prepass
  import opened RangeAlgebra
  import opened ClassContents
  import opened Syntax
  import opened UnicodeSets
  import opened Trees
  import D = AtomNames
  import P = Pattern

  // ---- Texts ----

  function HexDigit(d: nat): Unit
    requires d < 16
  {
    if d < 10 then 0x30 + d else 0x61 + (d - 10)
  }

  function HexText(n: nat): (r: seq<Unit>)
    ensures r != []
  {
    if n < 16 then [HexDigit(n)] else HexText(n / 16) + [HexDigit(n % 16)]
  }

  /** A code point as an escape: \u{...}. */
  function CodePointText(c: nat): seq<Unit> {
    [BACKSLASH, 0x75, 0x7b] + HexText(c) + [0x7d]
  }

  function RangeText(range: CharacterRange): seq<Unit> {
    CodePointText(range.start) + [0x2d] + CodePointText(range.end)
  }

  function RangesText(ranges: seq<CharacterRange>): seq<Unit> {
    if ranges == [] then [] else RangeText(ranges[0]) + RangesText(ranges[1..])
  }

  function ClassText(class_: P.CharacterClass): seq<Unit> {
    [OPEN_CLASS] + (if class_.inverted then [0x5e] else []) + RangesText(class_.ranges) + [CLOSE_CLASS]
  }

  function QuantifierText(q: P.Quantifier): seq<Unit> {
    [0x7b] + D.Decimal(q.minimum) + [0x2c] + (if q.maximum.Some? then D.Decimal(q.maximum.value) else [])
    + [0x7d] + (if q.greedy then [] else [QUESTION])
  }

  /** The letters of the modifiers that are on, or of those that are off. */
  function Letters(m: P.Modifiers, on: bool): seq<Unit> {
    (if m.ignoreCase == on then [0x69] else []) + (if m.multiline == on then [0x6d] else [])
    + (if m.dotAll == on then [0x73] else [])
  }

  /** What follows the opening parenthesis of a group or a lookaround. */
  function HeadText(atom: P.Atom): seq<Unit>
    requires atom.Group? || atom.LookAround?
  {
    if atom.LookAround? then
      [QUESTION] + (if atom.backward then [LESS] else []) + [if atom.negative then 0x21 else 0x3d]
    else if atom.capture.Some? then []
    else if atom.modifiers.None? then [QUESTION, 0x3a]
    else [QUESTION] + Letters(atom.modifiers.value, true) + [0x2d] + Letters(atom.modifiers.value, false) + [0x3a]
  }

  function AtomText(atom: P.Atom): seq<Unit>
    decreases atom
  {
    match atom
    case Literal(value) => CodePointText(value)
    case Dot => [0x2e]
    case LineStart => [0x5e]
    case LineEnd => [0x24]
    case WordBoundary(inverted) => [BACKSLASH, if inverted then 0x42 else 0x62]
    case Space(inverted) => [BACKSLASH, if inverted then 0x53 else 0x73]
    case Class(class_) => ClassText(class_)
    case BackReference(captures) => [BACKSLASH] + (if captures == [] then [] else D.Decimal(captures[0]))
    case LookAround(_, _, expression) => [OPEN] + HeadText(atom) + AlternativesText(expression.alternatives) + [CLOSE]
    case Group(_, _, expression) => [OPEN] + HeadText(atom) + AlternativesText(expression.alternatives) + [CLOSE]
  }

  function AlternativesText(alternatives: seq<P.Sequence>): seq<Unit>
    decreases alternatives
  {
    if alternatives == [] then []
    else if |alternatives| == 1 then TermsText(alternatives[0].terms)
    else TermsText(alternatives[0].terms) + [0x7c] + AlternativesText(alternatives[1..])
  }

  function TermsText(terms: seq<P.Term>): seq<Unit>
    decreases terms
  {
    if terms == [] then [] else TermText(terms[0]) + TermsText(terms[1..])
  }

  function TermText(term: P.Term): seq<Unit>
    decreases term
  {
    AtomText(term.atom) + (if term.quantifier.Some? then QuantifierText(term.quantifier.value) else [])
  }

  // ---- Trees that have a text ----

  /** Assertions take no quantifier in Unicode mode. */
  predicate Repeatable(atom: P.Atom) {
    !atom.LineStart? && !atom.LineEnd? && !atom.WordBoundary? && !atom.LookAround?
  }

  /** Folding case changes nothing. */
  ghost predicate Closed(x: Context, ranges: seq<CharacterRange>) {
    Image(Folding(x), CharactersOf(ranges)) == CharactersOf(ranges)
  }

  /**
   The node has a text: references are to one group, classes have no strings and are closed where case is ignored,
   and groups are numbered, few enough and not nested too deep.
   */
  ghost predicate Printable(x: Context, m: P.Modifiers, atom: P.Atom, first: nat, depth: nat)
    decreases atom
  {
    match atom
    case Literal(value) => value <= MAX_CODE_POINT
    case Class(class_) => P.ValidClass(class_) && class_.strings == [] && (m.ignoreCase ==> Closed(x, class_.ranges))
    case BackReference(captures) => |captures| == 1 && 1 <= captures[0] < x.total && captures[0] < I32_MAX
    case LookAround(_, _, expression) =>
      && depth < MAX_GROUP_NESTING && expression.alternatives != []
      && PrintableAlternatives(x, m, expression.alternatives, first, depth + 1)
    case Group(capture, modifiers, expression) =>
      && depth < MAX_GROUP_NESTING && expression.alternatives != []
      && (capture.Some? ==> capture.value == first < CAPTURE_COUNT_MAX && modifiers.None?)
      && PrintableAlternatives(x, if modifiers.Some? then modifiers.value else m, expression.alternatives,
                               if capture.Some? then first + 1 else first, depth + 1)
    case _ => true
  }

  ghost predicate PrintableAlternatives(x: Context, m: P.Modifiers, alternatives: seq<P.Sequence>, first: nat, depth: nat)
    decreases alternatives
  {
    alternatives != [] ==>
      && PrintableTerms(x, m, alternatives[0].terms, first, depth)
      && PrintableAlternatives(x, m, alternatives[1..], first + P.TermsGroups(alternatives[0].terms), depth)
  }

  ghost predicate PrintableTerms(x: Context, m: P.Modifiers, terms: seq<P.Term>, first: nat, depth: nat)
    decreases terms
  {
    terms != [] ==>
      && PrintableTerm(x, m, terms[0], first, depth)
      && PrintableTerms(x, m, terms[1..], first + P.TermGroups(terms[0]), depth)
  }

  ghost predicate PrintableTerm(x: Context, m: P.Modifiers, term: P.Term, first: nat, depth: nat)
    decreases term
  {
    && Printable(x, m, term.atom, first, depth)
    && (term.quantifier.Some? ==> P.ValidQuantifier(term.quantifier.value) && Repeatable(term.atom))
  }

  // ---- Texts in a context ----

  /** The text stands at this position. */
  predicate Spelled(x: Context, p: nat, text: seq<Unit>) {
    forall i :: 0 <= i < |text| ==> At(x, p + i) == text[i]
  }

  lemma SpelledSplit(x: Context, p: nat, a: seq<Unit>, b: seq<Unit>)
    requires Spelled(x, p, a + b)
    ensures Spelled(x, p, a) && Spelled(x, p + |a|, b)
  {
    forall i | 0 <= i < |a|
      ensures At(x, p + i) == a[i]
    {
      assert (a + b)[i] == a[i];
    }
    forall i | 0 <= i < |b|
      ensures At(x, p + |a| + i) == b[i]
    {
      assert (a + b)[|a| + i] == b[i] && At(x, p + (|a| + i)) == (a + b)[|a| + i];
    }
  }

  lemma SpelledOne(x: Context, p: nat, unit: Unit)
    requires Spelled(x, p, [unit])
    ensures At(x, p) == unit
  {
    assert At(x, p + 0) == [unit][0];
  }

  lemma SpelledFirst(x: Context, p: nat, text: seq<Unit>)
    requires Spelled(x, p, text)
    ensures text != [] ==> At(x, p) == text[0]
  {
    assert text != [] ==> At(x, p + 0) == text[0];
  }

  // ---- Numbers ----

  lemma {:induction false} HexSpelled(x: Context, p: nat, n: nat)
    requires Spelled(x, p, HexText(n))
    ensures forall i :: p <= i < p + |HexText(n)| ==> IsHex(At(x, i))
    ensures HexRunValue(x, p, p + |HexText(n)|) == n
    decreases n
  {
    var text, last := HexText(n), HexDigit(n % 16);
    if n < 16 {
      SpelledOne(x, p, last);
      assert HexRunValue(x, p, p) == 0;
    } else {
      SpelledSplit(x, p, HexText(n / 16), [last]);
      HexSpelled(x, p, n / 16);
      SpelledOne(x, p + |HexText(n / 16)|, last);
    }
  }

  lemma {:induction false} HexEnds(x: Context, p: nat, q: nat)
    requires p <= q && !IsHex(At(x, q)) && forall i :: p <= i < q ==> IsHex(At(x, i))
    ensures HexEnd(x, p) == q
    decreases q - p
  {
    if p < q {
      HexEnds(x, p + 1, q);
    }
  }

  /** A code point escape, with the cursor behind the letter u. */
  lemma CodePointSpelled(x: Context, p: nat, c: nat)
    requires x.unicode && c <= MAX_CODE_POINT && Spelled(x, p, CodePointText(c))
    ensures var end := p + |CodePointText(c)|;
            && At(x, p) == BACKSLASH && At(x, p + 1) == 0x75
            && UnicodeEscape(x, p + 2) == Some(end) && UnicodeEscapeValue(x, p + 2) == c
  {
    hide HexText;
    hide HexRunValue;
    hide HexEnd;
    var head, hex := [BACKSLASH, 0x75, 0x7b], HexText(c);
    SpelledSplit(x, p, head + hex, [0x7d]);
    SpelledSplit(x, p, head, hex);
    SpelledOne(x, p + 3 + |hex|, 0x7d);
    assert At(x, p + 0) == head[0] && At(x, p + 1) == head[1] && At(x, p + 2) == head[2];
    HexSpelled(x, p + 3, c);
    HexEnds(x, p + 3, p + 3 + |hex|);
  }

  /** One more digit of a number. */
  lemma NextDigit(x: Context, p: nat, text: seq<Unit>, k: nat)
    requires D.Digits(text) && Spelled(x, p, text) && k < |text|
    ensures At(x, p + k) == text[k] && IsDigit(text[k])
    ensures D.Value(text[..k + 1]) == D.Value(text[..k]) * 10 + (text[k] - 0x30) <= D.Value(text)
  {
    assert D.IsDigit(text[k]);
    assert text[..k + 1][..k] == text[..k] && text[..k + 1][k] == text[k];
    D.PrefixIsSmaller(text, k + 1);
  }

  /** Digits up to a unit that is none. */
  lemma {:induction false} DigitsSpelled(x: Context, p: nat, text: seq<Unit>, k: nat)
    requires D.Digits(text) && Spelled(x, p, text) && k <= |text| && !IsDigit(At(x, p + |text|))
    ensures DigitsEnd(x, p + k) == p + |text|
    decreases |text| - k
  {
    hide Spelled;
    hide D.Value;
    if k < |text| {
      NextDigit(x, p, text, k);
      DigitsSpelled(x, p, text, k + 1);
    }
  }

  lemma {:induction false} CountSpelled(x: Context, p: nat, text: seq<Unit>, k: nat)
    requires D.Digits(text) && Spelled(x, p, text) && k <= |text| && !IsDigit(At(x, p + |text|))
    requires D.Value(text) <= P.INFINITE_REPETITION
    ensures Clamped(x, D.Value(text[..k]), p + k) == D.Value(text)
    decreases |text| - k
  {
    hide Spelled;
    hide D.Value;
    if k < |text| {
      NextDigit(x, p, text, k);
      CountSpelled(x, p, text, k + 1);
    } else {
      assert text[..k] == text;
    }
  }

  lemma {:induction false} ReferenceSpelled(x: Context, p: nat, text: seq<Unit>, k: nat)
    requires D.Digits(text) && Spelled(x, p, text) && k <= |text| && !IsDigit(At(x, p + |text|))
    requires D.Value(text) < I32_MAX
    ensures DecimalReference(x, Some(D.Value(text[..k])), p + k) == Some(D.Value(text))
    decreases |text| - k
  {
    hide Spelled;
    hide D.Value;
    if k < |text| {
      NextDigit(x, p, text, k);
      ReferenceSpelled(x, p, text, k + 1);
    } else {
      assert text[..k] == text;
    }
  }

  lemma DecimalSpelled(x: Context, p: nat, n: nat)
    requires Spelled(x, p, D.Decimal(n)) && !IsDigit(At(x, p + |D.Decimal(n)|))
    ensures IsDigit(At(x, p)) && DigitsEnd(x, p) == p + |D.Decimal(n)|
    ensures n <= P.INFINITE_REPETITION ==> Clamped(x, 0, p) == n
    ensures 0 < n < I32_MAX ==>
      0x31 <= At(x, p) <= 0x39 && DecimalReference(x, Some(At(x, p) - 0x30), p + 1) == Some(n)
      && DigitsEnd(x, p + 1) == p + |D.Decimal(n)|
  {
    hide Clamped;
    hide DigitsEnd;
    hide DecimalReference;
    hide D.Decimal;
    var text := D.Decimal(n);
    D.DecimalIsCanonical(n);
    DigitsSpelled(x, p, text, 0);
    DigitsSpelled(x, p, text, 1);
    if n <= P.INFINITE_REPETITION {
      CountSpelled(x, p, text, 0);
    }
    if n < I32_MAX {
      ReferenceSpelled(x, p, text, 1);
    }
    assert D.IsDigit(text[0]) && At(x, p + 0) == text[0];
    assert text[..0] == [] && text[..1] == [text[0]] && [text[0]][..0] == [];
    assert D.Value(text[..1]) == text[0] - 0x30;
  }

  // ---- Classes ----

  lemma AtomSpelled(x: Context, ignoreCase: bool, p: nat, c: CodePoint)
    requires x.unicode && Spelled(x, p, CodePointText(c))
    ensures At(x, p) == BACKSLASH && ClassAtom(x, ignoreCase, p) == Some((p + |CodePointText(c)|, Single(c)))
  {
    hide UnicodeEscape;
    hide UnicodeEscapeValue;
    hide CodePointText;
    hide PropertyEscape;
    hide HexEscape;
    hide ControlEscape;
    hide LegacyOctal;
    CodePointSpelled(x, p, c);
  }

  lemma EntrySpelled(x: Context, ignoreCase: bool, p: nat, range: CharacterRange)
    requires x.unicode && range.start <= range.end <= MAX_CODE_POINT && Spelled(x, p, RangeText(range))
    ensures At(x, p) == BACKSLASH
    ensures ClassEntry(x, ignoreCase, p) ==
      Some((p + |RangeText(range)|, Folded(x, ignoreCase, Interval(range.start, range.end) * Interval(0, MAX_CODE_POINT))))
  {
    hide Spelled;
    hide ClassAtom;
    hide CodePointText;
    hide Folded;
    var start, end := CodePointText(range.start), CodePointText(range.end);
    SpelledSplit(x, p, start + [0x2d], end);
    SpelledSplit(x, p, start, [0x2d]);
    SpelledOne(x, p + |start|, 0x2d);
    AtomSpelled(x, ignoreCase, p, range.start);
    AtomSpelled(x, ignoreCase, p + |start| + 1, range.end);
  }

  lemma FoldedJoin(x: Context, ignoreCase: bool, ranges: seq<CharacterRange>)
    requires ranges != [] && ranges[0].start <= ranges[0].end <= MAX_CODE_POINT
    ensures var range := ranges[0];
            Folded(x, ignoreCase, Interval(range.start, range.end) * Interval(0, MAX_CODE_POINT))
            + Folded(x, ignoreCase, CharactersOf(ranges[1..])) == Folded(x, ignoreCase, CharactersOf(ranges))
  {
    var range := ranges[0];
    var first, rest := Interval(range.start, range.end) * Interval(0, MAX_CODE_POINT), CharactersOf(ranges[1..]);
    forall c: CodePoint
      ensures c in first + rest <==> c in CharactersOf(ranges)
    {
      MemberFirst(ranges, c);
      InInterval(range.start, range.end, c);
      InInterval(0, MAX_CODE_POINT, c);
    }
    assert first + rest == CharactersOf(ranges);
    assert Image(Folding(x), first) + Image(Folding(x), rest) == Image(Folding(x), first + rest);
  }

  lemma InInterval(start: CodePoint, end: CodePoint, c: CodePoint)
    ensures c in Interval(start, end) <==> start <= c <= end
  {
    var range := CharacterRange(start, end);
    assert [range][0] == range;
    assert Member([range], c) <==> start <= c <= end;
  }

  lemma {:induction false} RangesSpelled(x: Context, ignoreCase: bool, p: nat, ranges: seq<CharacterRange>, so: iset<CodePoint>)
    requires x.unicode && CodePoints(ranges)
    requires Spelled(x, p, RangesText(ranges)) && At(x, p + |RangesText(ranges)|) == CLOSE_CLASS
    ensures ClassItems(x, ignoreCase, p, so) ==
      Some((p + |RangesText(ranges)| + 1, so + Folded(x, ignoreCase, CharactersOf(ranges))))
    decreases |ranges|
  {
    hide Spelled;
    hide ClassEntry;
    hide Folded;
    hide RangeText;
    hide CharactersOf;
    if ranges == [] {
      NothingFolded(x, ignoreCase);
      assert so + iset{} == so;
    } else {
      var text, range := RangeText(ranges[0]), ranges[0];
      SpelledSplit(x, p, text, RangesText(ranges[1..]));
      EntrySpelled(x, ignoreCase, p, range);
      var added := Folded(x, ignoreCase, Interval(range.start, range.end) * Interval(0, MAX_CODE_POINT));
      RangesSpelled(x, ignoreCase, p + |text|, ranges[1..], so + added);
      FoldedJoin(x, ignoreCase, ranges);
      var rest := Folded(x, ignoreCase, CharactersOf(ranges[1..]));
      assert so + added + rest == so + (added + rest);
    }
  }

  lemma NothingFolded(x: Context, ignoreCase: bool)
    ensures Folded(x, ignoreCase, CharactersOf([])) == iset{}
  {
    Nothing();
    assert CharactersOf([]) == iset{};
  }

  lemma ClassLaid(x: Context, p: nat, class_: P.CharacterClass) returns (start: nat)
    requires x.unicode && CodePoints(class_.ranges) && Spelled(x, p, ClassText(class_))
    ensures At(x, p) == OPEN_CLASS && (At(x, p + 1) == 0x5e <==> class_.inverted)
    ensures start == p + (if class_.inverted then 2 else 1) && Spelled(x, start, RangesText(class_.ranges))
    ensures var end := start + |RangesText(class_.ranges)|; At(x, end) == CLOSE_CLASS && end + 1 == p + |ClassText(class_)|
  {
    hide Spelled;
    hide RangesText;
    var ranges, hat := RangesText(class_.ranges), if class_.inverted then [0x5e] else [];
    SpelledSplit(x, p, [OPEN_CLASS] + hat + ranges, [CLOSE_CLASS]);
    SpelledSplit(x, p, [OPEN_CLASS] + hat, ranges);
    SpelledSplit(x, p, [OPEN_CLASS], hat);
    SpelledOne(x, p, OPEN_CLASS);
    start := p + 1 + |hat|;
    SpelledOne(x, start + |ranges|, CLOSE_CLASS);
    SpelledFirst(x, p + 1, hat);
    if !class_.inverted {
      NoHat(x, p + 1, class_.ranges);
    }
  }

  /** A class is read back as it was printed. */
  lemma ClassSpelled(x: Context, ignoreCase: bool, p: nat, class_: P.CharacterClass, depth: nat)
    requires x.unicode && !x.sets && P.ValidClass(class_) && class_.strings == []
    requires ignoreCase ==> Closed(x, class_.ranges)
    requires Spelled(x, p, ClassText(class_))
    ensures At(x, p) == OPEN_CLASS
    ensures var r := CharacterClass(x, ignoreCase, p + 1, depth);
            && r.Some? && r.value.0 == p + |ClassText(class_)|
            && ClassOf(r.value.1, Inverted(x, p + 1)) == class_
  {
    hide Spelled;
    hide RangesText;
    hide ClassText;
    hide ClassItems;
    hide Ranges;
    hide Member;
    var start := ClassLaid(x, p, class_);
    RangesSpelled(x, ignoreCase, start, class_.ranges, iset{});
    var held := CharactersOf(class_.ranges);
    assert iset{} + Folded(x, ignoreCase, held) == held;
    HoldRanges(class_.ranges);
    DenotedIsRanges(class_.ranges, held);
  }

  lemma NoHat(x: Context, p: nat, ranges: seq<CharacterRange>)
    requires x.unicode && CodePoints(ranges)
    requires Spelled(x, p, RangesText(ranges)) && At(x, p + |RangesText(ranges)|) == CLOSE_CLASS
    ensures At(x, p) != 0x5e
  {
    hide RangeText;
    if ranges != [] {
      SpelledSplit(x, p, RangeText(ranges[0]), RangesText(ranges[1..]));
      EntrySpelled(x, false, p, ranges[0]);
    }
  }

  // ---- Quantifiers and heads of groups ----

  lemma QuantifierLaid(x: Context, p: nat, q: P.Quantifier) returns (comma: nat, end: nat)
    requires Spelled(x, p, QuantifierText(q))
    ensures At(x, p) == 0x7b && Spelled(x, p + 1, D.Decimal(q.minimum))
    ensures comma == p + 1 + |D.Decimal(q.minimum)| && At(x, comma) == 0x2c
    ensures q.maximum.Some? ==> Spelled(x, comma + 1, D.Decimal(q.maximum.value))
    ensures end == comma + 1 + (if q.maximum.Some? then |D.Decimal(q.maximum.value)| else 0) && At(x, end) == 0x7d
    ensures p + |QuantifierText(q)| == end + (if q.greedy then 1 else 2) && (!q.greedy ==> At(x, end + 1) == QUESTION)
  {
    hide Spelled;
    hide D.Decimal;
    var minimum := D.Decimal(q.minimum);
    var maximum := if q.maximum.Some? then D.Decimal(q.maximum.value) else [];
    var lazy := if q.greedy then [] else [QUESTION];
    SpelledSplit(x, p, [0x7b] + minimum + [0x2c] + maximum + [0x7d], lazy);
    SpelledSplit(x, p, [0x7b] + minimum + [0x2c] + maximum, [0x7d]);
    SpelledSplit(x, p, [0x7b] + minimum + [0x2c], maximum);
    SpelledSplit(x, p, [0x7b] + minimum, [0x2c]);
    SpelledSplit(x, p, [0x7b], minimum);
    comma := p + 1 + |minimum|;
    end := comma + 1 + |maximum|;
    SpelledOne(x, p, 0x7b);
    SpelledOne(x, comma, 0x2c);
    SpelledOne(x, end, 0x7d);
    SpelledFirst(x, end + 1, lazy);
  }

  lemma QuantifierSpelled(x: Context, p: nat, q: P.Quantifier)
    requires P.ValidQuantifier(q) && Spelled(x, p, QuantifierText(q)) && At(x, p + |QuantifierText(q)|) != QUESTION
    ensures At(x, p) == 0x7b && Quantifier(x, p) == Some((p + |QuantifierText(q)|, Some(q)))
  {
    hide Spelled;
    hide QuantifierText;
    hide DigitsEnd;
    hide Clamped;
    hide D.Decimal;
    var comma, end := QuantifierLaid(x, p, q);
    DecimalSpelled(x, p + 1, q.minimum);
    if q.maximum.Some? {
      DecimalSpelled(x, comma + 1, q.maximum.value);
    } else {
      NoDigits(x, comma + 1);
    }
  }

  lemma NoDigits(x: Context, p: nat)
    requires !IsDigit(At(x, p))
    ensures DigitsEnd(x, p) == p
  {
  }

  function LetterSet(m: P.Modifiers, on: bool): set<int> {
    (if m.ignoreCase == on then {0x69} else {}) + (if m.multiline == on then {0x6d} else {})
    + (if m.dotAll == on then {0x73} else {})
  }

  lemma LetterStep(x: Context, p: nat, letter: Unit, present: bool, seen: set<int>)
    requires letter in {0x69, 0x6d, 0x73} && letter !in seen && Spelled(x, p, if present then [letter] else [])
    ensures present ==> Modifiers(x, p, seen) == Modifiers(x, p + 1, seen + {letter})
  {
    if present {
      SpelledOne(x, p, letter);
    }
  }

  lemma LettersSpelled(x: Context, p: nat, m: P.Modifiers, on: bool)
    requires Spelled(x, p, Letters(m, on)) && At(x, p + |Letters(m, on)|) !in {0x69, 0x6d, 0x73}
    ensures Modifiers(x, p, {}) == Some((p + |Letters(m, on)|, LetterSet(m, on)))
  {
    hide Spelled;
    hide Modifiers;
    var first := if m.ignoreCase == on then [0x69] else [];
    var second := if m.multiline == on then [0x6d] else [];
    var third := if m.dotAll == on then [0x73] else [];
    SpelledSplit(x, p, first + second, third);
    SpelledSplit(x, p, first, second);
    var a: set<int> := if m.ignoreCase == on then {0x69} else {};
    var b := a + if m.multiline == on then {0x6d} else {};
    LetterStep(x, p, 0x69, m.ignoreCase == on, {});
    LetterStep(x, p + |first|, 0x6d, m.multiline == on, a);
    LetterStep(x, p + |first| + |second|, 0x73, m.dotAll == on, b);
    LettersEnd(x, p + |Letters(m, on)|, LetterSet(m, on));
    assert {} + a == a && a + {} == a && b + {} == b;
  }

  lemma LettersEnd(x: Context, p: nat, seen: set<int>)
    requires At(x, p) !in {0x69, 0x6d, 0x73}
    ensures Modifiers(x, p, seen) == Some((p, seen))
  {
  }

  /** The letters that are on and those that are off give back the modifiers, whatever they were before. */
  lemma LettersUpdate(m: P.Modifiers, to: P.Modifiers)
    ensures Updated(m, LetterSet(to, true), LetterSet(to, false)) == to
    ensures LetterSet(to, true) * LetterSet(to, false) == {} && LetterSet(to, true) + LetterSet(to, false) != {}
  {
    assert 0x69 in LetterSet(to, true) + LetterSet(to, false);
  }

  lemma ModifierHeadSpelled(x: Context, m: P.Modifiers, p: nat, to: P.Modifiers)
    requires Spelled(x, p, Letters(to, true) + [0x2d] + Letters(to, false) + [0x3a])
    ensures ModifierHead(x, p) == Some(p + |Letters(to, true)| + |Letters(to, false)| + 2)
    ensures HeadModifiers(x, m, p) == to
    ensures At(x, p) in {0x69, 0x6d, 0x73, 0x2d}
  {
    hide Spelled;
    hide Modifiers;
    var on, off := Letters(to, true), Letters(to, false);
    SpelledSplit(x, p, on + [0x2d] + off, [0x3a]);
    SpelledSplit(x, p, on + [0x2d], off);
    SpelledSplit(x, p, on, [0x2d]);
    SpelledOne(x, p + |on|, 0x2d);
    SpelledOne(x, p + |on| + 1 + |off|, 0x3a);
    LettersSpelled(x, p, to, true);
    LettersSpelled(x, p + |on| + 1, to, false);
    LettersUpdate(m, to);
    SpelledFirst(x, p, on);
  }

  function Captured(atom: P.Atom): nat {
    if atom.Group? && atom.capture.Some? then 1 else 0
  }

  function InnerOf(atom: P.Atom, m: P.Modifiers): P.Modifiers {
    if atom.Group? && atom.modifiers.Some? then atom.modifiers.value else m
  }

  /** The head of a group is read back; `p` is after its opening parenthesis. */
  lemma HeadSpelled(x: Context, m: P.Modifiers, s: State, p: nat, atom: P.Atom)
    requires x.unicode && (atom.Group? || atom.LookAround?) && Spelled(x, p, HeadText(atom))
    requires Captured(atom) == 1 ==>
      atom.capture.value == s.captures < CAPTURE_COUNT_MAX && atom.modifiers.None? && At(x, p) != QUESTION
    ensures GroupHead(x, s, p) == Some(s.(position := p + |HeadText(atom)|, captures := s.captures + Captured(atom)))
    ensures Inner(x, m, p) == InnerOf(atom, m)
    ensures Enclosed(x, m, s.captures, p, atom.expression) == atom
    ensures QuantifiableGroup(x, p) == atom.Group?
  {
    hide ModifierHead;
    hide HeadModifiers;
    hide GroupName;
    hide NameFrom;
    hide Duplicate;
    hide Letters;
    var text := HeadText(atom);
    assert s.names + [] == s.names;
    if atom.Group? && atom.capture.None? && atom.modifiers.Some? {
      var to := atom.modifiers.value;
      var letters := Letters(to, true) + [0x2d] + Letters(to, false) + [0x3a];
      assert text == [QUESTION] + letters;
      SpelledSplit(x, p, [QUESTION], letters);
      SpelledOne(x, p, QUESTION);
      ModifierHeadSpelled(x, m, p + 1, to);
    } else if Captured(atom) == 0 {
      assert At(x, p + 0) == text[0] && At(x, p + 1) == text[1];
      assert |text| == 3 ==> At(x, p + 2) == text[2];
    }
  }

  // ---- Whole trees ----

  /** The parser has moved over a text with that many groups; only the scope may have changed besides. */
  predicate MovedOver(s: State, s': State, text: seq<Unit>, groups: nat) {
    s' == s.(position := s.position + |text|, captures := s.captures + groups, scope := s'.scope)
  }

  ghost predicate ReadsAtom(x: Context, m: P.Modifiers, s: State, depth: nat, atom: P.Atom) {
    var r := Atom(x, m, s, depth);
    && r.Some? && MovedOver(s, r.value.0, AtomText(atom), P.GroupCount(atom)) && r.value.1 == Repeatable(atom)
    && AtomTree(x, m, s, depth) == atom
  }

  ghost predicate ReadsTerms(x: Context, m: P.Modifiers, s: State, inGroup: bool, depth: nat, terms: seq<P.Term>) {
    var r := Sequence(x, m, s, inGroup, depth);
    && r.Some? && MovedOver(s, r.value, TermsText(terms), P.TermsGroups(terms))
    && SequenceTree(x, m, s, inGroup, depth) == terms
  }

  ghost predicate ReadsAlternatives(x: Context, m: P.Modifiers, s: State, inGroup: bool, depth: nat, alternatives: seq<P.Sequence>) {
    var r := Disjunction(x, m, s, inGroup, depth);
    && r.Some? && MovedOver(s, r.value, AlternativesText(alternatives), P.AlternativesGroups(alternatives))
    && DisjunctionTree(x, m, s, inGroup, depth) == alternatives
  }

  lemma LeafPrinted(x: Context, m: P.Modifiers, s: State, depth: nat, atom: P.Atom)
    requires x.unicode && !x.sets && Printable(x, m, atom, s.captures, depth) && !atom.Group? && !atom.LookAround?
    requires Spelled(x, s.position, AtomText(atom)) && !IsDigit(At(x, s.position + |AtomText(atom)|))
    ensures ReadsAtom(x, m, s, depth, atom)
  {
    hide CharacterClass;
    hide ClassText;
    hide CodePointText;
    hide Group;
    hide GroupTree;
    hide Escape;
    hide EscapeTree;
    hide ClassOf;
    var p := s.position;
    if atom.Class? {
      ClassSpelled(x, m.ignoreCase, p, atom.class_, depth);
    } else if atom.Dot? || atom.LineStart? || atom.LineEnd? {
      SpelledFirst(x, p, AtomText(atom));
    } else {
      EscapePrinted(x, m, s, atom);
    }
  }

  lemma EscapePrinted(x: Context, m: P.Modifiers, s: State, atom: P.Atom)
    requires x.unicode && (atom.Literal? || atom.WordBoundary? || atom.Space? || atom.BackReference?)
    requires Printable(x, m, atom, s.captures, 0)
    requires Spelled(x, s.position, AtomText(atom)) && !IsDigit(At(x, s.position + |AtomText(atom)|))
    ensures var p := s.position;
            && At(x, p) == BACKSLASH
            && Escape(x, m, s, p + 1) == Some((s.(position := p + |AtomText(atom)|), Repeatable(atom)))
            && EscapeTree(x, m, s, p + 1) == atom
  {
    hide CodePointText;
    hide UnicodeEscape;
    hide UnicodeEscapeValue;
    hide NamedReference;
    hide NamedTree;
    hide PropertyEscape;
    hide HexEscape;
    hide ControlEscape;
    hide LegacyOctal;
    hide D.Decimal;
    hide DecimalReference;
    hide DigitsEnd;
    var p := s.position;
    if atom.Literal? {
      CodePointSpelled(x, p, atom.value);
    } else if atom.BackReference? {
      SpelledSplit(x, p, [BACKSLASH], D.Decimal(atom.captures[0]));
      SpelledOne(x, p, BACKSLASH);
      DecimalSpelled(x, p + 1, atom.captures[0]);
    } else {
      var text := AtomText(atom);
      assert At(x, p + 0) == text[0] && At(x, p + 1) == text[1];
    }
  }

  lemma {:induction false} AtomPrinted(x: Context, m: P.Modifiers, s: State, depth: nat, atom: P.Atom)
    requires x.unicode && !x.sets && Printable(x, m, atom, s.captures, depth)
    requires Spelled(x, s.position, AtomText(atom)) && !IsDigit(At(x, s.position + |AtomText(atom)|))
    ensures ReadsAtom(x, m, s, depth, atom)
    decreases atom, 0
  {
    hide ReadsAtom;
    hide AtomText;
    if atom.Group? || atom.LookAround? {
      GroupPrinted(x, m, s, depth, atom);
    } else {
      LeafPrinted(x, m, s, depth, atom);
    }
  }

  lemma {:induction false} GroupPrinted(x: Context, m: P.Modifiers, s: State, depth: nat, atom: P.Atom)
    requires x.unicode && !x.sets && Printable(x, m, atom, s.captures, depth) && (atom.Group? || atom.LookAround?)
    requires Spelled(x, s.position, AtomText(atom))
    ensures ReadsAtom(x, m, s, depth, atom)
    decreases atom.expression.alternatives, 3
  {
    hide Spelled;
    hide HeadText;
    hide AlternativesText;
    hide GroupHead;
    hide Inner;
    hide Enclosed;
    hide Disjunction;
    hide DisjunctionTree;
    hide CharacterClass;
    hide Escape;
    hide EscapeTree;
    hide ClassOf;
    hide QuantifiableGroup;
    var p, head, body := s.position, HeadText(atom), AlternativesText(atom.expression.alternatives);
    SpelledSplit(x, p, [OPEN] + head + body, [CLOSE]);
    SpelledSplit(x, p, [OPEN] + head, body);
    SpelledSplit(x, p, [OPEN], head);
    SpelledOne(x, p, OPEN);
    SpelledOne(x, p + 1 + |head| + |body|, CLOSE);
    BodyStart(x, p + 1 + |head|, atom.expression.alternatives);
    NoHead(atom);
    HeadSpelled(x, m, s, p + 1, atom);
    var inside := s.(position := p + 1 + |head|, captures := s.captures + Captured(atom));
    AlternativesPrinted(x, InnerOf(atom, m), inside, true, depth + 1, atom.expression.alternatives);
    var after := Disjunction(x, Inner(x, m, p + 1), inside, true, depth + 1).value;
    assert Group(x, m, s, p + 1, depth) == Some(after.(position := after.position + 1));
    assert GroupTree(x, m, s, p + 1, depth) == atom;
    assert P.GroupCount(atom) == Captured(atom) + P.AlternativesGroups(atom.expression.alternatives);
  }

  lemma NoHead(atom: P.Atom)
    ensures Captured(atom) == 1 ==> HeadText(atom) == []
  {
  }

  /** No body begins with a question mark. */
  lemma BodyStart(x: Context, p: nat, alternatives: seq<P.Sequence>)
    requires Spelled(x, p, AlternativesText(alternatives)) && At(x, p + |AlternativesText(alternatives)|) == CLOSE
    ensures At(x, p) != QUESTION
  {
    AlternativesStart(alternatives);
    SpelledFirst(x, p, AlternativesText(alternatives));
  }

  predicate Starts(unit: Unit) {
    unit in {BACKSLASH, 0x2e, 0x5e, 0x24, OPEN, OPEN_CLASS, 0x7c}
  }

  lemma AtomStart(atom: P.Atom)
    ensures AtomText(atom) != [] && Starts(AtomText(atom)[0]) && AtomText(atom)[0] != 0x7c
  {
  }

  lemma TermsStart(terms: seq<P.Term>)
    ensures TermsText(terms) != [] ==> Starts(TermsText(terms)[0]) && TermsText(terms)[0] != 0x7c
    ensures terms != [] ==> TermsText(terms) != []
  {
    if terms != [] {
      AtomStart(terms[0].atom);
    }
  }

  lemma AlternativesStart(alternatives: seq<P.Sequence>)
    ensures AlternativesText(alternatives) != [] ==> Starts(AlternativesText(alternatives)[0])
  {
    if alternatives != [] {
      TermsStart(alternatives[0].terms);
    }
  }

  lemma {:induction false} AlternativesPrinted(x: Context, m: P.Modifiers, s: State, inGroup: bool, depth: nat,
                                               alternatives: seq<P.Sequence>)
    requires x.unicode && !x.sets && alternatives != [] && PrintableAlternatives(x, m, alternatives, s.captures, depth)
    requires Spelled(x, s.position, AlternativesText(alternatives))
    requires At(x, s.position + |AlternativesText(alternatives)|) == if inGroup then CLOSE else -1
    ensures ReadsAlternatives(x, m, s, inGroup, depth, alternatives)
    decreases alternatives, 2
  {
    hide Spelled;
    hide TermsText;
    hide PrintableTerms;
    hide Sequence;
    hide SequenceTree;
    hide P.TermsGroups;
    var first := TermsText(alternatives[0].terms);
    if |alternatives| == 1 {
      TermsPrinted(x, m, s, inGroup, depth, alternatives[0].terms);
      assert alternatives == [alternatives[0]] && alternatives[1..] == [];
    } else {
      SpelledSplit(x, s.position, first + [0x7c], AlternativesText(alternatives[1..]));
      SpelledSplit(x, s.position, first, [0x7c]);
      SpelledOne(x, s.position + |first|, 0x7c);
      TermsPrinted(x, m, s, inGroup, depth, alternatives[0].terms);
      var next := NextAlternative(Sequence(x, m, s, inGroup, depth).value);
      AlternativesPrinted(x, m, next, inGroup, depth, alternatives[1..]);
      assert alternatives == [alternatives[0]] + alternatives[1..];
    }
  }

  lemma {:induction false} TermsPrinted(x: Context, m: P.Modifiers, s: State, inGroup: bool, depth: nat, terms: seq<P.Term>)
    requires x.unicode && !x.sets && PrintableTerms(x, m, terms, s.captures, depth)
    requires Spelled(x, s.position, TermsText(terms))
    requires var unit := At(x, s.position + |TermsText(terms)|); unit == -1 || unit == 0x7c || (inGroup && unit == CLOSE)
    ensures ReadsTerms(x, m, s, inGroup, depth, terms)
    decreases terms, 1
  {
    hide Spelled;
    hide Atom;
    hide AtomTree;
    hide AtomText;
    hide Quantifier;
    hide QuantifierText;
    hide Printable;
    hide P.GroupCount;
    hide BraceQuantifier;
    if terms != [] {
      var p, term := s.position, terms[0];
      SpelledSplit(x, p, TermText(term), TermsText(terms[1..]));
      var q := p + |TermText(term)|;
      TermsStart(terms[1..]);
      SpelledFirst(x, q, TermsText(terms[1..]));
      AtomStart(term.atom);
      TermPrinted(x, m, s, depth, term);
      var after := Atom(x, m, s, depth).value.0;
      var next := Quantified(s, after, q, term.quantifier);
      TermsPrinted(x, m, next, inGroup, depth, terms[1..]);
      assert terms == [term] + terms[1..];
    }
  }

  /** An atom and its quantifier. */
  lemma {:induction false} TermPrinted(x: Context, m: P.Modifiers, s: State, depth: nat, term: P.Term)
    requires x.unicode && !x.sets && PrintableTerm(x, m, term, s.captures, depth)
    requires Spelled(x, s.position, TermText(term))
    requires var unit := At(x, s.position + |TermText(term)|); unit == -1 || unit == CLOSE || Starts(unit)
    ensures ReadsAtom(x, m, s, depth, term.atom)
    ensures At(x, s.position) == AtomText(term.atom)[0]
    ensures var end := s.position + |AtomText(term.atom)|;
            Quantifier(x, end) == Some((s.position + |TermText(term)|, term.quantifier))
            && (term.quantifier.None? ==> At(x, end) != 0x7b)
    decreases term, 0
  {
    hide Spelled;
    hide AtomText;
    hide QuantifierText;
    hide ReadsAtom;
    hide Printable;
    var p, text := s.position, AtomText(term.atom);
    var quantifier := if term.quantifier.Some? then QuantifierText(term.quantifier.value) else [];
    SpelledSplit(x, p, text, quantifier);
    AtomStart(term.atom);
    SpelledFirst(x, p, text);
    if term.quantifier.Some? {
      QuantifierSpelled(x, p + |text|, term.quantifier.value);
    } else {
      assert text + [] == text;
    }
    AtomPrinted(x, m, s, depth, term.atom);
  }

  /** The tree of the text of a tree is that tree, with any case folding and Unicode tables. */
  lemma PrintedParses(x: Context, m: P.Modifiers, expression: P.Expression)
    requires x.unicode && !x.sets && x.units == AlternativesText(expression.alternatives)
    requires expression.alternatives != [] && PrintableAlternatives(x, m, expression.alternatives, 1, 0)
    ensures Parse(x, m).Some? && Tree(x, m) == expression
    ensures Parse(x, m).value.captures == 1 + P.AlternativesGroups(expression.alternatives) && Parse(x, m).value.names == []
  {
    hide AlternativesText;
    hide Disjunction;
    hide DisjunctionTree;
    AlternativesPrinted(x, m, START, false, 0, expression.alternatives);
  }
}
