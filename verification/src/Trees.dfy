/**
 * The tree of an accepted pattern, and what holds of it: groups are numbered in order, quantifiers and
 * literals are in range, and every reference names a capture, but for one family of forward references.
 */
module Trees {
  import opened Basics
  import opened Prepass
  import opened ClassContents
  import opened Syntax
  import opened PrepassAgrees
  import opened CompiledPrograms
  import P = Pattern

  // ---- Escapes; the cursor is after the backslash ----

  function DecimalTree(x: Context, first: int, p: nat): P.Atom
    requires 0x31 <= first <= 0x39
  {
    var reference := DecimalReference(x, Some(first - 0x30), p);
    if reference.Some? && reference.value < x.total then P.BackReference([reference.value])
    else P.Literal(if IsOctal(first) then LegacyOctalValue(x, first, p) else first)
  }

  function NamedTree(x: Context, s: State, p: nat): P.Atom {
    if At(x, p) == LESS && GroupName(x, p + 1, 0).Some? && References(x, s, NameAt(x, p + 1)) != [] then
      P.BackReference(References(x, s, NameAt(x, p + 1)))
    else P.Literal(0x6b)
  }

  ghost function EscapeTree(x: Context, m: P.Modifiers, s: State, p: nat): P.Atom
    requires Escape(x, m, s, p).Some?
  {
    var escaped := At(x, p);
    if escaped in {0x62, 0x42} then P.WordBoundary(escaped == 0x42)
    else if escaped in {0x73, 0x53} then P.Space(escaped == 0x53)
    else if escaped in {0x64, 0x44, 0x77, 0x57} then
      P.Class(ClassOf(Plain(Folded(x, m.ignoreCase, CharactersOf(EscapedRanges(escaped)))), escaped in {0x44, 0x57}))
    else if escaped in {0x70, 0x50} && x.unicode then
      P.Class(ClassOf(PropertyEscape(x, m.ignoreCase, escaped == 0x50, p + 1).value.1, false))
    else if escaped == 0x6b then NamedTree(x, s, p + 1)
    else if 0x31 <= escaped <= 0x39 then DecimalTree(x, escaped, p + 1)
    else if escaped == 0x30 then P.Literal(if x.unicode then 0 else LegacyOctalValue(x, escaped, p + 1))
    else if escaped in {0x66, 0x6e, 0x72, 0x74, 0x76} then P.Literal(ControlLetter(escaped))
    else if escaped == 0x63 then P.Literal(ControlEscapeValue(x, p + 1, false))
    else if escaped == 0x78 then P.Literal(HexEscapeValue(x, p + 1))
    else if escaped == 0x75 then P.Literal(UnicodeEscapeValue(x, p + 1))
    else if IsSyntaxCharacter(escaped) || escaped == 0x2f then P.Literal(escaped)
    else P.Literal(FinishedValue(x, escaped, p + 1))
  }

  // ---- Trees ----

  /** A group around a body; `p` is after its opening parenthesis. */
  function Enclosed(x: Context, m: P.Modifiers, capture: nat, p: nat, body: P.Expression): P.Atom {
    if At(x, p) != QUESTION then P.Group(Some(capture), None, body)
    else
      var kind := At(x, p + 1);
      if kind == 0x3a then P.Group(None, None, body)
      else if kind in {0x3d, 0x21} then P.LookAround(kind == 0x21, false, body)
      else if kind == LESS then
        if At(x, p + 2) in {0x3d, 0x21} then P.LookAround(At(x, p + 2) == 0x21, true, body)
        else P.Group(Some(capture), None, body)
      else P.Group(None, Some(Inner(x, m, p)), body)
  }

  ghost function AtomTree(x: Context, m: P.Modifiers, s: State, depth: nat): P.Atom
    requires Atom(x, m, s, depth).Some?
    decreases |x.units| - s.position, 0
  {
    var p := s.position;
    var unit := At(x, p);
    if unit == 0x2e then P.Dot
    else if unit == 0x5e then P.LineStart
    else if unit == 0x24 then P.LineEnd
    else if unit == OPEN then GroupTree(x, m, s, p + 1, depth)
    else if unit == OPEN_CLASS then P.Class(ClassOf(CharacterClass(x, m.ignoreCase, p + 1, depth).value.1, Inverted(x, p + 1)))
    else if unit == BACKSLASH then EscapeTree(x, m, s, p + 1)
    else P.Literal(FinishedValue(x, unit, p + 1))
  }

  ghost function GroupTree(x: Context, m: P.Modifiers, s: State, p: nat, depth: nat): P.Atom
    requires Group(x, m, s, p, depth).Some?
    decreases |x.units| - p, 4
  {
    var head := GroupHead(x, s, p).value;
    Enclosed(x, m, s.captures, p, P.Expression(DisjunctionTree(x, Inner(x, m, p), head, true, depth + 1)))
  }

  ghost function DisjunctionTree(x: Context, m: P.Modifiers, s: State, inGroup: bool, depth: nat): (r: seq<P.Sequence>)
    requires Disjunction(x, m, s, inGroup, depth).Some?
    ensures r != []
    decreases |x.units| - s.position, 3
  {
    var after := Sequence(x, m, s, inGroup, depth).value;
    var first := [P.Sequence(SequenceTree(x, m, s, inGroup, depth))];
    if At(x, after.position) != 0x7c then first
    else first + DisjunctionTree(x, m, NextAlternative(after), inGroup, depth)
  }

  ghost function SequenceTree(x: Context, m: P.Modifiers, s: State, inGroup: bool, depth: nat): seq<P.Term>
    requires Sequence(x, m, s, inGroup, depth).Some?
    decreases |x.units| - s.position, 2
  {
    var unit := At(x, s.position);
    if unit == -1 || unit == 0x7c || (inGroup && unit == CLOSE) then []
    else
      var atom := AtomTree(x, m, s, depth);
      var (after, quantifiable) := Atom(x, m, s, depth).value;
      if !quantifiable && At(x, after.position) == 0x7b then
        [P.Term(atom, None)] + SequenceTree(x, m, after, inGroup, depth)
      else
        var (q, quantifier) := Quantifier(x, after.position).value;
        [P.Term(atom, quantifier)] + SequenceTree(x, m, Quantified(s, after, q, quantifier), inGroup, depth)
  }

  ghost function Tree(x: Context, m: P.Modifiers): P.Expression
    requires Parse(x, m).Some?
  {
    P.Expression(DisjunctionTree(x, m, START, false, 0))
  }

  // ---- What holds of the tree ----

  /** For each of the names the rough scan of the pattern finds only captures that exist. */
  predicate InRange(x: Context, names: set<Name>, total: nat) {
    forall name :: name in names ==> P.Below(Matching(x, name, 0, false, 1), total)
  }

  /** A reference is to captures that exist, or it is what the rough scan finds for some name. */
  ghost predicate Known(x: Context, reference: seq<nat>, total: nat) {
    P.Below(reference, total) || exists name :: reference == Matching(x, name, 0, false, 1)
  }

  predicate Numbered(s: State) {
    forall i :: 0 <= i < |s.names| ==> s.names[i].capture < s.captures
  }

  /** What matters about a part of a tree: its groups, its form without and with its references, and these. */
  datatype Part = Part(groups: nat, arranged: bool, strict: bool, references: set<seq<nat>>)

  function AtomPart(atom: P.Atom, first: nat, total: nat): Part {
    Part(P.GroupCount(atom), P.WellFormed(atom, first, total, false), P.WellFormed(atom, first, total, true), P.References(atom))
  }

  function TermPart(term: P.Term, first: nat, total: nat): Part {
    Part(P.TermGroups(term), P.WellFormedTerm(term, first, total, false), P.WellFormedTerm(term, first, total, true),
         P.TermReferences(term))
  }

  function TermsPart(terms: seq<P.Term>, first: nat, total: nat): Part {
    Part(P.TermsGroups(terms), P.WellFormedTerms(terms, first, total, false), P.WellFormedTerms(terms, first, total, true),
         P.TermsReferences(terms))
  }

  function AlternativesPart(alternatives: seq<P.Sequence>, first: nat, total: nat): Part {
    Part(P.AlternativesGroups(alternatives), P.WellFormedAlternatives(alternatives, first, total, false),
         P.WellFormedAlternatives(alternatives, first, total, true), P.AlternativesReferences(alternatives))
  }

  function Joined(a: Part, b: Part): Part {
    Part(a.groups + b.groups, a.arranged && b.arranged, a.strict && b.strict, a.references + b.references)
  }

  /**
   From one state to another the parser has passed a part of the tree. The part is well formed, and if all
   emitted references so far are in range they still are exactly when those of the part are.
   */
  ghost predicate Passed(x: Context, s: State, s': State, part: Part, total: nat) {
    && s'.captures == s.captures + part.groups
    && s.forward <= s'.forward
    && (Numbered(s) ==> Numbered(s'))
    && (Numbered(s) && s'.captures <= total == x.total ==>
          && part.arranged
          && (forall reference :: reference in part.references ==> Known(x, reference, total))
          && (InRange(x, s.forward, total) ==> (part.strict <==> InRange(x, s'.forward, total))))
  }

  /** A part without groups and forward references. */
  lemma PassedOver(x: Context, s: State, p: nat, part: Part, total: nat)
    requires part.groups == 0
    requires total == x.total ==> part.arranged && part.strict && forall r :: r in part.references ==> P.Below(r, total)
    ensures Passed(x, s, s.(position := p), part, total)
  {
    hide Matching;
  }

  /** The states differ at most in cursor and scope. */
  predicate Alike(a: State, b: State) {
    a.captures == b.captures && a.names == b.names && a.forward == b.forward
  }

  lemma PassedThen(x: Context, s: State, a: State, a': State, b: State, left: Part, right: Part, total: nat)
    requires Passed(x, s, a, left, total) && Alike(a, a') && Passed(x, a', b, right, total)
    ensures Passed(x, s, b, Joined(left, right), total)
    ensures a'.captures == s.captures + left.groups
  {
    hide Matching;
  }

  lemma {:induction false} ResolveBelow(names: seq<Entry>, name: Name, captures: nat)
    requires forall i :: 0 <= i < |names| ==> names[i].capture < captures
    ensures P.Below(Resolve(names, name), captures)
    decreases |names|
  {
    if names != [] {
      ResolveBelow(names[1..], name, captures);
    }
  }

  lemma NamedPassed(x: Context, s: State, p: nat, total: nat)
    ensures var r := NamedReference(x, s, p);
            r.Some? ==> Passed(x, s, r.value, AtomPart(NamedTree(x, s, p), s.captures, total), total)
  {
    hide Matching;
    hide GroupName;
    hide NameFrom;
    var r := NamedReference(x, s, p);
    if r.Some? {
      var tree := NamedTree(x, s, p);
      if tree.BackReference? {
        var name := NameAt(x, p + 1);
        if Numbered(s) {
          ResolveBelow(s.names, name, s.captures);
        }
        if Resolve(s.names, name) == [] {
          assert tree.captures == Matching(x, name, 0, false, 1);
          assert Known(x, tree.captures, total);
          assert InRange(x, s.forward, total) && P.Below(Matching(x, name, 0, false, 1), total) ==>
                 InRange(x, s.forward + {name}, total);
          assert name in s.forward + {name};
        } else {
          assert tree.captures == Resolve(s.names, name);
        }
      } else {
        PassedOver(x, s, p, AtomPart(tree, s.captures, total), total);
      }
    }
  }

  lemma EscapePassed(x: Context, m: P.Modifiers, s: State, p: nat, total: nat)
    ensures var r := Escape(x, m, s, p);
            r.Some? ==> Passed(x, s, r.value.0, AtomPart(EscapeTree(x, m, s, p), s.captures, total), total)
  {
    hide NamedReference;
    hide NamedTree;
    hide Passed;
    hide HexEscape;
    hide UnicodeEscape;
    hide PropertyEscape;
    hide ControlEscape;
    hide LegacyOctal;
    hide DecimalReference;
    hide DigitsEnd;
    hide UnicodeEscapeValue;
    hide HexEscapeValue;
    hide LegacyOctalValue;
    hide FinishedValue;
    hide FinishCodePoint;
    var r := Escape(x, m, s, p);
    if r.Some? {
      if At(x, p) == 0x6b {
        NamedPassed(x, s, p + 1, total);
      } else {
        PassedOver(x, s, r.value.0.position, AtomPart(EscapeTree(x, m, s, p), s.captures, total), total);
        assert r.value.0 == s.(position := r.value.0.position);
      }
    }
  }

  lemma {:induction false} AtomPassed(x: Context, m: P.Modifiers, s: State, depth: nat, total: nat)
    ensures var r := Atom(x, m, s, depth);
            r.Some? ==> Passed(x, s, r.value.0, AtomPart(AtomTree(x, m, s, depth), s.captures, total), total)
    decreases |x.units| - s.position, 0
  {
    hide Passed;
    hide Escape;
    hide EscapeTree;
    hide Group;
    hide GroupTree;
    hide CharacterClass;
    hide FinishCodePoint;
    hide FinishedValue;
    var r := Atom(x, m, s, depth);
    if r.Some? {
      if At(x, s.position) == OPEN {
        GroupPassed(x, m, s, s.position + 1, depth, total);
      } else if At(x, s.position) == BACKSLASH {
        EscapePassed(x, m, s, s.position + 1, total);
      } else {
        ClassValid(x, m.ignoreCase, s.position + 1, depth);
        PassedOver(x, s, r.value.0.position, AtomPart(AtomTree(x, m, s, depth), s.captures, total), total);
        assert r.value.0 == s.(position := r.value.0.position);
      }
    }
  }

  lemma ClassValid(x: Context, ignoreCase: bool, p: nat, depth: nat)
    ensures var r := CharacterClass(x, ignoreCase, p, depth);
            r.Some? ==> P.ValidClass(ClassOf(r.value.1, Inverted(x, p)))
  {
    hide ClassItems;
    hide SetClass;
    var r := CharacterClass(x, ignoreCase, p, depth);
    if r.Some? {
      ClassOfValid(r.value.1, Inverted(x, p));
    }
  }

  lemma HeadPassed(x: Context, s: State, p: nat)
    ensures var r := GroupHead(x, s, p);
            r.Some? ==>
              && r.value.forward == s.forward
              && (Numbered(s) ==> Numbered(r.value))
              && s.captures <= r.value.captures <= s.captures + 1
  {
    hide GroupName;
    hide NameFrom;
    hide ModifierHead;
  }

  /** A group is well formed when its body is, numbered from the first number after its own. */
  lemma EnclosedPassed(x: Context, m: P.Modifiers, s: State, p: nat, body: P.Expression, total: nat)
    requires GroupHead(x, s, p).Some? && body.alternatives != []
    ensures var head, tree := GroupHead(x, s, p).value, Enclosed(x, m, s.captures, p, body);
            var inside, whole := AlternativesPart(body.alternatives, head.captures, total), AtomPart(tree, s.captures, total);
            && whole.groups == head.captures - s.captures + inside.groups
            && whole.references == inside.references
            && (head.captures <= total ==> (whole.arranged <==> inside.arranged) && (whole.strict <==> inside.strict))
  {
    hide GroupName;
    hide NameFrom;
    hide ModifierHead;
    hide HeadModifiers;
    hide P.AlternativesGroups;
    hide P.WellFormedAlternatives;
    hide P.AlternativesReferences;
  }

  lemma {:induction false} GroupPassed(x: Context, m: P.Modifiers, s: State, p: nat, depth: nat, total: nat)
    ensures var r := Group(x, m, s, p, depth);
            r.Some? ==> Passed(x, s, r.value, AtomPart(GroupTree(x, m, s, p, depth), s.captures, total), total)
    decreases |x.units| - p, 4
  {
    hide GroupHead;
    hide Disjunction;
    hide DisjunctionTree;
    hide Inner;
    hide Enclosed;
    hide InRange;
    hide Known;
    hide AtomPart;
    hide AlternativesPart;
    var r := Group(x, m, s, p, depth);
    if r.Some? {
      var head, inner := GroupHead(x, s, p).value, Inner(x, m, p);
      var body := P.Expression(DisjunctionTree(x, inner, head, true, depth + 1));
      HeadPassed(x, s, p);
      DisjunctionPassed(x, inner, head, true, depth + 1, total);
      EnclosedPassed(x, m, s, p, body, total);
    }
  }

  lemma OneAlternative(alternatives: seq<P.Sequence>, first: nat, total: nat)
    requires |alternatives| == 1
    ensures AlternativesPart(alternatives, first, total) == TermsPart(alternatives[0].terms, first, total)
  {
    var terms := alternatives[0].terms;
    assert alternatives[1..] == [];
    assert P.AlternativesGroups(alternatives) == P.TermsGroups(terms);
    assert P.AlternativesReferences(alternatives) == P.TermsReferences(terms) + {};
    assert P.WellFormedAlternatives(alternatives, first, total, false) <==> P.WellFormedTerms(terms, first, total, false);
    assert P.WellFormedAlternatives(alternatives, first, total, true) <==> P.WellFormedTerms(terms, first, total, true);
  }

  lemma {:induction false} DisjunctionPassed(x: Context, m: P.Modifiers, s: State, inGroup: bool, depth: nat, total: nat)
    ensures var r := Disjunction(x, m, s, inGroup, depth);
            r.Some? ==>
              Passed(x, s, r.value, AlternativesPart(DisjunctionTree(x, m, s, inGroup, depth), s.captures, total), total)
    decreases |x.units| - s.position, 3
  {
    hide Sequence;
    hide SequenceTree;
    hide Passed;
    hide P.TermsGroups;
    hide P.WellFormedTerms;
    hide P.TermsReferences;
    var r := Disjunction(x, m, s, inGroup, depth);
    if r.Some? {
      var after, tree := Sequence(x, m, s, inGroup, depth).value, DisjunctionTree(x, m, s, inGroup, depth);
      SequencePassed(x, m, s, inGroup, depth, total);
      var first := TermsPart(tree[0].terms, s.captures, total);
      if At(x, after.position) == 0x7c {
        var next := NextAlternative(after);
        DisjunctionPassed(x, m, next, inGroup, depth, total);
        assert tree[1..] == DisjunctionTree(x, m, next, inGroup, depth);
        PassedThen(x, s, after, next, r.value, first, AlternativesPart(tree[1..], next.captures, total), total);
      } else {
        OneAlternative(tree, s.captures, total);
      }
    }
  }

  /** A quantifier behind an atom; the references of an atom that is dropped are not emitted. */
  lemma QuantifiedPassed(x: Context, s: State, after: State, p: nat, term: P.Term, total: nat)
    requires Passed(x, s, after, AtomPart(term.atom, s.captures, total), total)
    requires term.quantifier.Some? ==> P.ValidQuantifier(term.quantifier.value)
    ensures Passed(x, s, Quantified(s, after, p, term.quantifier), TermPart(term, s.captures, total), total)
  {
    hide Matching;
    hide P.WellFormed;
    hide P.References;
    hide P.GroupCount;
  }

  lemma {:induction false} SequencePassed(x: Context, m: P.Modifiers, s: State, inGroup: bool, depth: nat, total: nat)
    ensures var r := Sequence(x, m, s, inGroup, depth);
            r.Some? ==> Passed(x, s, r.value, TermsPart(SequenceTree(x, m, s, inGroup, depth), s.captures, total), total)
    decreases |x.units| - s.position, 2
  {
    hide Atom;
    hide AtomTree;
    hide Quantifier;
    hide BraceQuantifier;
    hide Passed;
    hide AtomPart;
    hide P.TermGroups;
    hide P.WellFormedTerm;
    hide P.TermReferences;
    var r, unit := Sequence(x, m, s, inGroup, depth), At(x, s.position);
    if r.Some? {
      if unit == -1 || unit == 0x7c || (inGroup && unit == CLOSE) {
        PassedOver(x, s, s.position, TermsPart([], s.captures, total), total);
      } else {
        var tree := SequenceTree(x, m, s, inGroup, depth);
        var (after, quantifiable) := Atom(x, m, s, depth).value;
        AtomPassed(x, m, s, depth, total);
        QuantifierValid(x, after.position);
        var bare := !quantifiable && At(x, after.position) == 0x7b;
        var q := if bare then after.position else Quantifier(x, after.position).value.0;
        var next := Quantified(s, after, q, tree[0].quantifier);
        QuantifiedPassed(x, s, after, q, tree[0], total);
        SequencePassed(x, m, next, inGroup, depth, total);
        assert tree[1..] == SequenceTree(x, m, next, inGroup, depth);
        PassedThen(x, s, next, next, r.value, TermPart(tree[0], s.captures, total), TermsPart(tree[1..], next.captures, total), total);
      }
    }
  }

  lemma QuantifierValid(x: Context, p: nat)
    ensures var r := Quantifier(x, p); r.Some? && r.value.1.Some? ==> P.ValidQuantifier(r.value.1.value)
  {
    hide DigitsEnd;
    hide Clamped;
    hide Greediness;
    ClampedBound(x, 0, p + 1);
    ClampedBound(x, 0, DigitsEnd(x, p + 1) + 1);
  }

  lemma {:induction false} ClampedBound(x: Context, value: nat, p: nat)
    requires value <= P.INFINITE_REPETITION
    ensures Clamped(x, value, p) <= P.INFINITE_REPETITION
    decreases |x.units| - p
  {
    if IsDigit(At(x, p)) {
      var next := value * 10 + (At(x, p) - 0x30);
      ClampedBound(x, if next < P.INFINITE_REPETITION then next else P.INFINITE_REPETITION, p + 1);
    }
  }

  /**
   In the tree of every accepted pattern the groups are numbered in order up to the number the prepass announced
   and all nodes are well formed. A reference is to captures that exist, unless the rough scan found it.
   */
  lemma AcceptedIsArranged(x: Context, m: P.Modifiers)
    requires Parse(x, m).Some? && x.total == Scan(x.units, 0, false, Summary(1, false)).captures
    ensures Parse(x, m).value.captures == x.total && ArrangedPattern(Tree(x, m), x.total)
    ensures forall reference :: reference in P.AlternativesReferences(Tree(x, m).alternatives) ==> Known(x, reference, x.total)
  {
    hide Scan;
    hide Disjunction;
    hide DisjunctionTree;
    hide Known;
    PrepassIsExact(x, m);
    DisjunctionPassed(x, m, START, false, 0, x.total);
  }

  /** The tree is valid exactly when no emitted reference relies on a capture that only the rough scan believes in. */
  lemma AcceptedIsValid(x: Context, m: P.Modifiers)
    requires Parse(x, m).Some? && x.total == Scan(x.units, 0, false, Summary(1, false)).captures
    ensures var s := Parse(x, m).value; ValidPattern(Tree(x, m), s.captures) <==> InRange(x, s.forward, s.captures)
  {
    hide Scan;
    hide Disjunction;
    hide DisjunctionTree;
    hide Known;
    AcceptedIsArranged(x, m);
    DisjunctionPassed(x, m, START, false, 0, x.total);
  }

  // ---- Without set notation there are no strings ----

  lemma ClassHasNoStrings(x: Context, ignoreCase: bool, p: nat, depth: nat)
    requires !x.sets
    ensures var r := CharacterClass(x, ignoreCase, p, depth); r.Some? ==> r.value.1.strings == []
  {
    hide ClassItems;
  }

  lemma EscapeHasNoStrings(x: Context, m: P.Modifiers, s: State, p: nat, backward: bool)
    requires Escape(x, m, s, p).Some? && !x.sets
    ensures P.NoBackwardStrings(EscapeTree(x, m, s, p), backward)
  {
    hide NamedReference;
    hide HexEscape;
    hide UnicodeEscape;
    hide PropertyWords;
    hide ControlEscape;
    hide LegacyOctal;
    hide DecimalReference;
    hide DigitsEnd;
    hide UnicodeEscapeValue;
    hide HexEscapeValue;
    hide LegacyOctalValue;
    hide FinishedValue;
    hide FinishCodePoint;
    hide Ranges;
  }

  lemma {:induction false} AtomHasNoStrings(x: Context, m: P.Modifiers, s: State, depth: nat, backward: bool)
    requires Atom(x, m, s, depth).Some? && !x.sets
    ensures P.NoBackwardStrings(AtomTree(x, m, s, depth), backward)
    decreases |x.units| - s.position, 0
  {
    hide Escape;
    hide EscapeTree;
    hide Group;
    hide GroupTree;
    hide CharacterClass;
    hide FinishCodePoint;
    hide FinishedValue;
    hide Ranges;
    var p := s.position;
    if At(x, p) == OPEN {
      GroupHasNoStrings(x, m, s, p + 1, depth, backward);
    } else if At(x, p) == BACKSLASH {
      EscapeHasNoStrings(x, m, s, p + 1, backward);
    } else {
      ClassHasNoStrings(x, m.ignoreCase, p + 1, depth);
    }
  }

  lemma {:induction false} GroupHasNoStrings(x: Context, m: P.Modifiers, s: State, p: nat, depth: nat, backward: bool)
    requires Group(x, m, s, p, depth).Some? && !x.sets
    ensures P.NoBackwardStrings(GroupTree(x, m, s, p, depth), backward)
    decreases |x.units| - p, 4
  {
    hide GroupHead;
    hide Disjunction;
    hide DisjunctionTree;
    hide Inner;
    hide P.NoBackwardStringsIn;
    var head, inner := GroupHead(x, s, p).value, Inner(x, m, p);
    DisjunctionHasNoStrings(x, inner, head, true, depth + 1, false);
    DisjunctionHasNoStrings(x, inner, head, true, depth + 1, true);
  }

  lemma {:induction false} DisjunctionHasNoStrings(x: Context, m: P.Modifiers, s: State, inGroup: bool, depth: nat, backward: bool)
    requires Disjunction(x, m, s, inGroup, depth).Some? && !x.sets
    ensures P.NoBackwardStringsIn(DisjunctionTree(x, m, s, inGroup, depth), backward)
    decreases |x.units| - s.position, 3
  {
    hide Sequence;
    hide SequenceTree;
    hide P.NoBackwardStringsInTerms;
    var after, tree := Sequence(x, m, s, inGroup, depth).value, DisjunctionTree(x, m, s, inGroup, depth);
    SequenceHasNoStrings(x, m, s, inGroup, depth, backward);
    if At(x, after.position) == 0x7c {
      DisjunctionHasNoStrings(x, m, NextAlternative(after), inGroup, depth, backward);
      assert tree[1..] == DisjunctionTree(x, m, NextAlternative(after), inGroup, depth);
    }
  }

  lemma {:induction false} SequenceHasNoStrings(x: Context, m: P.Modifiers, s: State, inGroup: bool, depth: nat, backward: bool)
    requires Sequence(x, m, s, inGroup, depth).Some? && !x.sets
    ensures P.NoBackwardStringsInTerms(SequenceTree(x, m, s, inGroup, depth), backward)
    decreases |x.units| - s.position, 2
  {
    hide Atom;
    hide AtomTree;
    hide Quantifier;
    hide BraceQuantifier;
    hide P.NoBackwardStrings;
    var unit, tree := At(x, s.position), SequenceTree(x, m, s, inGroup, depth);
    if !(unit == -1 || unit == 0x7c || (inGroup && unit == CLOSE)) {
      var (after, quantifiable) := Atom(x, m, s, depth).value;
      AtomHasNoStrings(x, m, s, depth, backward);
      var next := if !quantifiable && At(x, after.position) == 0x7b then after
                  else var (p, quantifier) := Quantifier(x, after.position).value; Quantified(s, after, p, quantifier);
      SequenceHasNoStrings(x, m, next, inGroup, depth, backward);
      assert tree[1..] == SequenceTree(x, m, next, inGroup, depth);
    }
  }
}
