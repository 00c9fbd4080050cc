/** The registers that are counted for a pattern are exactly those that its code uses. */
module RegisterUse {
  import opened Basics
  import opened Pattern
  import opened Machine
  import opened Code

  predicate Names(instruction: Instruction, register: nat) {
    match instruction
    case SetRegister(r, _) => r == register
    case Loop(r, _) => r == register
    case SavePosition(r) => r == register
    case CheckAdvance(r) => r == register
    case _ => false
  }

  predicate Uses(code: seq<Instruction>, register: nat) {
    exists i :: 0 <= i < |code| && Names(code[i], register)
  }

  lemma UsesPart(a: seq<Instruction>, code: seq<Instruction>, b: seq<Instruction>, register: nat)
    ensures Uses(a + code + b, register) <==> Uses(a, register) || Uses(code, register) || Uses(b, register)
  {
    var all := a + code + b;
    if i :| 0 <= i < |all| && Names(all[i], register) {
      assert all[i] == if i < |a| then a[i] else if i < |a| + |code| then code[i - |a|] else b[i - |a| - |code|];
    }
    if i :| 0 <= i < |a| && Names(a[i], register) {
      assert all[i] == a[i];
    }
    if i :| 0 <= i < |code| && Names(code[i], register) {
      assert all[|a| + i] == code[i];
    }
    if i :| 0 <= i < |b| && Names(b[i], register) {
      assert all[|a| + |code| + i] == b[i];
    }
  }

  lemma UsesOne(instruction: Instruction, register: nat)
    ensures Uses([instruction], register) <==> Names(instruction, register)
  {
    assert [instruction][0] == instruction;
  }

  lemma UsesNone(register: nat)
    ensures !Uses([], register)
  {
  }

  /** The register is among those counted from `depth` on. */
  predicate Counts(depth: nat, count: nat, register: nat) {
    depth <= register < depth + count
  }

  // ---- Leaves use none ----

  ghost predicate NoRegister(code: seq<Instruction>) {
    forall i :: 0 <= i < |code| ==> forall r: nat :: !Names(code[i], r)
  }

  lemma NoneUsed(code: seq<Instruction>, register: nat)
    requires NoRegister(code)
    ensures !Uses(code, register)
  {
  }

  lemma {:induction false} StringUsesNone(characters: seq<nat>, ignoreCase: bool)
    ensures NoRegister(StringCode(characters, ignoreCase))
    decreases |characters|
  {
    if characters != [] {
      StringUsesNone(characters[1..], ignoreCase);
    }
  }

  lemma {:induction false} StringsUseNone(strings: seq<seq<nat>>, ignoreCase: bool)
    ensures forall i :: 0 <= i < |strings| ==> NoRegister(StringParts(strings, ignoreCase)[i])
    decreases |strings|
  {
    hide NoRegister;
    if strings != [] {
      StringUsesNone(strings[0], ignoreCase);
      StringsUseNone(strings[1..], ignoreCase);
      var parts, rest := StringParts(strings, ignoreCase), StringParts(strings[1..], ignoreCase);
      assert forall i :: 1 <= i < |strings| ==> parts[i] == rest[i - 1];
    }
  }

  lemma {:induction false} ChainUsesNone(parts: seq<seq<Instruction>>, base: nat, end: nat)
    requires forall i :: 0 <= i < |parts| ==> NoRegister(parts[i])
    ensures NoRegister(Chain(parts, base, end))
    decreases |parts|
  {
    if |parts| > 1 {
      ChainUsesNone(parts[1..], base + |parts[0]| + 2, end);
    }
  }

  lemma PartsUseNone(class_: CharacterClass, ignoreCase: bool)
    ensures var parts := ClassParts(class_, ignoreCase); forall i :: 0 <= i < |parts| ==> NoRegister(parts[i])
  {
    hide StringParts;
    var strings := StringParts(LongestFirst(class_.strings), ignoreCase);
    StringsUseNone(LongestFirst(class_.strings), ignoreCase);
    var parts := ClassParts(class_, ignoreCase);
    forall i | 0 <= i < |parts|
      ensures NoRegister(parts[i])
    {
      if i < |strings| {
        assert parts[i] == strings[i];
      } else {
        assert parts[i] == [] || parts[i] == [Range(class_.ranges, class_.inverted, ignoreCase)];
      }
    }
  }

  lemma NoneJoin(a: seq<Instruction>, b: seq<Instruction>, c: seq<Instruction>)
    requires NoRegister(a) && NoRegister(b) && NoRegister(c)
    ensures NoRegister(a + b + c)
  {
  }

  lemma ClassUsesNone(mods: Modifiers, class_: CharacterClass, backward: bool, base: nat)
    ensures NoRegister(CodeClass(mods, class_, backward, base))
  {
    hide ClassParts;
    hide Chain;
    hide ChainLength;
    var parts := ClassParts(class_, mods.ignoreCase);
    PartsUseNone(class_, mods.ignoreCase);
    var start := base + |Guard(backward)|;
    ChainUsesNone(parts, start, start + ChainLength(parts));
    NoneJoin(Guard(backward), Chain(parts, start, start + ChainLength(parts)), Guard(backward));
  }

  lemma LeafUsesNone(canonicalize: Canonicalize, mods: Modifiers, atom: Atom, backward: bool, base: nat, depth: nat)
    requires !atom.Group? && !atom.LookAround?
    ensures NoRegister(CodeAtom(canonicalize, mods, atom, backward, base, depth))
  {
    hide CodeClass;
    if atom.Class? {
      ClassUsesNone(mods, atom.class_, backward, base);
    }
  }

  // ---- Nodes ----

  lemma {:induction false} AtomUses(canonicalize: Canonicalize, mods: Modifiers, atom: Atom, backward: bool, base: nat, depth: nat,
                                    register: nat)
    ensures Uses(CodeAtom(canonicalize, mods, atom, backward, base, depth), register) <==>
      Counts(depth, AtomRegisters(atom), register)
    decreases atom, 0
  {
    hide Uses;
    hide CodeAlternatives;
    hide AlternativesLength;
    hide CodeAlternativesTo;
    hide CodeClass;
    match atom
    case LookAround(negative, inner, expression) =>
      var body := CodeAlternatives(canonicalize, mods, expression.alternatives, inner, base + 1, depth);
      AlternativesUse(canonicalize, mods, expression.alternatives, inner, base + 1, depth,
                      base + 1 + AlternativesLength(canonicalize, mods, expression.alternatives, inner, base + 1, depth), register);
      CodeTo(canonicalize, mods, expression.alternatives, inner, base + 1, depth);
      UsesPart([LookAhead(negative, base + |body| + 2)], body, [LookAheadEnd(negative)], register);
      UsesOne(LookAhead(negative, base + |body| + 2), register);
      UsesOne(LookAheadEnd(negative), register);
    case Group(capture, modifiers, expression) =>
      var from := if capture.Some? then base + 1 else base;
      var within := Inner(mods, modifiers);
      AlternativesUse(canonicalize, within, expression.alternatives, backward, from, depth,
                      from + AlternativesLength(canonicalize, within, expression.alternatives, backward, from, depth), register);
      CodeTo(canonicalize, within, expression.alternatives, backward, from, depth);
      if capture.Some? {
        var body := CodeAlternatives(canonicalize, within, expression.alternatives, backward, from, depth);
        UsesPart([OpenGroup(capture.value, backward)], body, [CloseGroup(capture.value, backward)], register);
        UsesOne(OpenGroup(capture.value, backward), register);
        UsesOne(CloseGroup(capture.value, backward), register);
      }
    case _ =>
      LeafUsesNone(canonicalize, mods, atom, backward, base, depth);
      NoneUsed(CodeAtom(canonicalize, mods, atom, backward, base, depth), register);
  }

  lemma CodeTo(canonicalize: Canonicalize, mods: Modifiers, alternatives: seq<Sequence>, backward: bool, base: nat, depth: nat)
    ensures CodeAlternatives(canonicalize, mods, alternatives, backward, base, depth) ==
      CodeAlternativesTo(canonicalize, mods, alternatives, backward, base, depth,
                         base + AlternativesLength(canonicalize, mods, alternatives, backward, base, depth))
  {
    hide CodeAlternativesTo;
    hide AlternativesLength;
  }

  lemma {:induction false} AlternativesUse(canonicalize: Canonicalize, mods: Modifiers, alternatives: seq<Sequence>, backward: bool,
                                           base: nat, depth: nat, end: nat, register: nat)
    ensures Uses(CodeAlternativesTo(canonicalize, mods, alternatives, backward, base, depth, end), register) <==>
      Counts(depth, AlternativesRegisters(alternatives), register)
    decreases alternatives, 1
  {
    hide Uses;
    hide CodeTerms;
    hide TermsRegisters;
    if alternatives == [] {
      UsesNone(register);
    } else if |alternatives| == 1 {
      TermsUse(canonicalize, mods, alternatives[0].terms, backward, base, depth, register);
      assert AlternativesRegisters(alternatives[1..]) == 0;
    } else {
      TermsUse(canonicalize, mods, alternatives[0].terms, backward, base + 1, depth, register);
      var first := CodeTerms(canonicalize, mods, alternatives[0].terms, backward, base + 1, depth);
      var next := base + |first| + 2;
      AlternativesUse(canonicalize, mods, alternatives[1..], backward, next, depth, end, register);
      var rest := CodeAlternativesTo(canonicalize, mods, alternatives[1..], backward, next, depth, end);
      UsesPart([Split(base + 1, next)], first, [Jump(end)], register);
      UsesPart([Split(base + 1, next)] + first + [Jump(end)], rest, [], register);
      assert [Split(base + 1, next)] + first + [Jump(end)] + rest + [] == [Split(base + 1, next)] + first + [Jump(end)] + rest;
      UsesOne(Split(base + 1, next), register);
      UsesOne(Jump(end), register);
      UsesNone(register);
    }
  }

  lemma {:induction false} TermsUse(canonicalize: Canonicalize, mods: Modifiers, terms: seq<Term>, backward: bool, base: nat,
                                    depth: nat, register: nat)
    ensures Uses(CodeTerms(canonicalize, mods, terms, backward, base, depth), register) <==>
      Counts(depth, TermsRegisters(terms), register)
    decreases terms, 0
  {
    hide Uses;
    hide CodeTerm;
    hide TermRegisters;
    UsesNone(register);
    if terms != [] {
      var first, rest := First(terms, backward), Rest(terms, backward);
      var code := CodeTerm(canonicalize, mods, first, backward, base, depth);
      var others := CodeTerms(canonicalize, mods, rest, backward, base + |code|, depth);
      assert first in terms;
      TermUses(canonicalize, mods, first, backward, base, depth, register);
      TermsUse(canonicalize, mods, rest, backward, base + |code|, depth, register);
      RegistersFirstRest(terms, backward);
      UsesPart([], code, others, register);
      assert [] + code + others == code + others;
    }
  }

  lemma {:induction false} TermUses(canonicalize: Canonicalize, mods: Modifiers, term: Term, backward: bool, base: nat, depth: nat,
                                    register: nat)
    ensures Uses(CodeTerm(canonicalize, mods, term, backward, base, depth), register) <==>
      Counts(depth, TermRegisters(term), register)
    decreases term, 0
  {
    hide Uses;
    hide CodeAtom;
    hide AtomRegisters;
    hide CodeRequired;
    hide CodeOptional;
    hide CaptureRange;
    if term.quantifier.None? {
      AtomUses(canonicalize, mods, term.atom, backward, base, depth, register);
    } else if term.quantifier.value.maximum == Some(0) {
      ResetUsesNone(term.atom, register);
    } else {
      var q := term.quantifier.value;
      var required := CodeRequired(canonicalize, mods, term.atom, q.minimum, backward, base, depth);
      var optional := CodeOptional(canonicalize, mods, term.atom, Remaining(q), q.greedy, backward, base + |required|, depth);
      RequiredUses(canonicalize, mods, term.atom, q.minimum, backward, base, depth, register);
      OptionalUses(canonicalize, mods, term.atom, Remaining(q), q.greedy, backward, base + |required|, depth, register);
      UsesNone(register);
      UsesPart([], required, optional, register);
      assert [] + required + optional == required + optional;
    }
  }

  lemma ResetUsesNone(atom: Atom, register: nat)
    ensures !Uses(CodeReset(CaptureRange(atom)), register)
  {
  }

  lemma {:induction false} IterationUses(canonicalize: Canonicalize, mods: Modifiers, atom: Atom, backward: bool, base: nat,
                                         depth: nat, register: nat)
    ensures Uses(CodeIteration(canonicalize, mods, atom, backward, base, depth), register) <==>
      Counts(depth, AtomRegisters(atom), register)
    decreases atom, 1
  {
    hide Uses;
    hide CodeAtom;
    hide CaptureRange;
    var reset := CodeReset(CaptureRange(atom));
    var code := CodeAtom(canonicalize, mods, atom, backward, base + |reset|, depth);
    AtomUses(canonicalize, mods, atom, backward, base + |reset|, depth, register);
    ResetUsesNone(atom, register);
    UsesNone(register);
    UsesPart(reset, code, [], register);
    assert reset + code + [] == reset + code;
  }

  lemma {:induction false} RequiredUses(canonicalize: Canonicalize, mods: Modifiers, atom: Atom, count: nat, backward: bool,
                                        base: nat, depth: nat, register: nat)
    ensures Uses(CodeRequired(canonicalize, mods, atom, count, backward, base, depth), register) <==>
      Counts(depth, RequiredRegisters(atom, count), register)
    decreases atom, 2
  {
    hide Uses;
    hide CodeIteration;
    hide CaptureRange;
    hide AtomRegisters;
    if count == 0 {
      ResetUsesNone(atom, register);
    } else if count == 1 {
      IterationUses(canonicalize, mods, atom, backward, base, depth, register);
    } else {
      var code := CodeIteration(canonicalize, mods, atom, backward, base + 1, depth + 1);
      IterationUses(canonicalize, mods, atom, backward, base + 1, depth + 1, register);
      UsesPart([SetRegister(depth, count)], code, [Loop(depth, base + 1)], register);
      UsesOne(SetRegister(depth, count), register);
      UsesOne(Loop(depth, base + 1), register);
    }
  }

  lemma {:induction false} BodyUses(canonicalize: Canonicalize, mods: Modifiers, atom: Atom, backward: bool, base: nat, depth: nat,
                                    register: nat)
    ensures Uses(CodeBody(canonicalize, mods, atom, backward, base, depth), register) <==>
      Counts(depth, Flag(CanMatchEmpty(atom)) + AtomRegisters(atom), register)
    decreases atom, 2
  {
    hide Uses;
    hide CodeIteration;
    hide CanMatchEmpty;
    hide AtomRegisters;
    if CanMatchEmpty(atom) {
      var code := CodeIteration(canonicalize, mods, atom, backward, base + 1, depth + 1);
      IterationUses(canonicalize, mods, atom, backward, base + 1, depth + 1, register);
      UsesPart([SavePosition(depth)], code, [CheckAdvance(depth)], register);
      UsesOne(SavePosition(depth), register);
      UsesOne(CheckAdvance(depth), register);
    } else {
      IterationUses(canonicalize, mods, atom, backward, base, depth, register);
    }
  }

  lemma {:induction false} OptionalUses(canonicalize: Canonicalize, mods: Modifiers, atom: Atom, count: Option<nat>, greedy: bool,
                                        backward: bool, base: nat, depth: nat, register: nat)
    ensures Uses(CodeOptional(canonicalize, mods, atom, count, greedy, backward, base, depth), register) <==>
      Counts(depth, OptionalRegisters(atom, count), register)
    decreases atom, 4
  {
    hide Uses;
    hide CodeBody;
    hide CanMatchEmpty;
    hide AtomRegisters;
    UsesNone(register);
    if count == Some(0) {
    } else if Counted(count) {
      CountedUses(canonicalize, mods, atom, count.value, greedy, backward, base, depth, register);
    } else {
      var body := CodeBody(canonicalize, mods, atom, backward, base + 1, depth);
      var last := if count.None? then [Jump(base)] else [];
      var split := PreferredSplit(base + 1, base + 1 + |body| + |last|, greedy);
      BodyUses(canonicalize, mods, atom, backward, base + 1, depth, register);
      UsesPart([split], body, last, register);
      UsesOne(split, register);
      UsesOne(Jump(base), register);
    }
  }

  lemma {:induction false} CountedUses(canonicalize: Canonicalize, mods: Modifiers, atom: Atom, count: nat, greedy: bool,
                                       backward: bool, base: nat, depth: nat, register: nat)
    requires count > 1
    ensures Uses(CodeOptional(canonicalize, mods, atom, Some(count), greedy, backward, base, depth), register) <==>
      Counts(depth, OptionalRegisters(atom, Some(count)), register)
    decreases atom, 3
  {
    hide Uses;
    hide CodeBody;
    hide CanMatchEmpty;
    hide AtomRegisters;
    var body := CodeBody(canonicalize, mods, atom, backward, base + 2, depth + 1);
    var split := PreferredSplit(base + 2, base + |body| + 3, greedy);
    BodyUses(canonicalize, mods, atom, backward, base + 2, depth + 1, register);
    UsesPart([], [SetRegister(depth, count)], [split], register);
    assert [] + [SetRegister(depth, count)] + [split] == [SetRegister(depth, count), split];
    UsesPart([SetRegister(depth, count), split], body, [Loop(depth, base + 1)], register);
    UsesOne(SetRegister(depth, count), register);
    UsesOne(split, register);
    UsesOne(Loop(depth, base + 1), register);
    UsesNone(register);
  }

  /** Every register below the count is used by the program, and none above. */
  lemma RegistersAreUsed(canonicalize: Canonicalize, mods: Modifiers, expression: Expression, register: nat)
    ensures Uses(Program(canonicalize, mods, expression), register) <==> register < AlternativesRegisters(expression.alternatives)
  {
    hide Uses;
    hide CodeAlternatives;
    hide AlternativesRegisters;
    var code := CodeAlternatives(canonicalize, mods, expression.alternatives, false, 1, 0);
    CodeTo(canonicalize, mods, expression.alternatives, false, 1, 0);
    AlternativesUse(canonicalize, mods, expression.alternatives, false, 1, 0,
                    1 + AlternativesLength(canonicalize, mods, expression.alternatives, false, 1, 0), register);
    UsesPart([SaveStart(0)], code, [SaveEnd(0), Match], register);
    UsesPart([], [SaveEnd(0)], [Match], register);
    assert [] + [SaveEnd(0)] + [Match] == [SaveEnd(0), Match];
    UsesOne(SaveStart(0), register);
    UsesOne(SaveEnd(0), register);
    UsesOne(Match, register);
    UsesNone(register);
  }
}
