/** Code generation always passes validation. */
module GeneratedPrograms {
  import opened Basics
  import opened Pattern
  import opened Matcher
  import opened MatcherLaws
  import opened Machine
  import opened Code
  import opened Leaves
  import opened Correctness
  import opened CompiledPrograms
  import opened Validation

  /** Bounds of the capture and register files of a program. */
  datatype Limits = Limits(captures: nat, registers: nat)

  /** An instruction that passes both passes of the validator, with branches that keep the chain of assertions. */
  predicate SoundAt(program: seq<Instruction>, limits: Limits, pc: nat)
    requires pc < |program|
  {
    && FirstPass(program, limits.captures, limits.registers, pc)
    && !program[pc].Match?
    && forall i :: 0 <= i < |Targets(program[pc])| ==> SameChain(program, pc, Targets(program[pc])[i])
  }

  predicate SameChain(program: seq<Instruction>, pc: nat, target: nat)
    requires pc <= |program|
  {
    target < |program| && Opened(program, target) == Opened(program, pc)
  }

  /** A stretch of code that is sound and closes every assertion it opens. */
  predicate Sound(program: seq<Instruction>, limits: Limits, from: nat, to: nat) {
    && from <= to < |program|
    && Opened(program, to) == Opened(program, from)
    && forall pc :: from <= pc < to ==> SoundAt(program, limits, pc)
  }

  lemma SoundJoin(program: seq<Instruction>, limits: Limits, a: nat, b: nat, c: nat)
    requires Sound(program, limits, a, b) && Sound(program, limits, b, c)
    ensures Sound(program, limits, a, c)
  {
    hide SoundAt;
    hide Opened;
  }

  /** An instruction that neither opens nor closes an assertion. */
  lemma SoundOne(program: seq<Instruction>, limits: Limits, pc: nat)
    requires pc + 1 < |program|
    requires !program[pc].LookAhead? && !program[pc].LookAheadEnd? && !program[pc].Match?
    requires CharactersInRange(program[pc]) && InstructionBounded(program[pc], limits.captures, limits.registers)
    requires forall i :: 0 <= i < |Targets(program[pc])| ==> SameChain(program, pc, Targets(program[pc])[i])
    ensures Sound(program, limits, pc, pc + 1)
  {
    OpenedNext(program, pc);
    assert SoundAt(program, limits, pc);
  }

  /** The chain after an instruction that neither opens nor closes an assertion. */
  lemma ChainStays(program: seq<Instruction>, pc: nat)
    requires pc < |program| && !program[pc].LookAhead? && !program[pc].LookAheadEnd?
    ensures Opened(program, pc + 1) == Opened(program, pc)
  {
  }

  /** The chain of assertions around a lookahead whose body closes all it opens. */
  lemma AssertionChain(program: seq<Instruction>, at: nat, end: nat)
    requires at < end < |program| && program[at].LookAhead? && program[end].LookAheadEnd?
    requires Opened(program, end) == Opened(program, at + 1)
    ensures Opened(program, end) == Opened(program, at) + [at] && Opened(program, end + 1) == Opened(program, at)
  {
    hide Opened;
    OpenedNext(program, at);
    OpenedNext(program, end);
    var chain := Opened(program, at);
    assert (chain + [at])[..|chain|] == chain;
  }

  lemma SoundEnds(program: seq<Instruction>, limits: Limits, at: nat, end: nat, negative: bool)
    requires at < end && end + 1 < |program|
    requires program[at] == LookAhead(negative, end + 1) && program[end] == LookAheadEnd(negative)
    requires Opened(program, end) == Opened(program, at) + [at] && Opened(program, end + 1) == Opened(program, at)
    ensures SoundAt(program, limits, at) && SoundAt(program, limits, end)
  {
    hide Opened;
    assert Paired(program, end);
  }

  /** A lookahead around a sound body. */
  lemma SoundAssertion(program: seq<Instruction>, limits: Limits, at: nat, end: nat, negative: bool)
    requires at < end && end + 1 < |program|
    requires program[at] == LookAhead(negative, end + 1) && program[end] == LookAheadEnd(negative)
    requires Sound(program, limits, at + 1, end)
    ensures Sound(program, limits, at, end + 1)
  {
    hide Opened;
    hide SoundAt;
    AssertionChain(program, at, end);
    SoundEnds(program, limits, at, end, negative);
  }

  predicate CanonicalizeInRange(canonicalize: Canonicalize) {
    forall c: nat :: c <= MAX_CODE_POINT ==> canonicalize(c) <= MAX_CODE_POINT
  }

  // ---- Leaves ----

  predicate Harmless(instruction: Instruction, limits: Limits) {
    && Targets(instruction) == [] && !instruction.LookAheadEnd? && !instruction.Match?
    && CharactersInRange(instruction) && InstructionBounded(instruction, limits.captures, limits.registers)
  }

  predicate AllHarmless(code: seq<Instruction>, limits: Limits) {
    forall i :: 0 <= i < |code| ==> Harmless(code[i], limits)
  }

  predicate PartsHarmless(parts: seq<seq<Instruction>>, limits: Limits) {
    forall k :: 0 <= k < |parts| ==> AllHarmless(parts[k], limits)
  }

  /** Straight-line code. */
  lemma {:induction false} StraightSound(program: seq<Instruction>, limits: Limits, at: nat, code: seq<Instruction>)
    requires Placed(program, at, code) && at + |code| < |program|
    requires AllHarmless(code, limits)
    ensures Sound(program, limits, at, at + |code|)
    decreases |code|
  {
    if code != [] {
      assert code == [code[0]] + code[1..];
      PlacedSplit(program, at, [code[0]], code[1..]);
      PlacedOne(program, at, code[0]);
      assert Harmless(code[0], limits);
      SoundOne(program, limits, at);
      StraightSound(program, limits, at + 1, code[1..]);
      SoundJoin(program, limits, at, at + 1, at + |code|);
    }
  }

  lemma {:induction false} ChainSound(program: seq<Instruction>, limits: Limits, at: nat, parts: seq<seq<Instruction>>,
                                      end: nat)
    requires end == at + ChainLength(parts) && end < |program|
    requires Placed(program, at, Chain(parts, at, end))
    requires PartsHarmless(parts, limits)
    ensures Sound(program, limits, at, end)
    decreases |parts|
  {
    hide AllHarmless;
    if |parts| == 1 {
      StraightSound(program, limits, at, parts[0]);
    } else if |parts| > 1 {
      ChainPlaced(program, at, parts, end);
      var next := at + |parts[0]| + 2;
      StraightSound(program, limits, at + 1, parts[0]);
      ChainSound(program, limits, next, parts[1..], end);
      AlternativeSound(program, limits, at, next, end);
    }
  }

  /** One alternative of several: split, code, jump to the end, and the others. */
  lemma AlternativeSound(program: seq<Instruction>, limits: Limits, at: nat, next: nat, end: nat)
    requires at + 1 < next <= end < |program|
    requires program[at] == Split(at + 1, next) && program[next - 1] == Jump(end)
    requires Sound(program, limits, at + 1, next - 1) && Sound(program, limits, next, end)
    ensures Sound(program, limits, at, end)
  {
    ChainStays(program, at);
    ChainStays(program, next - 1);
    SoundOne(program, limits, at);
    SoundOne(program, limits, next - 1);
    SoundJoin(program, limits, at, at + 1, next - 1);
    SoundJoin(program, limits, at, next - 1, next);
    SoundJoin(program, limits, at, next, end);
  }

  lemma {:induction false} StringHarmless(characters: seq<nat>, ignoreCase: bool, limits: Limits)
    requires forall i :: 0 <= i < |characters| ==> characters[i] <= MAX_CODE_POINT
    ensures AllHarmless(StringCode(characters, ignoreCase), limits)
    decreases |characters|
  {
    if characters != [] {
      StringHarmless(characters[1..], ignoreCase, limits);
    }
  }

  lemma {:induction false} StringsHarmless(strings: seq<seq<nat>>, ignoreCase: bool, limits: Limits)
    requires forall s, c :: s in strings && c in s ==> c <= MAX_CODE_POINT
    ensures PartsHarmless(StringParts(strings, ignoreCase), limits)
    decreases |strings|
  {
    hide AllHarmless;
    if strings != [] {
      forall i | 0 <= i < |strings[0]|
        ensures strings[0][i] <= MAX_CODE_POINT
      {
        assert strings[0] in strings && strings[0][i] in strings[0];
      }
      StringHarmless(strings[0], ignoreCase, limits);
      assert forall s :: s in strings[1..] ==> s in strings;
      StringsHarmless(strings[1..], ignoreCase, limits);
    }
  }

  lemma ClassHarmless(class_: CharacterClass, ignoreCase: bool, limits: Limits)
    requires ValidClass(class_)
    ensures PartsHarmless(ClassParts(class_, ignoreCase), limits)
  {
    hide LongestFirst;
    hide StringParts;
    var strings := LongestFirst(class_.strings);
    StringsHarmless(strings, ignoreCase, limits);
    assert AllHarmless([Range(class_.ranges, class_.inverted, ignoreCase)], limits);
    assert AllHarmless([], limits);
    assert PartsHarmless(ShortParts(class_, ignoreCase), limits);
    assert ClassParts(class_, ignoreCase) == StringParts(strings, ignoreCase) + ShortParts(class_, ignoreCase);
  }

  lemma ClassSound(program: seq<Instruction>, limits: Limits, mods: Modifiers, class_: CharacterClass, backward: bool,
                   at: nat)
    requires ValidClass(class_)
    requires Placed(program, at, CodeClass(mods, class_, backward, at))
    requires at + |CodeClass(mods, class_, backward, at)| < |program|
    ensures Sound(program, limits, at, at + |CodeClass(mods, class_, backward, at)|)
  {
    hide ClassParts;
    hide Chain;
    hide Sound;
    var parts := ClassParts(class_, mods.ignoreCase);
    var guard := Guard(backward);
    var start := at + |guard|;
    var end := start + ChainLength(parts);
    ChainHasLength(parts, start, end);
    PlacedSplit3(program, at, guard, Chain(parts, start, end), guard);
    assert AllHarmless(guard, limits);
    StraightSound(program, limits, at, guard);
    ClassHarmless(class_, mods.ignoreCase, limits);
    ChainSound(program, limits, start, parts, end);
    StraightSound(program, limits, end, guard);
    SoundJoin(program, limits, at, start, end);
    SoundJoin(program, limits, at, end, end + |guard|);
  }

  // ---- Nodes ----

  datatype Context = Context(program: seq<Instruction>, limits: Limits, canonicalize: Canonicalize)

  ghost predicate Fine(x: Context, at: nat, code: seq<Instruction>) {
    Placed(x.program, at, code) && at + |code| < |x.program|
  }

  ghost predicate Good(x: Context, at: nat, code: seq<Instruction>) {
    Sound(x.program, x.limits, at, at + |code|)
  }

  lemma LeafSound(x: Context, mods: Modifiers, atom: Atom, backward: bool, at: nat, depth: nat, first: nat)
    requires !atom.LookAround? && !atom.Group?
    requires CanonicalizeInRange(x.canonicalize) && WellFormed(atom, first, x.limits.captures, true)
    requires Fine(x, at, CodeAtom(x.canonicalize, mods, atom, backward, at, depth))
    ensures Good(x, at, CodeAtom(x.canonicalize, mods, atom, backward, at, depth))
  {
    if atom.Class? {
      ClassSound(x.program, x.limits, mods, atom.class_, backward, at);
    } else {
      LeafHarmless(x, mods, atom, backward, at, depth, first);
      StraightSound(x.program, x.limits, at, CodeAtom(x.canonicalize, mods, atom, backward, at, depth));
    }
  }

  lemma LeafHarmless(x: Context, mods: Modifiers, atom: Atom, backward: bool, at: nat, depth: nat, first: nat)
    requires !atom.LookAround? && !atom.Group? && !atom.Class?
    requires CanonicalizeInRange(x.canonicalize) && WellFormed(atom, first, x.limits.captures, true)
    ensures AllHarmless(CodeAtom(x.canonicalize, mods, atom, backward, at, depth), x.limits)
  {
  }

  lemma {:induction false} AtomSound(x: Context, mods: Modifiers, atom: Atom, backward: bool, at: nat, depth: nat,
                                     first: nat)
    requires CanonicalizeInRange(x.canonicalize) && WellFormed(atom, first, x.limits.captures, true)
    requires depth + AtomRegisters(atom) <= x.limits.registers
    requires Fine(x, at, CodeAtom(x.canonicalize, mods, atom, backward, at, depth))
    ensures Good(x, at, CodeAtom(x.canonicalize, mods, atom, backward, at, depth))
    decreases atom, 0
  {
    hide CodeAtom;
    hide Good;
    match atom
    case LookAround(_, _, _) => LookAroundSound(x, mods, atom, backward, at, depth, first);
    case Group(None, _, _) => PlainGroupSound(x, mods, atom, backward, at, depth, first);
    case Group(Some(_), _, _) => CapturingGroupSound(x, mods, atom, backward, at, depth, first);
    case _ => LeafSound(x, mods, atom, backward, at, depth, first);
  }

  function EngineOf(x: Context): Engine {
    Engine(Env([], false, x.canonicalize), x.program)
  }

  lemma {:induction false} LookAroundSound(x: Context, mods: Modifiers, atom: Atom, backward: bool, at: nat, depth: nat,
                                           first: nat)
    requires atom.LookAround?
    requires CanonicalizeInRange(x.canonicalize) && WellFormed(atom, first, x.limits.captures, true)
    requires depth + AtomRegisters(atom) <= x.limits.registers
    requires Fine(x, at, CodeAtom(x.canonicalize, mods, atom, backward, at, depth))
    ensures Good(x, at, CodeAtom(x.canonicalize, mods, atom, backward, at, depth))
    decreases atom.expression.alternatives, 3
  {
    hide CodeAtom;
    hide CodeAlternativesTo;
    hide AlternativesLength;
    hide Sound;
    LookAroundPlaced(EngineOf(x), mods, atom, backward, at, depth);
    var alternatives := atom.expression.alternatives;
    var end := at + 1 + AlternativesLength(x.canonicalize, mods, alternatives, atom.backward, at + 1, depth);
    AlternativesSound(x, mods, alternatives, atom.backward, at + 1, depth, first, end);
    SoundAssertion(x.program, x.limits, at, end, atom.negative);
  }

  lemma {:induction false} PlainGroupSound(x: Context, mods: Modifiers, atom: Atom, backward: bool, at: nat, depth: nat,
                                           first: nat)
    requires atom.Group? && atom.capture.None?
    requires CanonicalizeInRange(x.canonicalize) && WellFormed(atom, first, x.limits.captures, true)
    requires depth + AtomRegisters(atom) <= x.limits.registers
    requires Fine(x, at, CodeAtom(x.canonicalize, mods, atom, backward, at, depth))
    ensures Good(x, at, CodeAtom(x.canonicalize, mods, atom, backward, at, depth))
    decreases atom.expression.alternatives, 3
  {
    hide CodeAtom;
    hide CodeAlternativesTo;
    hide AlternativesLength;
    hide Sound;
    PlainGroupPlaced(EngineOf(x), mods, atom, backward, at, depth);
    var end := at + |CodeAtom(x.canonicalize, mods, atom, backward, at, depth)|;
    AlternativesSound(x, Inner(mods, atom.modifiers), atom.expression.alternatives, backward, at, depth, first, end);
  }

  lemma {:induction false} CapturingGroupSound(x: Context, mods: Modifiers, atom: Atom, backward: bool, at: nat,
                                               depth: nat, first: nat)
    requires atom.Group? && atom.capture.Some?
    requires CanonicalizeInRange(x.canonicalize) && WellFormed(atom, first, x.limits.captures, true)
    requires depth + AtomRegisters(atom) <= x.limits.registers
    requires Fine(x, at, CodeAtom(x.canonicalize, mods, atom, backward, at, depth))
    ensures Good(x, at, CodeAtom(x.canonicalize, mods, atom, backward, at, depth))
    decreases atom.expression.alternatives, 3
  {
    hide CodeAtom;
    hide CodeAlternativesTo;
    hide AlternativesLength;
    CapturingGroupPlaced(EngineOf(x), mods, atom, backward, at, depth);
    var inner, alternatives := Inner(mods, atom.modifiers), atom.expression.alternatives;
    var end := at + 1 + AlternativesLength(x.canonicalize, inner, alternatives, backward, at + 1, depth);
    SoundOne(x.program, x.limits, at);
    SoundOne(x.program, x.limits, end);
    AlternativesSound(x, inner, alternatives, backward, at + 1, depth, first + 1, end);
    SoundJoin(x.program, x.limits, at, at + 1, end);
    SoundJoin(x.program, x.limits, at, end, end + 1);
  }

  lemma LengthStep(canonicalize: Canonicalize, mods: Modifiers, alternatives: seq<Sequence>, backward: bool, at: nat,
                   depth: nat, end: nat)
    requires alternatives != []
    ensures |alternatives| == 1 ==>
      var code := CodeTerms(canonicalize, mods, alternatives[0].terms, backward, at, depth);
      && CodeAlternativesTo(canonicalize, mods, alternatives, backward, at, depth, end) == code
      && AlternativesLength(canonicalize, mods, alternatives, backward, at, depth) == |code|
    ensures |alternatives| > 1 ==>
      var length := |CodeTerms(canonicalize, mods, alternatives[0].terms, backward, at + 1, depth)| + 2;
      AlternativesLength(canonicalize, mods, alternatives, backward, at, depth) ==
      length + AlternativesLength(canonicalize, mods, alternatives[1..], backward, at + length, depth)
  {
    hide CodeTerms;
    var length := |CodeTerms(canonicalize, mods, alternatives[0].terms, backward, at + 1, depth)| + 2;
    assert at + (length - 2) + 2 == at + length;
  }

  lemma FineAlternatives(x: Context, mods: Modifiers, alternatives: seq<Sequence>, backward: bool, at: nat,
                         depth: nat, end: nat)
    requires alternatives != []
    requires end == at + AlternativesLength(x.canonicalize, mods, alternatives, backward, at, depth)
    requires Fine(x, at, CodeAlternativesTo(x.canonicalize, mods, alternatives, backward, at, depth, end))
    ensures |alternatives| == 1 ==>
      var code := CodeTerms(x.canonicalize, mods, alternatives[0].terms, backward, at, depth);
      Fine(x, at, code) && end == at + |code|
    ensures |alternatives| > 1 ==>
      var code := CodeTerms(x.canonicalize, mods, alternatives[0].terms, backward, at + 1, depth);
      var next := at + |code| + 2;
      && Fine(x, at + 1, code)
      && at < next - 1 < |x.program| && x.program[at] == Split(at + 1, next) && x.program[next - 1] == Jump(end)
      && end == next + AlternativesLength(x.canonicalize, mods, alternatives[1..], backward, next, depth)
      && end < |x.program|
      && Fine(x, next, CodeAlternativesTo(x.canonicalize, mods, alternatives[1..], backward, next, depth, end))
  {
    hide CodeTerms;
    hide Placed;
    hide CodeAlternativesTo;
    hide AlternativesLength;
    LengthStep(x.canonicalize, mods, alternatives, backward, at, depth, end);
    if |alternatives| > 1 {
      AlternativesPlaced(EngineOf(x), mods, alternatives, backward, at, depth, end);
    }
  }

  lemma {:induction false} AlternativesSound(x: Context, mods: Modifiers, alternatives: seq<Sequence>, backward: bool,
                                             at: nat, depth: nat, first: nat, end: nat)
    requires alternatives != []
    requires CanonicalizeInRange(x.canonicalize) && WellFormedAlternatives(alternatives, first, x.limits.captures, true)
    requires depth + AlternativesRegisters(alternatives) <= x.limits.registers
    requires end == at + AlternativesLength(x.canonicalize, mods, alternatives, backward, at, depth)
    requires Fine(x, at, CodeAlternativesTo(x.canonicalize, mods, alternatives, backward, at, depth, end))
    ensures Sound(x.program, x.limits, at, end)
    decreases alternatives, 2
  {
    hide Sound;
    hide CodeTerms;
    hide Fine;
    hide CodeAlternativesTo;
    hide AlternativesLength;
    hide WellFormedTerms;
    hide TermsRegisters;
    hide TermsGroups;
    hide CanonicalizeInRange;
    FineAlternatives(x, mods, alternatives, backward, at, depth, end);
    if |alternatives| == 1 {
      TermsSound(x, mods, alternatives[0].terms, backward, at, depth, first);
    } else {
      var code := CodeTerms(x.canonicalize, mods, alternatives[0].terms, backward, at + 1, depth);
      var next := at + |code| + 2;
      TermsSound(x, mods, alternatives[0].terms, backward, at + 1, depth, first);
      AlternativesSound(x, mods, alternatives[1..], backward, next, depth, first + TermsGroups(alternatives[0].terms), end);
      AlternativeSound(x.program, x.limits, at, next, end);
    }
  }

  lemma TermsPlaced(x: Context, mods: Modifiers, terms: seq<Term>, backward: bool, at: nat, depth: nat)
    requires terms != [] && Placed(x.program, at, CodeTerms(x.canonicalize, mods, terms, backward, at, depth))
    ensures var code := CodeTerm(x.canonicalize, mods, First(terms, backward), backward, at, depth);
            var code' := CodeTerms(x.canonicalize, mods, Rest(terms, backward), backward, at + |code|, depth);
            && |CodeTerms(x.canonicalize, mods, terms, backward, at, depth)| == |code| + |code'|
            && Placed(x.program, at, code) && Placed(x.program, at + |code|, code')
  {
    hide CodeTerm;
    hide Placed;
    var code := CodeTerm(x.canonicalize, mods, First(terms, backward), backward, at, depth);
    var code' := CodeTerms(x.canonicalize, mods, Rest(terms, backward), backward, at + |code|, depth);
    PlacedSplit(x.program, at, code, code');
  }

  lemma {:induction false} TermsSound(x: Context, mods: Modifiers, terms: seq<Term>, backward: bool, at: nat, depth: nat,
                                      first: nat)
    requires CanonicalizeInRange(x.canonicalize) && WellFormedTerms(terms, first, x.limits.captures, true)
    requires depth + TermsRegisters(terms) <= x.limits.registers
    requires Fine(x, at, CodeTerms(x.canonicalize, mods, terms, backward, at, depth))
    ensures Good(x, at, CodeTerms(x.canonicalize, mods, terms, backward, at, depth))
    decreases terms, 1
  {
    hide CodeTerm;
    hide Sound;
    hide Placed;
    if terms == [] {
      EmptySound(x, at);
    } else {
      TermsPlaced(x, mods, terms, backward, at, depth);
      var term, rest := First(terms, backward), Rest(terms, backward);
      WellFormedFirstRest(terms, backward, first, x.limits.captures, true);
      RegistersFirstRest(terms, backward);
      var code := CodeTerm(x.canonicalize, mods, term, backward, at, depth);
      var code' := CodeTerms(x.canonicalize, mods, rest, backward, at + |code|, depth);
      TermSound(x, mods, term, backward, at, depth, FirstGroup(terms, backward, first));
      TermsSound(x, mods, rest, backward, at + |code|, depth, RestGroup(terms, backward, first));
      SoundJoin(x.program, x.limits, at, at + |code|, at + |code| + |code'|);
    }
  }

  lemma {:induction false} TermSound(x: Context, mods: Modifiers, term: Term, backward: bool, at: nat, depth: nat,
                                     first: nat)
    requires CanonicalizeInRange(x.canonicalize) && WellFormedTerm(term, first, x.limits.captures, true)
    requires depth + TermRegisters(term) <= x.limits.registers
    requires Fine(x, at, CodeTerm(x.canonicalize, mods, term, backward, at, depth))
    ensures Good(x, at, CodeTerm(x.canonicalize, mods, term, backward, at, depth))
    decreases term, 0
  {
    hide Good;
    match term.quantifier
    case None =>
      AtomSound(x, mods, term.atom, backward, at, depth, first);
    case Some(q) =>
      QuantifiedSound(x, mods, term.atom, q, backward, at, depth, first);
  }

  // ---- Quantifiers ----

  lemma ResetSound(x: Context, atom: Atom, at: nat, first: nat, strict: bool)
    requires WellFormed(atom, first, x.limits.captures, strict)
    requires Fine(x, at, CodeReset(CaptureRange(atom)))
    ensures Good(x, at, CodeReset(CaptureRange(atom)))
  {
    AtomNumbered(atom, first, x.limits.captures, strict);
    assert AllHarmless(CodeReset(CaptureRange(atom)), x.limits);
    StraightSound(x.program, x.limits, at, CodeReset(CaptureRange(atom)));
  }

  lemma {:induction false} IterationSound(x: Context, mods: Modifiers, atom: Atom, backward: bool, at: nat, depth: nat,
                                          first: nat)
    requires CanonicalizeInRange(x.canonicalize) && WellFormed(atom, first, x.limits.captures, true)
    requires depth + AtomRegisters(atom) <= x.limits.registers
    requires Fine(x, at, CodeIteration(x.canonicalize, mods, atom, backward, at, depth))
    ensures Good(x, at, CodeIteration(x.canonicalize, mods, atom, backward, at, depth))
    decreases atom, 1
  {
    hide CodeAtom;
    hide Placed;
    hide Sound;
    var reset := CodeReset(CaptureRange(atom));
    var code := CodeAtom(x.canonicalize, mods, atom, backward, at + |reset|, depth);
    PlacedSplit(x.program, at, reset, code);
    ResetSound(x, atom, at, first, true);
    AtomSound(x, mods, atom, backward, at + |reset|, depth, first);
    SoundJoin(x.program, x.limits, at, at + |reset|, at + |reset| + |code|);
  }

  lemma {:induction false} RequiredSound(x: Context, mods: Modifiers, atom: Atom, count: nat, backward: bool, at: nat,
                                         depth: nat, first: nat)
    requires CanonicalizeInRange(x.canonicalize) && WellFormed(atom, first, x.limits.captures, true)
    requires depth + RequiredRegisters(atom, count) <= x.limits.registers
    requires Fine(x, at, CodeRequired(x.canonicalize, mods, atom, count, backward, at, depth))
    ensures Good(x, at, CodeRequired(x.canonicalize, mods, atom, count, backward, at, depth))
    decreases atom, 2
  {
    hide Sound;
    hide WellFormed;
    hide CanonicalizeInRange;
    hide AtomRegisters;
    hide CodeIteration;
    hide Placed;
    if count == 0 {
      ResetSound(x, atom, at, first, true);
    } else if count == 1 {
      IterationSound(x, mods, atom, backward, at, depth, first);
    } else {
      var code := CodeIteration(x.canonicalize, mods, atom, backward, at + 1, depth + 1);
      PlacedSplit3(x.program, at, [SetRegister(depth, count)], code, [Loop(depth, at + 1)]);
      PlacedOne(x.program, at, SetRegister(depth, count));
      PlacedOne(x.program, at + 1 + |code|, Loop(depth, at + 1));
      IterationSound(x, mods, atom, backward, at + 1, depth + 1, first);
      LoopSound(x, at, at + 1 + |code|);
    }
  }

  /** An instruction, a sound stretch after it, and a branch back to the start of the stretch. */
  lemma LoopSound(x: Context, at: nat, end: nat)
    requires at < end && end + 1 < |x.program|
    requires Sound(x.program, x.limits, at + 1, end)
    requires x.program[at].SetRegister? && x.program[end].Loop? && x.program[end].target == at + 1
    requires x.program[at].register < x.limits.registers && x.program[end].register < x.limits.registers
    ensures Sound(x.program, x.limits, at, end + 1)
  {
    SoundOne(x.program, x.limits, at);
    SoundOne(x.program, x.limits, end);
    SoundJoin(x.program, x.limits, at, at + 1, end);
    SoundJoin(x.program, x.limits, at, end, end + 1);
  }

  lemma {:induction false} BodySound(x: Context, mods: Modifiers, atom: Atom, backward: bool, at: nat, depth: nat,
                                     first: nat)
    requires CanonicalizeInRange(x.canonicalize) && WellFormed(atom, first, x.limits.captures, true)
    requires depth + Flag(CanMatchEmpty(atom)) + AtomRegisters(atom) <= x.limits.registers
    requires Fine(x, at, CodeBody(x.canonicalize, mods, atom, backward, at, depth))
    ensures Good(x, at, CodeBody(x.canonicalize, mods, atom, backward, at, depth))
    decreases atom, 2
  {
    hide CodeIteration;
    hide Placed;
    if CanMatchEmpty(atom) {
      var code := CodeIteration(x.canonicalize, mods, atom, backward, at + 1, depth + 1);
      PlacedSplit3(x.program, at, [SavePosition(depth)], code, [CheckAdvance(depth)]);
      PlacedOne(x.program, at, SavePosition(depth));
      PlacedOne(x.program, at + 1 + |code|, CheckAdvance(depth));
      SoundOne(x.program, x.limits, at);
      SoundOne(x.program, x.limits, at + 1 + |code|);
      IterationSound(x, mods, atom, backward, at + 1, depth + 1, first);
      SoundJoin(x.program, x.limits, at, at + 1, at + 1 + |code|);
      SoundJoin(x.program, x.limits, at, at + 1 + |code|, at + |code| + 2);
    } else {
      IterationSound(x, mods, atom, backward, at, depth, first);
    }
  }

  /** The decision of an optional part: a sound body, then at most one branch back to the decision. */
  lemma DecisionSound(x: Context, at: nat, end: nat, after: nat, greedy: bool)
    requires at < end <= after <= end + 1 && after < |x.program|
    requires x.program[at] == PreferredSplit(at + 1, after, greedy)
    requires Sound(x.program, x.limits, at + 1, end)
    requires after == end + 1 ==>
      || x.program[end] == Jump(at)
      || (x.program[end].Loop? && x.program[end].target == at && x.program[end].register < x.limits.registers)
    ensures Sound(x.program, x.limits, at, after)
  {
    ChainStays(x.program, at);
    if after == end + 1 {
      ChainStays(x.program, end);
      SoundOne(x.program, x.limits, end);
    }
    SoundOne(x.program, x.limits, at);
    SoundJoin(x.program, x.limits, at, at + 1, end);
    if after == end + 1 {
      SoundJoin(x.program, x.limits, at, end, after);
    }
  }

  lemma {:induction false} OptionalSound(x: Context, mods: Modifiers, atom: Atom, count: Option<nat>, greedy: bool,
                                         backward: bool, at: nat, depth: nat, first: nat)
    requires CanonicalizeInRange(x.canonicalize) && WellFormed(atom, first, x.limits.captures, true)
    requires depth + OptionalRegisters(atom, count) <= x.limits.registers
    requires Fine(x, at, CodeOptional(x.canonicalize, mods, atom, count, greedy, backward, at, depth))
    ensures Good(x, at, CodeOptional(x.canonicalize, mods, atom, count, greedy, backward, at, depth))
    decreases atom, 4
  {
    hide WellFormed;
    hide CanonicalizeInRange;
    hide AtomRegisters;
    hide CanMatchEmpty;
    hide CodeBody;
    hide Placed;
    hide Sound;
    var s := Site(EngineOf(x), mods, atom, backward, greedy, first, x.limits.captures);
    if Counted(count) {
      CountedOptionalSound(x, s, count.value, at, depth);
    } else if count == Some(0) {
      EmptySound(x, at);
    } else {
      if count.None? {
        UnboundedPlaced(s, at, depth);
      } else {
        OncePlaced(s, at, depth);
      }
      var end := at + 1 + |BodyCode(s, at + 1, depth)|;
      BodySound(x, mods, atom, backward, at + 1, depth, first);
      DecisionSound(x, at, end, if count.None? then end + 1 else end, greedy);
    }
  }

  lemma SetRegisterSound(x: Context, at: nat)
    requires at + 1 < |x.program| && x.program[at].SetRegister? && x.program[at].register < x.limits.registers
    ensures Sound(x.program, x.limits, at, at + 1)
  {
    hide Sound;
    SoundOne(x.program, x.limits, at);
  }

  lemma EmptySound(x: Context, at: nat)
    requires at < |x.program|
    ensures Sound(x.program, x.limits, at, at)
  {
  }

  lemma {:induction false} CountedOptionalSound(x: Context, s: Site, count: nat, at: nat, depth: nat)
    requires s.m == EngineOf(x) && count > 1
    requires CanonicalizeInRange(x.canonicalize) && WellFormed(s.atom, s.first, x.limits.captures, true)
    requires depth + OptionalRegisters(s.atom, Some(count)) <= x.limits.registers
    requires Fine(x, at, OptionalCode(s, Some(count), at, depth))
    ensures Good(x, at, OptionalCode(s, Some(count), at, depth))
    decreases s.atom, 3
  {
    hide Sound;
    hide WellFormed;
    hide CanonicalizeInRange;
    hide AtomRegisters;
    hide CanMatchEmpty;
    hide CodeBody;
    hide Placed;
    hide CodeOptional;
    CountedOptionalPlaced(s, count, at, depth);
    var end := at + 2 + |BodyCode(s, at + 2, depth + 1)|;
    SetRegisterSound(x, at);
    BodySound(x, s.mods, s.atom, s.backward, at + 2, depth + 1, s.first);
    DecisionSound(x, at + 1, end, end + 1, s.greedy);
    SoundJoin(x.program, x.limits, at, at + 1, end + 1);
  }

  lemma {:induction false} QuantifiedSound(x: Context, mods: Modifiers, atom: Atom, q: Quantifier, backward: bool,
                                           at: nat, depth: nat, first: nat)
    requires CanonicalizeInRange(x.canonicalize) && WellFormedTerm(Term(atom, Some(q)), first, x.limits.captures, true)
    requires depth + TermRegisters(Term(atom, Some(q))) <= x.limits.registers
    requires Fine(x, at, CodeTerm(x.canonicalize, mods, Term(atom, Some(q)), backward, at, depth))
    ensures Good(x, at, CodeTerm(x.canonicalize, mods, Term(atom, Some(q)), backward, at, depth))
    decreases atom, 5
  {
    hide WellFormed;
    hide CanonicalizeInRange;
    hide CodeRequired;
    hide CodeOptional;
    hide AtomRegisters;
    hide CaptureRange;
    hide CodeTerm;
    hide Placed;
    hide Sound;
    var s := Site(EngineOf(x), mods, atom, backward, q.greedy, first, x.limits.captures);
    if q.maximum == Some(0) {
      ResetCode(s, q, at, depth);
      ResetSound(x, atom, at, first, false);
    } else {
      QuantifiedCode(s, q, at, depth);
      var required := CodeRequired(x.canonicalize, mods, atom, q.minimum, backward, at, depth);
      var optional := CodeOptional(x.canonicalize, mods, atom, Remaining(q), q.greedy, backward, at + |required|, depth);
      PlacedSplit(x.program, at, required, optional);
      RequiredSound(x, mods, atom, q.minimum, backward, at, depth, first);
      OptionalSound(x, mods, atom, Remaining(q), q.greedy, backward, at + |required|, depth, first);
      SoundJoin(x.program, x.limits, at, at + |required|, at + |required| + |optional|);
    }
  }

  // ---- Programs ----

  /** Every generated program passes validation. */
  lemma ProgramIsValid(canonicalize: Canonicalize, mods: Modifiers, expression: Expression, total: nat, registers: nat)
    requires ValidPattern(expression, total) && CanonicalizeInRange(canonicalize)
    requires AlternativesRegisters(expression.alternatives) <= registers
    ensures ValidProgram(Program(canonicalize, mods, expression), total, registers)
  {
    hide CodeAtom;
    hide Program;
    var program := Program(canonicalize, mods, expression);
    var x := Context(program, Limits(total, registers), canonicalize);
    ProgramPlaced(canonicalize, mods, expression);
    AtomSound(x, mods, Whole(expression), false, 0, 0, 0);
    SoundThenMatch(program, x.limits);
  }

  lemma SoundThenMatch(program: seq<Instruction>, limits: Limits)
    requires program != [] && limits.captures > 0
    requires Sound(program, limits, 0, |program| - 1) && program[|program| - 1] == Match
    ensures ValidProgram(program, limits.captures, limits.registers)
  {
    var last := |program| - 1;
    NothingOpened(program);
    ChainStays(program, last);
    forall pc | 0 <= pc < |program|
      ensures FirstPass(program, limits.captures, limits.registers, pc) && SecondPass(program, pc)
    {
      if pc < last {
        assert SoundAt(program, limits, pc);
      }
    }
  }

  // ---- Only references out of range keep code from being valid ----

  predicate RefersBelow(instruction: Instruction, total: nat) {
    match instruction
    case BackReference(captures, _) => Below(captures, total)
    case BackwardBackReference(captures, _) => Below(captures, total)
    case _ => true
  }

  predicate AllRefersBelow(code: seq<Instruction>, total: nat) {
    forall i :: 0 <= i < |code| ==> RefersBelow(code[i], total)
  }

  lemma PartRefersBelow(before: seq<Instruction>, code: seq<Instruction>, after: seq<Instruction>, total: nat)
    requires AllRefersBelow(before + code + after, total)
    ensures AllRefersBelow(code, total)
  {
    forall i | 0 <= i < |code|
      ensures RefersBelow(code[i], total)
    {
      assert (before + code + after)[|before| + i] == code[i];
    }
  }

  lemma {:induction false} AtomRefers(canonicalize: Canonicalize, mods: Modifiers, atom: Atom, backward: bool, base: nat,
                                      depth: nat, first: nat, total: nat)
    requires WellFormed(atom, first, total, false)
    requires AllRefersBelow(CodeAtom(canonicalize, mods, atom, backward, base, depth), total)
    ensures WellFormed(atom, first, total, true)
    decreases atom, 0
  {
    hide CodeAlternativesTo;
    hide AlternativesLength;
    hide WellFormedAlternatives;
    var code := CodeAtom(canonicalize, mods, atom, backward, base, depth);
    match atom
    case BackReference(captures) =>
      assert RefersBelow(code[0], total);
    case LookAround(negative, inner, expression) =>
      var body := CodeAlternatives(canonicalize, mods, expression.alternatives, inner, base + 1, depth);
      PartRefersBelow([LookAhead(negative, base + |body| + 2)], body, [LookAheadEnd(negative)], total);
      AlternativesRefer(canonicalize, mods, expression.alternatives, inner, base + 1, depth, first, total, base + 1 + |body|);
    case Group(None, modifiers, expression) =>
      AlternativesRefer(canonicalize, Inner(mods, modifiers), expression.alternatives, backward, base, depth, first, total,
                        base + |code|);
    case Group(Some(capture), modifiers, expression) =>
      var body := CodeAlternatives(canonicalize, Inner(mods, modifiers), expression.alternatives, backward, base + 1, depth);
      PartRefersBelow([OpenGroup(capture, backward)], body, [CloseGroup(capture, backward)], total);
      AlternativesRefer(canonicalize, Inner(mods, modifiers), expression.alternatives, backward, base + 1, depth, first + 1,
                        total, base + 1 + |body|);
    case _ =>
  }

  lemma {:induction false} AlternativesRefer(canonicalize: Canonicalize, mods: Modifiers, alternatives: seq<Sequence>,
                                             backward: bool, base: nat, depth: nat, first: nat, total: nat, end: nat)
    requires WellFormedAlternatives(alternatives, first, total, false)
    requires AllRefersBelow(CodeAlternativesTo(canonicalize, mods, alternatives, backward, base, depth, end), total)
    ensures WellFormedAlternatives(alternatives, first, total, true)
    decreases alternatives, 0
  {
    hide CodeTerms;
    hide WellFormedTerms;
    hide TermsGroups;
    if |alternatives| == 1 {
      TermsRefer(canonicalize, mods, alternatives[0].terms, backward, base, depth, first, total);
    } else if alternatives != [] {
      var code := CodeTerms(canonicalize, mods, alternatives[0].terms, backward, base + 1, depth);
      var next := base + |code| + 2;
      var rest := CodeAlternativesTo(canonicalize, mods, alternatives[1..], backward, next, depth, end);
      var all := [Split(base + 1, next)] + code + [Jump(end)] + rest;
      assert all == [Split(base + 1, next)] + code + ([Jump(end)] + rest);
      PartRefersBelow([Split(base + 1, next)], code, [Jump(end)] + rest, total);
      assert all == ([Split(base + 1, next)] + code + [Jump(end)]) + rest + [];
      PartRefersBelow([Split(base + 1, next)] + code + [Jump(end)], rest, [], total);
      TermsRefer(canonicalize, mods, alternatives[0].terms, backward, base + 1, depth, first, total);
      AlternativesRefer(canonicalize, mods, alternatives[1..], backward, next, depth,
                        first + TermsGroups(alternatives[0].terms), total, end);
    }
  }

  lemma {:induction false} TermsRefer(canonicalize: Canonicalize, mods: Modifiers, terms: seq<Term>, backward: bool, base: nat,
                                      depth: nat, first: nat, total: nat)
    requires WellFormedTerms(terms, first, total, false)
    requires AllRefersBelow(CodeTerms(canonicalize, mods, terms, backward, base, depth), total)
    ensures WellFormedTerms(terms, first, total, true)
    decreases terms, 0
  {
    hide CodeTerm;
    if terms != [] {
      var term, rest := First(terms, backward), Rest(terms, backward);
      WellFormedFirstRest(terms, backward, first, total, false);
      WellFormedFirstRest(terms, backward, first, total, true);
      var code := CodeTerm(canonicalize, mods, term, backward, base, depth);
      var code' := CodeTerms(canonicalize, mods, rest, backward, base + |code|, depth);
      assert code + code' == [] + code + code' == code + code' + [];
      PartRefersBelow([], code, code', total);
      PartRefersBelow(code, code', [], total);
      TermRefers(canonicalize, mods, term, backward, base, depth, FirstGroup(terms, backward, first), total);
      TermsRefer(canonicalize, mods, rest, backward, base + |code|, depth, RestGroup(terms, backward, first), total);
    }
  }

  lemma {:induction false} TermRefers(canonicalize: Canonicalize, mods: Modifiers, term: Term, backward: bool, base: nat,
                                      depth: nat, first: nat, total: nat)
    requires WellFormedTerm(term, first, total, false)
    requires AllRefersBelow(CodeTerm(canonicalize, mods, term, backward, base, depth), total)
    ensures WellFormedTerm(term, first, total, true)
    decreases term, 0
  {
    hide CodeQuantified;
    hide WellFormed;
    if term.quantifier.None? {
      AtomRefers(canonicalize, mods, term.atom, backward, base, depth, first, total);
    } else if !Dropped(term) {
      var base', depth' := RepeatedCode(canonicalize, mods, term.atom, term.quantifier.value, backward, base, depth, total);
      AtomRefers(canonicalize, mods, term.atom, backward, base', depth', first, total);
    }
  }

  /** The code of an atom that is repeated at all holds the code of the atom itself. */
  lemma RepeatedCode(canonicalize: Canonicalize, mods: Modifiers, atom: Atom, q: Quantifier, backward: bool, base: nat,
                     depth: nat, total: nat) returns (base': nat, depth': nat)
    requires q.maximum != Some(0)
    requires AllRefersBelow(CodeQuantified(canonicalize, mods, atom, q, backward, base, depth), total)
    ensures AllRefersBelow(CodeAtom(canonicalize, mods, atom, backward, base', depth'), total)
  {
    hide CaptureRange;
    hide AllRefersBelow;
    hide CodeOptional;
    hide CodeAtom;
    hide CodeIteration;
    hide CodeBody;
    var required := CodeRequired(canonicalize, mods, atom, q.minimum, backward, base, depth);
    var optional := CodeOptional(canonicalize, mods, atom, Remaining(q), q.greedy, backward, base + |required|, depth);
    assert required + optional == [] + required + optional == required + optional + [];
    PartRefersBelow([], required, optional, total);
    PartRefersBelow(required, optional, [], total);
    if q.minimum == 0 {
      base', depth' := OptionalCodeRefers(canonicalize, mods, atom, Remaining(q), q.greedy, backward, base + |required|, depth, total);
    } else if q.minimum == 1 {
      base', depth' := IterationRefers(canonicalize, mods, atom, backward, base, depth, total);
    } else {
      PartRefersBelow([SetRegister(depth, q.minimum)],
                      CodeIteration(canonicalize, mods, atom, backward, base + 1, depth + 1), [Loop(depth, base + 1)], total);
      base', depth' := IterationRefers(canonicalize, mods, atom, backward, base + 1, depth + 1, total);
    }
  }

  lemma IterationRefers(canonicalize: Canonicalize, mods: Modifiers, atom: Atom, backward: bool, base: nat, depth: nat, total: nat)
    returns (base': nat, depth': nat)
    requires AllRefersBelow(CodeIteration(canonicalize, mods, atom, backward, base, depth), total)
    ensures AllRefersBelow(CodeAtom(canonicalize, mods, atom, backward, base', depth'), total)
  {
    hide CodeAtom;
    hide CaptureRange;
    var reset := CodeReset(CaptureRange(atom));
    base', depth' := base + |reset|, depth;
    var code := CodeAtom(canonicalize, mods, atom, backward, base', depth);
    assert reset + code == reset + code + [];
    PartRefersBelow(reset, code, [], total);
  }

  lemma OptionalCodeRefers(canonicalize: Canonicalize, mods: Modifiers, atom: Atom, count: Option<nat>, greedy: bool,
                           backward: bool, base: nat, depth: nat, total: nat) returns (base': nat, depth': nat)
    requires count != Some(0)
    requires AllRefersBelow(CodeOptional(canonicalize, mods, atom, count, greedy, backward, base, depth), total)
    ensures AllRefersBelow(CodeAtom(canonicalize, mods, atom, backward, base', depth'), total)
  {
    hide CodeAtom;
    hide CodeBody;
    if Counted(count) {
      var body := CodeBody(canonicalize, mods, atom, backward, base + 2, depth + 1);
      PartRefersBelow([SetRegister(depth, count.value), PreferredSplit(base + 2, base + |body| + 3, greedy)], body,
                      [Loop(depth, base + 1)], total);
      base', depth' := BodyRefers(canonicalize, mods, atom, backward, base + 2, depth + 1, total);
    } else {
      var body := CodeBody(canonicalize, mods, atom, backward, base + 1, depth);
      var last := if count.None? then [Jump(base)] else [];
      PartRefersBelow([PreferredSplit(base + 1, base + 1 + |body| + |last|, greedy)], body, last, total);
      base', depth' := BodyRefers(canonicalize, mods, atom, backward, base + 1, depth, total);
    }
  }

  lemma BodyRefers(canonicalize: Canonicalize, mods: Modifiers, atom: Atom, backward: bool, base: nat, depth: nat, total: nat)
    returns (base': nat, depth': nat)
    requires AllRefersBelow(CodeBody(canonicalize, mods, atom, backward, base, depth), total)
    ensures AllRefersBelow(CodeAtom(canonicalize, mods, atom, backward, base', depth'), total)
  {
    hide CodeAtom;
    hide CodeIteration;
    hide CanMatchEmpty;
    if CanMatchEmpty(atom) {
      PartRefersBelow([SavePosition(depth)], CodeIteration(canonicalize, mods, atom, backward, base + 1, depth + 1),
                      [CheckAdvance(depth)], total);
      base', depth' := IterationRefers(canonicalize, mods, atom, backward, base + 1, depth + 1, total);
    } else {
      base', depth' := IterationRefers(canonicalize, mods, atom, backward, base, depth, total);
    }
  }

  /** The code of an arranged pattern is valid exactly when no emitted reference is out of range. */
  lemma ValidIffInRange(canonicalize: Canonicalize, mods: Modifiers, expression: Expression, total: nat, registers: nat)
    requires ArrangedPattern(expression, total) && CanonicalizeInRange(canonicalize)
    requires AlternativesRegisters(expression.alternatives) <= registers
    ensures ValidProgram(Program(canonicalize, mods, expression), total, registers) <==> ValidPattern(expression, total)
  {
    hide CodeAlternativesTo;
    hide WellFormedAlternatives;
    hide Opened;
    hide SecondPass;
    var program, code := Program(canonicalize, mods, expression), CodeAlternatives(canonicalize, mods, expression.alternatives, false, 1, 0);
    if ValidPattern(expression, total) {
      ProgramIsValid(canonicalize, mods, expression, total, registers);
    } else if ValidProgram(program, total, registers) {
      forall pc | 0 <= pc < |program|
        ensures RefersBelow(program[pc], total)
      {
        assert FirstPass(program, total, registers, pc);
      }
      PartRefersBelow([SaveStart(0)], code, [SaveEnd(0), Match], total);
      AlternativesRefer(canonicalize, mods, expression.alternatives, false, 1, 0, 1, total, 1 + |code|);
    }
  }
}
