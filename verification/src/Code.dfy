/**
 The instructions emitted for each pattern node, as a function of the node, the
 index of its first instruction and the number of registers already in use.
 Module CodeBuilder proves that the emitting and patching code produces exactly
 these sequences.
 */
module Code {
  import opened Basics
  import opened Pattern
  import opened Machine

  type Canonicalize = nat -> nat

  function Guard(backward: bool): seq<Instruction> {
    if backward then [Prev] else []
  }

  function Guarded(backward: bool, instruction: Instruction): seq<Instruction> {
    Guard(backward) + [instruction] + Guard(backward)
  }

  function CodeReset(range: Option<(nat, nat)>): seq<Instruction> {
    if range.Some? then [ResetCaptures(range.value.0, range.value.1)] else []
  }

  function PreferredSplit(body: nat, after: nat, greedy: bool): Instruction {
    if greedy then Split(body, after) else Split(after, body)
  }

  // ---- Classes ----

  function StringCode(characters: seq<nat>, ignoreCase: bool): (r: seq<Instruction>)
    ensures |r| == |characters|
  {
    if characters == [] then []
    else [Char(characters[0], ignoreCase)] + StringCode(characters[1..], ignoreCase)
  }

  function StringParts(strings: seq<seq<nat>>, ignoreCase: bool): (r: seq<seq<Instruction>>)
    ensures |r| == |strings|
  {
    if strings == [] then []
    else [StringCode(strings[0], ignoreCase)] + StringParts(strings[1..], ignoreCase)
  }

  predicate HasRange(class_: CharacterClass) {
    class_.inverted || class_.ranges != [] || class_.strings == []
  }

  /** One straight-line piece of code per alternative of the class. */
  function ClassParts(class_: CharacterClass, ignoreCase: bool): seq<seq<Instruction>> {
    StringParts(LongestFirst(class_.strings), ignoreCase)
    + ((if HasRange(class_) then [[Range(class_.ranges, class_.inverted, ignoreCase)]] else [])
       + (if [] in class_.strings then [[]] else []))
  }

  /** Try the parts in order; the jumps lead to `end`. */
  function Chain(parts: seq<seq<Instruction>>, base: nat, end: nat): seq<Instruction> {
    if parts == [] then []
    else if |parts| == 1 then parts[0]
    else
      var next := base + |parts[0]| + 2;
      [Split(base + 1, next)] + parts[0] + [Jump(end)] + Chain(parts[1..], next, end)
  }

  function ChainLength(parts: seq<seq<Instruction>>): nat {
    if parts == [] then 0
    else if |parts| == 1 then |parts[0]|
    else |parts[0]| + 2 + ChainLength(parts[1..])
  }

  function CodeClass(mods: Modifiers, class_: CharacterClass, backward: bool, base: nat): seq<Instruction> {
    var parts := ClassParts(class_, mods.ignoreCase);
    var start := base + |Guard(backward)|;
    Guard(backward) + Chain(parts, start, start + ChainLength(parts)) + Guard(backward)
  }

  // ---- Registers ----

  function Flag(b: bool): nat {
    if b then 1 else 0
  }

  /** How many registers the code of a node uses above those already in use. */
  function AtomRegisters(atom: Atom): nat
    decreases atom, 0
  {
    match atom
    case LookAround(_, _, expression) => AlternativesRegisters(expression.alternatives)
    case Group(_, _, expression) => AlternativesRegisters(expression.alternatives)
    case _ => 0
  }

  function AlternativesRegisters(alternatives: seq<Sequence>): nat
    decreases alternatives, 0
  {
    if alternatives == [] then 0
    else Max(TermsRegisters(alternatives[0].terms), AlternativesRegisters(alternatives[1..]))
  }

  function TermsRegisters(terms: seq<Term>): nat
    decreases terms, 0
  {
    if terms == [] then 0 else Max(TermRegisters(terms[0]), TermsRegisters(terms[1..]))
  }

  lemma {:induction false} RegistersFirstRest(terms: seq<Term>, backward: bool)
    requires terms != []
    ensures TermsRegisters(terms) == Max(TermRegisters(First(terms, backward)), TermsRegisters(Rest(terms, backward)))
    decreases |terms|
  {
    if backward && |terms| > 1 {
      RegistersFirstRest(terms[1..], true);
      assert terms[1..][..|terms| - 2] == terms[..|terms| - 1][1..];
    }
  }

  function TermRegisters(term: Term): nat
    decreases term, 0
  {
    match term.quantifier
    case None => AtomRegisters(term.atom)
    case Some(q) =>
      if q.maximum == Some(0) then 0
      else Max(RequiredRegisters(term.atom, q.minimum), OptionalRegisters(term.atom, Remaining(q)))
  }

  /** How many iterations may follow the required ones; `None` is unbounded. */
  function Remaining(q: Quantifier): Option<nat> {
    if q.maximum.None? then None
    else if q.maximum.value <= q.minimum then Some(0)
    else Some(q.maximum.value - q.minimum)
  }

  function RequiredRegisters(atom: Atom, count: nat): nat
    decreases atom, 1
  {
    if count == 0 then 0 else Flag(count > 1) + AtomRegisters(atom)
  }

  function OptionalRegisters(atom: Atom, count: Option<nat>): nat
    decreases atom, 1
  {
    if count == Some(0) then 0
    else Flag(Counted(count)) + Flag(CanMatchEmpty(atom)) + AtomRegisters(atom)
  }

  predicate Counted(count: Option<nat>) {
    count.Some? && count.value > 1
  }

  // ---- Nodes ----

  function CodeAtom(canonicalize: Canonicalize, mods: Modifiers, atom: Atom, backward: bool, base: nat, depth: nat)
    : seq<Instruction>
    decreases atom, 0
  {
    match atom
    case Literal(value) =>
      Guarded(backward, Char(if mods.ignoreCase then canonicalize(value) else value, mods.ignoreCase))
    case Dot => Guarded(backward, if mods.dotAll then Any else Instruction.Dot)
    case LineStart => [Instruction.LineStart(mods.multiline)]
    case LineEnd => [Instruction.LineEnd(mods.multiline)]
    case WordBoundary(inverted) => [Instruction.WordBoundary(inverted, mods.ignoreCase)]
    case Space(inverted) => Guarded(backward, Instruction.Space(inverted))
    case Class(class_) => CodeClass(mods, class_, backward, base)
    case BackReference(captures) =>
      if backward then [BackwardBackReference(captures, mods.ignoreCase)]
      else [Instruction.BackReference(captures, mods.ignoreCase)]
    case LookAround(negative, inner, expression) =>
      var body := CodeAlternatives(canonicalize, mods, expression.alternatives, inner, base + 1, depth);
      [LookAhead(negative, base + |body| + 2)] + body + [LookAheadEnd(negative)]
    case Group(None, modifiers, expression) =>
      CodeAlternatives(canonicalize, Inner(mods, modifiers), expression.alternatives, backward, base, depth)
    case Group(Some(capture), modifiers, expression) =>
      [OpenGroup(capture, backward)]
      + CodeAlternatives(canonicalize, Inner(mods, modifiers), expression.alternatives, backward, base + 1, depth)
      + [CloseGroup(capture, backward)]
  }

  function Inner(mods: Modifiers, modifiers: Option<Modifiers>): Modifiers {
    if modifiers.Some? then modifiers.value else mods
  }

  function OpenGroup(capture: nat, backward: bool): Instruction {
    if backward then SaveEnd(capture) else SaveStart(capture)
  }

  function CloseGroup(capture: nat, backward: bool): Instruction {
    if backward then SaveStart(capture) else SaveEnd(capture)
  }

  function AlternativesLength(canonicalize: Canonicalize, mods: Modifiers, alternatives: seq<Sequence>, backward: bool,
                              base: nat, depth: nat): nat
    decreases alternatives, 0
  {
    if alternatives == [] then 0
    else if |alternatives| == 1 then
      |CodeTerms(canonicalize, mods, alternatives[0].terms, backward, base, depth)|
    else
      var first := |CodeTerms(canonicalize, mods, alternatives[0].terms, backward, base + 1, depth)|;
      first + 2 + AlternativesLength(canonicalize, mods, alternatives[1..], backward, base + first + 2, depth)
  }

  function CodeAlternatives(canonicalize: Canonicalize, mods: Modifiers, alternatives: seq<Sequence>, backward: bool,
                            base: nat, depth: nat): seq<Instruction>
    decreases alternatives, 2
  {
    CodeAlternativesTo(canonicalize, mods, alternatives, backward, base, depth,
                       base + AlternativesLength(canonicalize, mods, alternatives, backward, base, depth))
  }

  /** As `CodeAlternatives`, with the jumps out of the alternatives leading to `end`. */
  function CodeAlternativesTo(canonicalize: Canonicalize, mods: Modifiers, alternatives: seq<Sequence>, backward: bool,
                              base: nat, depth: nat, end: nat): (r: seq<Instruction>)
    ensures |r| == AlternativesLength(canonicalize, mods, alternatives, backward, base, depth)
    decreases alternatives, 1
  {
    if alternatives == [] then []
    else if |alternatives| == 1 then CodeTerms(canonicalize, mods, alternatives[0].terms, backward, base, depth)
    else
      var first := CodeTerms(canonicalize, mods, alternatives[0].terms, backward, base + 1, depth);
      var next := base + |first| + 2;
      [Split(base + 1, next)] + first + [Jump(end)]
      + CodeAlternativesTo(canonicalize, mods, alternatives[1..], backward, next, depth, end)
  }

  function CodeTerms(canonicalize: Canonicalize, mods: Modifiers, terms: seq<Term>, backward: bool, base: nat, depth: nat)
    : seq<Instruction>
    decreases terms, 0
  {
    if terms == [] then []
    else
      var code := CodeTerm(canonicalize, mods, First(terms, backward), backward, base, depth);
      code + CodeTerms(canonicalize, mods, Rest(terms, backward), backward, base + |code|, depth)
  }

  function CodeTerm(canonicalize: Canonicalize, mods: Modifiers, term: Term, backward: bool, base: nat, depth: nat)
    : seq<Instruction>
    decreases term, 0
  {
    match term.quantifier
    case None => CodeAtom(canonicalize, mods, term.atom, backward, base, depth)
    case Some(q) => CodeQuantified(canonicalize, mods, term.atom, q, backward, base, depth)
  }

  function CodeQuantified(canonicalize: Canonicalize, mods: Modifiers, atom: Atom, q: Quantifier, backward: bool,
                          base: nat, depth: nat): seq<Instruction>
    decreases atom, 4
  {
    if q.maximum == Some(0) then CodeReset(CaptureRange(atom))
    else
      var required := CodeRequired(canonicalize, mods, atom, q.minimum, backward, base, depth);
      required
      + CodeOptional(canonicalize, mods, atom, Remaining(q), q.greedy, backward, base + |required|, depth)
  }

  function CodeIteration(canonicalize: Canonicalize, mods: Modifiers, atom: Atom, backward: bool, base: nat, depth: nat)
    : seq<Instruction>
    decreases atom, 1
  {
    var reset := CodeReset(CaptureRange(atom));
    reset + CodeAtom(canonicalize, mods, atom, backward, base + |reset|, depth)
  }

  function CodeRequired(canonicalize: Canonicalize, mods: Modifiers, atom: Atom, count: nat, backward: bool,
                        base: nat, depth: nat): seq<Instruction>
    decreases atom, 2
  {
    if count == 0 then CodeReset(CaptureRange(atom))
    else if count == 1 then CodeIteration(canonicalize, mods, atom, backward, base, depth)
    else
      [SetRegister(depth, count)]
      + CodeIteration(canonicalize, mods, atom, backward, base + 1, depth + 1)
      + [Loop(depth, base + 1)]
  }

  /** One optional iteration, guarded against matching the empty string when it could. */
  function CodeBody(canonicalize: Canonicalize, mods: Modifiers, atom: Atom, backward: bool, base: nat, depth: nat)
    : seq<Instruction>
    decreases atom, 2
  {
    if CanMatchEmpty(atom) then
      [SavePosition(depth)]
      + CodeIteration(canonicalize, mods, atom, backward, base + 1, depth + 1)
      + [CheckAdvance(depth)]
    else CodeIteration(canonicalize, mods, atom, backward, base, depth)
  }

  /** Up to `count` optional iterations. */
  function CodeOptional(canonicalize: Canonicalize, mods: Modifiers, atom: Atom, count: Option<nat>, greedy: bool,
                        backward: bool, base: nat, depth: nat): seq<Instruction>
    decreases atom, 3
  {
    if count == Some(0) then []
    else if Counted(count) then
      var body := CodeBody(canonicalize, mods, atom, backward, base + 2, depth + 1);
      [SetRegister(depth, count.value), PreferredSplit(base + 2, base + |body| + 3, greedy)]
      + body + [Loop(depth, base + 1)]
    else
      var body := CodeBody(canonicalize, mods, atom, backward, base + 1, depth);
      var last := if count.None? then [Jump(base)] else [];
      [PreferredSplit(base + 1, base + 1 + |body| + |last|, greedy)] + body + last
  }

  /** The program of a pattern: group 0 around the whole expression, then a match. */
  function Program(canonicalize: Canonicalize, mods: Modifiers, expression: Expression): seq<Instruction> {
    [SaveStart(0)]
    + CodeAlternatives(canonicalize, mods, expression.alternatives, false, 1, 0)
    + [SaveEnd(0), Match]
  }
}
