/**
 The code generator: it appends instructions, reserves registers in stack order
 and patches branch targets once they are known. Each method is proved to append
 exactly the code that module Code defines, or to report that the 255 registers
 do not suffice.
 */
module CodeBuilder {
  import opened Basics
  import opened Pattern
  import opened Machine
  import opened Code

  const MAX_REGISTERS: nat := 255

  /** Placeholder of a target that is not known yet. */
  const UNKNOWN: nat := U64_MAX

  datatype CompileError = TooManyRegisters

  // ---- Patching ----

  function PatchJumps(code: seq<Instruction>, jumps: seq<nat>, end: nat): (r: seq<Instruction>)
    requires forall i :: 0 <= i < |jumps| ==> jumps[i] < |code|
    ensures |r| == |code|
    decreases |jumps|
  {
    if jumps == [] then code else PatchJumps(code[jumps[0] := Jump(end)], jumps[1..], end)
  }

  lemma PatchOne(before: seq<Instruction>, from: nat, end: nat, after: seq<Instruction>)
    ensures (before + [Jump(from)] + after)[|before| := Jump(end)] == before + [Jump(end)] + after
  {
  }

  function ChainJumps(parts: seq<seq<Instruction>>, base: nat): (r: seq<nat>)
    ensures forall i :: 0 <= i < |r| ==> r[i] < base + ChainLength(parts)
    decreases |parts|
  {
    if |parts| <= 1 then []
    else
      var jump := base + 1 + |parts[0]|;
      [jump] + ChainJumps(parts[1..], jump + 1)
  }

  lemma {:induction false} PatchedChain(parts: seq<seq<Instruction>>, before: seq<Instruction>, from: nat, end: nat)
    ensures |Chain(parts, |before|, from)| == ChainLength(parts)
    ensures PatchJumps(before + Chain(parts, |before|, from), ChainJumps(parts, |before|), end)
         == before + Chain(parts, |before|, end)
    decreases |parts|
  {
    if |parts| > 1 {
      var base := |before|;
      var next := base + |parts[0]| + 2;
      var head := before + [Split(base + 1, next)] + parts[0];
      var rest, rest' := Chain(parts[1..], next, from), Chain(parts[1..], next, end);
      assert before + Chain(parts, base, from) == head + [Jump(from)] + rest;
      PatchedChain(parts[1..], head + [Jump(end)], from, end);
      PatchOne(head, from, end, rest);
      var jumps := ChainJumps(parts, base);
      assert jumps[0] == |head| && jumps[1..] == ChainJumps(parts[1..], next);
      assert before + Chain(parts, base, end) == head + [Jump(end)] + rest';
    }
  }

  /** The pieces of code of the alternatives of an expression. */
  function AlternativesParts(canonicalize: Canonicalize, mods: Modifiers, alternatives: seq<Sequence>, backward: bool,
                             base: nat, depth: nat): (r: seq<seq<Instruction>>)
    ensures |r| == |alternatives|
    decreases |alternatives|
  {
    if alternatives == [] then []
    else
      var start := if |alternatives| == 1 then base else base + 1;
      var first := CodeTerms(canonicalize, mods, alternatives[0].terms, backward, start, depth);
      [first] + AlternativesParts(canonicalize, mods, alternatives[1..], backward, start + |first| + 1, depth)
  }

  lemma {:induction false} AlternativesAreChain(canonicalize: Canonicalize, mods: Modifiers, alternatives: seq<Sequence>,
                                                backward: bool, base: nat, depth: nat, end: nat)
    ensures CodeAlternativesTo(canonicalize, mods, alternatives, backward, base, depth, end)
         == Chain(AlternativesParts(canonicalize, mods, alternatives, backward, base, depth), base, end)
    ensures AlternativesLength(canonicalize, mods, alternatives, backward, base, depth)
         == ChainLength(AlternativesParts(canonicalize, mods, alternatives, backward, base, depth))
    decreases |alternatives|
  {
    hide CodeTerms;
    if |alternatives| > 1 {
      var first := CodeTerms(canonicalize, mods, alternatives[0].terms, backward, base + 1, depth);
      var rest := AlternativesParts(canonicalize, mods, alternatives[1..], backward, base + |first| + 2, depth);
      AlternativesAreChain(canonicalize, mods, alternatives[1..], backward, base + |first| + 2, depth, end);
      assert ([first] + rest)[1..] == rest;
    }
  }

  // ---- Emitting a chain of alternatives piece by piece ----

  /** The first `k` parts have been emitted after `before`, with their jumps still open. */
  ghost predicate Ongoing(before: seq<Instruction>, parts: seq<seq<Instruction>>, k: nat, code: seq<Instruction>,
                          jumps: seq<nat>)
  {
    && k <= |parts|
    && code + Chain(parts[k..], |code|, UNKNOWN) == before + Chain(parts, |before|, UNKNOWN)
    && jumps + ChainJumps(parts[k..], |code|) == ChainJumps(parts, |before|)
  }

  lemma OngoingStart(before: seq<Instruction>, parts: seq<seq<Instruction>>)
    ensures Ongoing(before, parts, 0, before, [])
  {
    assert parts[0..] == parts;
    assert [] + ChainJumps(parts, |before|) == ChainJumps(parts, |before|);
  }

  /** One part that is not the last. */
  lemma OngoingNext(before: seq<Instruction>, parts: seq<seq<Instruction>>, k: nat, code: seq<Instruction>,
                    jumps: seq<nat>)
    requires Ongoing(before, parts, k, code, jumps) && k + 1 < |parts|
    ensures var next := |code| + |parts[k]| + 2;
            Ongoing(before, parts, k + 1, code + [Split(|code| + 1, next)] + parts[k] + [Jump(UNKNOWN)],
                    jumps + [next - 1])
  {
    var next := |code| + |parts[k]| + 2;
    assert parts[k..][0] == parts[k] && parts[k..][1..] == parts[k + 1..];
    var code' := code + [Split(|code| + 1, next)] + parts[k] + [Jump(UNKNOWN)];
    calc {
      code' + Chain(parts[k + 1..], |code'|, UNKNOWN);
      code + ([Split(|code| + 1, next)] + parts[k] + [Jump(UNKNOWN)] + Chain(parts[k + 1..], next, UNKNOWN));
      code + Chain(parts[k..], |code|, UNKNOWN);
    }
    assert (jumps + [next - 1]) + ChainJumps(parts[k + 1..], next) == jumps + ([next - 1] + ChainJumps(parts[k + 1..], next));
  }

  /** The last part. */
  lemma OngoingLast(before: seq<Instruction>, parts: seq<seq<Instruction>>, k: nat, code: seq<Instruction>,
                    jumps: seq<nat>)
    requires Ongoing(before, parts, k, code, jumps) && k + 1 == |parts|
    ensures Ongoing(before, parts, k + 1, code + parts[k], jumps)
  {
    assert parts[k..] == [parts[k]] && parts[k + 1..] == [];
    assert (code + parts[k]) + [] == code + parts[k];
  }

  lemma OngoingAll(before: seq<Instruction>, parts: seq<seq<Instruction>>, code: seq<Instruction>, jumps: seq<nat>)
    requires Ongoing(before, parts, |parts|, code, jumps)
    ensures code == before + Chain(parts, |before|, UNKNOWN) && jumps == ChainJumps(parts, |before|)
  {
    assert parts[|parts|..] == [];
    assert Chain([], |code|, UNKNOWN) == [] && ChainJumps([], |code|) == [];
    assert code + [] == code && jumps + [] == jumps;
  }

  /** All parts are emitted; patching the jumps completes the chain. */
  lemma OngoingDone(before: seq<Instruction>, parts: seq<seq<Instruction>>, code: seq<Instruction>, jumps: seq<nat>)
    requires Ongoing(before, parts, |parts|, code, jumps)
    ensures |code| == |before| + ChainLength(parts)
    ensures forall i :: 0 <= i < |jumps| ==> jumps[i] < |code|
    ensures PatchJumps(code, jumps, |code|) == before + Chain(parts, |before|, |code|)
  {
    hide Ongoing;
    hide Chain;
    hide PatchJumps;
    OngoingAll(before, parts, code, jumps);
    PatchedChain(parts, before, UNKNOWN, |code|);
  }

  lemma PatchSplit(before: seq<Instruction>, part: seq<Instruction>, split: Instruction)
    ensures (before + [Split(UNKNOWN, UNKNOWN)] + part + [Jump(UNKNOWN)])[|before| := split]
         == before + [split] + part + [Jump(UNKNOWN)]
  {
  }

  lemma UncountedShape(canonicalize: Canonicalize, mods: Modifiers, atom: Atom, count: Option<nat>, greedy: bool,
                       backward: bool, base: nat, depth: nat)
    requires count == Some(1) || count == None
    ensures var body := CodeBody(canonicalize, mods, atom, backward, base + 1, depth);
            var last := if count.None? then [Jump(base)] else [];
            CodeOptional(canonicalize, mods, atom, count, greedy, backward, base, depth) ==
              [PreferredSplit(base + 1, base + 1 + |body| + |last|, greedy)] + body + last
  {
    hide CodeBody;
  }

  lemma CountedShape(canonicalize: Canonicalize, mods: Modifiers, atom: Atom, count: nat, greedy: bool,
                     backward: bool, base: nat, depth: nat)
    requires count > 1
    ensures var body := CodeBody(canonicalize, mods, atom, backward, base + 2, depth + 1);
            CodeOptional(canonicalize, mods, atom, Some(count), greedy, backward, base, depth) ==
              [SetRegister(depth, count), PreferredSplit(base + 2, base + |body| + 3, greedy)] + body + [Loop(depth, base + 1)]
  {
    hide CodeBody;
  }

  /** Patching the placeholder that was emitted before the rest. */
  lemma PatchAfter(before: seq<Instruction>, placeholder: Instruction, rest: seq<Instruction>, patched: Instruction)
    ensures (before + [placeholder] + rest)[|before| := patched] == before + ([patched] + rest)
  {
  }

  class Builder {
    const canonicalize: Canonicalize
    var instructions: seq<Instruction>
    var registerDepth: nat
    var maxRegisters: nat
    var modifiers: Modifiers

    ghost predicate Valid()
      reads this
    {
      registerDepth <= maxRegisters <= MAX_REGISTERS
    }

    constructor (canonicalize: Canonicalize, modifiers: Modifiers)
      ensures Valid() && instructions == [] && registerDepth == 0 && maxRegisters == 0
      ensures this.modifiers == modifiers && this.canonicalize == canonicalize
    {
      this.canonicalize, this.modifiers := canonicalize, modifiers;
      instructions, registerDepth, maxRegisters := [], 0, 0;
    }

    method Emit(instruction: Instruction) returns (index: nat)
      modifies this`instructions
      ensures index == old(|instructions|) && instructions == old(instructions) + [instruction]
    {
      index := |instructions|;
      instructions := instructions + [instruction];
    }

    method PatchJumpsTo(jumps: seq<nat>, end: nat)
      requires forall i :: 0 <= i < |jumps| ==> jumps[i] < |instructions|
      modifies this`instructions
      ensures instructions == PatchJumps(old(instructions), jumps, end)
    {
      var i := 0;
      assert jumps[0..] == jumps;
      while i < |jumps|
        invariant i <= |jumps| && |instructions| == old(|instructions|)
        invariant PatchJumps(instructions, jumps[i..], end) == PatchJumps(old(instructions), jumps, end)
      {
        assert jumps[i..][0] == jumps[i] && jumps[i..][1..] == jumps[i + 1..];
        instructions := instructions[jumps[i] := Jump(end)];
        i := i + 1;
      }
    }

    method AllocateRegister() returns (r: Result<nat, CompileError>)
      requires Valid()
      modifies this`registerDepth, this`maxRegisters
      ensures Valid()
      ensures r.Ok? <==> old(registerDepth) < MAX_REGISTERS
      ensures r.Ok? ==> r.value == old(registerDepth) && registerDepth == old(registerDepth) + 1
                        && maxRegisters == Max(old(maxRegisters), registerDepth)
    {
      if registerDepth >= MAX_REGISTERS {
        return Err(TooManyRegisters);
      }
      r := Ok(registerDepth);
      registerDepth := registerDepth + 1;
      maxRegisters := Max(maxRegisters, registerDepth);
    }

    method ReleaseRegister(register: nat)
      requires registerDepth == register + 1
      modifies this`registerDepth
      ensures registerDepth == register
    {
      registerDepth := registerDepth - 1;
    }

    method EmitGuard(backward: bool)
      modifies this`instructions
      ensures instructions == old(instructions) + Guard(backward)
    {
      if backward {
        var _ := Emit(Prev);
      }
    }

    method EmitGuarded(backward: bool, instruction: Instruction)
      modifies this`instructions
      ensures instructions == old(instructions) + Guarded(backward, instruction)
    {
      EmitGuard(backward);
      var _ := Emit(instruction);
      EmitGuard(backward);
    }

    method EmitCaptureReset(range: Option<(nat, nat)>)
      modifies this`instructions
      ensures instructions == old(instructions) + CodeReset(range)
    {
      if range.Some? {
        var _ := Emit(ResetCaptures(range.value.0, range.value.1));
      }
    }

    // ---- Classes ----

    method EmitAll(code: seq<Instruction>)
      modifies this`instructions
      ensures instructions == old(instructions) + code
    {
      for i := 0 to |code|
        invariant instructions == old(instructions) + code[..i]
      {
        var _ := Emit(code[i]);
      }
    }

    /** Every alternative of a class but the last is preceded by a split. */
    method BeginAlternative(last: bool) returns (split: Option<nat>)
      modifies this`instructions
      ensures split == if last then None else Some(old(|instructions|))
      ensures instructions == old(instructions) + if last then [] else [Split(UNKNOWN, UNKNOWN)]
    {
      if last {
        return None;
      }
      var index := Emit(Split(UNKNOWN, UNKNOWN));
      return Some(index);
    }

    method EndAlternative(split: Option<nat>, jumps: seq<nat>) returns (jumps': seq<nat>)
      requires split.Some? ==> split.value < |instructions|
      modifies this`instructions
      ensures split.None? ==> instructions == old(instructions) && jumps' == jumps
      ensures split.Some? ==>
        && jumps' == jumps + [old(|instructions|)]
        && instructions == (old(instructions) + [Jump(UNKNOWN)])[split.value := Split(split.value + 1, old(|instructions|) + 1)]
    {
      if split.None? {
        return jumps;
      }
      var jump := Emit(Jump(UNKNOWN));
      instructions := instructions[split.value := Split(split.value + 1, |instructions|)];
      return jumps + [jump];
    }

    /** One alternative of a class. */
    method EmitPart(part: seq<Instruction>, last: bool, jumps: seq<nat>,
                    ghost before: seq<Instruction>, ghost parts: seq<seq<Instruction>>, ghost k: nat)
      returns (jumps': seq<nat>)
      requires Ongoing(before, parts, k, instructions, jumps) && k < |parts|
      requires part == parts[k] && (last <==> k + 1 == |parts|)
      modifies this`instructions
      ensures Ongoing(before, parts, k + 1, instructions, jumps')
    {
      ghost var code := instructions;
      if last {
        OngoingLast(before, parts, k, code, jumps);
      } else {
        OngoingNext(before, parts, k, code, jumps);
      }
      var split := BeginAlternative(last);
      EmitAll(part);
      jumps' := EndAlternative(split, jumps);
      if last {
        assert instructions == code + part;
      } else {
        PatchSplit(code, part, Split(|code| + 1, |code| + |part| + 2));
        assert instructions == code + [Split(|code| + 1, |code| + |part| + 2)] + part + [Jump(UNKNOWN)];
      }
    }

    method EmitStrings(strings: seq<seq<nat>>, count: nat, ghost before: seq<Instruction>,
                       ghost parts: seq<seq<Instruction>>) returns (jumps: seq<nat>)
      requires Ongoing(before, parts, 0, instructions, []) && |strings| <= |parts| == count
      requires parts[..|strings|] == StringParts(strings, modifiers.ignoreCase)
      modifies this`instructions
      ensures Ongoing(before, parts, |strings|, instructions, jumps)
    {
      jumps := [];
      for i := 0 to |strings|
        invariant Ongoing(before, parts, i, instructions, jumps)
      {
        StringPartAt(strings, modifiers.ignoreCase, i);
        assert parts[..|strings|][i] == parts[i];
        jumps := EmitPart(StringCode(strings[i], modifiers.ignoreCase), i + 1 == count, jumps, before, parts, i);
      }
    }

    method EmitClassAlternatives(class_: CharacterClass)
      modifies this`instructions
      ensures var parts := ClassParts(class_, modifiers.ignoreCase);
              var end := old(|instructions|) + ChainLength(parts);
              instructions == old(instructions) + Chain(parts, old(|instructions|), end)
    {
      hide Chain;
      hide ChainJumps;
      hide Ongoing;
      hide LongestFirst;
      hide StringParts;
      ghost var before := instructions;
      var strings, hasEmpty := LongestFirst(class_.strings), [] in class_.strings;
      var count := |strings| + (if HasRange(class_) then 1 else 0) + (if hasEmpty then 1 else 0);
      ghost var parts := ClassParts(class_, modifiers.ignoreCase);
      assert parts[..|strings|] == StringParts(strings, modifiers.ignoreCase);
      OngoingStart(before, parts);
      var jumps := EmitStrings(strings, count, before, parts);
      var index := |strings|;
      if HasRange(class_) {
        jumps := EmitPart([Range(class_.ranges, class_.inverted, modifiers.ignoreCase)], index + 1 == count, jumps,
                          before, parts, index);
        index := index + 1;
      }
      if hasEmpty {
        jumps := EmitPart([], index + 1 == count, jumps, before, parts, index);
      }
      OngoingDone(before, parts, instructions, jumps);
      PatchJumpsTo(jumps, |instructions|);
    }

    method CompileCharacterClass(class_: CharacterClass, backward: bool)
      modifies this`instructions
      ensures instructions == old(instructions) + CodeClass(modifiers, class_, backward, old(|instructions|))
    {
      hide Chain;
      hide ClassParts;
      EmitGuard(backward);
      EmitClassAlternatives(class_);
      EmitGuard(backward);
    }

    // ---- Expressions ----

    /** One alternative of an expression. */
    method CompileAlternative(terms: seq<Term>, backward: bool, last: bool, jumps: seq<nat>,
                              ghost before: seq<Instruction>, ghost parts: seq<seq<Instruction>>, ghost k: nat)
      returns (r: Result<seq<nat>, CompileError>)
      requires Valid()
      requires Ongoing(before, parts, k, instructions, jumps) && k < |parts| && (last <==> k + 1 == |parts|)
      requires parts[k] == CodeTerms(canonicalize, modifiers, terms, backward,
                                     if last then |instructions| else |instructions| + 1, registerDepth)
      modifies this
      ensures Valid()
      ensures r.Ok? <==> old(registerDepth) + TermsRegisters(terms) <= MAX_REGISTERS
      ensures r.Ok? ==>
        && Ongoing(before, parts, k + 1, instructions, r.value)
        && |instructions| == (if last then 0 else 2) + old(|instructions|) + |parts[k]|
        && modifiers == old(modifiers) && registerDepth == old(registerDepth)
        && maxRegisters == Max(old(maxRegisters), registerDepth + TermsRegisters(terms))
      decreases terms, 2
    {
      hide CodeTerms;
      hide TermsRegisters;
      ghost var code := instructions;
      if last {
        OngoingLast(before, parts, k, code, jumps);
      } else {
        OngoingNext(before, parts, k, code, jumps);
      }
      var split := BeginAlternative(last);
      assert last ==> instructions == code;
      var compiled := CompileSequence(terms, backward);
      if compiled.Err? {
        return Err(compiled.error);
      }
      var jumps' := EndAlternative(split, jumps);
      if last {
        assert instructions == code + parts[k];
      } else {
        PatchSplit(code, parts[k], Split(|code| + 1, |code| + |parts[k]| + 2));
        assert instructions == code + [Split(|code| + 1, |code| + |parts[k]| + 2)] + parts[k] + [Jump(UNKNOWN)];
      }
      return Ok(jumps');
    }

    method CompleteExpression(ghost backward: bool, ghost alternatives: seq<Sequence>, jumps: seq<nat>,
                              ghost before: seq<Instruction>, ghost parts: seq<seq<Instruction>>)
      requires parts == AlternativesParts(canonicalize, modifiers, alternatives, backward, |before|, registerDepth)
      requires Ongoing(before, parts, |parts|, instructions, jumps)
      modifies this`instructions
      ensures instructions == before + CodeAlternatives(canonicalize, modifiers, alternatives, backward, |before|,
                                                        registerDepth)
    {
      hide Ongoing;
      hide Chain;
      hide AlternativesParts;
      hide CodeAlternativesTo;
      OngoingDone(before, parts, instructions, jumps);
      AlternativesAreChain(canonicalize, modifiers, alternatives, backward, |before|, registerDepth, |instructions|);
      PatchJumpsTo(jumps, |instructions|);
    }

    method CompileExpression(expression: Expression, backward: bool) returns (r: Result<(), CompileError>)
      requires Valid()
      modifies this
      ensures Valid()
      ensures r.Ok? <==> old(registerDepth) + AlternativesRegisters(expression.alternatives) <= MAX_REGISTERS
      ensures r.Ok? ==>
        && instructions == old(instructions) + CodeAlternatives(canonicalize, old(modifiers), expression.alternatives,
                                                               backward, old(|instructions|), old(registerDepth))
        && modifiers == old(modifiers) && registerDepth == old(registerDepth)
        && maxRegisters == Max(old(maxRegisters), registerDepth + AlternativesRegisters(expression.alternatives))
      decreases expression
    {
      hide AlternativesParts;
      hide AlternativesRegisters;
      hide CodeTerms;
      hide Ongoing;
      hide Chain;
      var alternatives := expression.alternatives;
      ghost var before, depth, mods := instructions, registerDepth, modifiers;
      ghost var parts := AlternativesParts(canonicalize, mods, alternatives, backward, |before|, depth);
      OngoingStart(before, parts);
      var jumps: seq<nat> := [];
      assert alternatives[0..] == alternatives && parts[0..] == parts;
      for i := 0 to |alternatives|
        invariant Valid() && modifiers == mods && registerDepth == depth
        invariant Ongoing(before, parts, i, instructions, jumps)
        invariant parts[i..] == AlternativesParts(canonicalize, mods, alternatives[i..], backward, |instructions|, depth)
        invariant Max(maxRegisters, depth + AlternativesRegisters(alternatives[i..]))
               == Max(old(maxRegisters), depth + AlternativesRegisters(alternatives))
      {
        NextPart(canonicalize, mods, alternatives, backward, |instructions|, depth, parts, i);
        var compiled := CompileAlternative(alternatives[i].terms, backward, i + 1 == |alternatives|, jumps, before, parts, i);
        if compiled.Err? {
          return Err(compiled.error);
        }
        jumps := compiled.value;
      }
      NoAlternatives(alternatives);
      CompleteExpression(backward, alternatives, jumps, before, parts);
      return Ok(());
    }

    method CompileSequence(terms: seq<Term>, backward: bool) returns (r: Result<(), CompileError>)
      requires Valid()
      modifies this
      ensures Valid()
      ensures r.Ok? <==> old(registerDepth) + TermsRegisters(terms) <= MAX_REGISTERS
      ensures r.Ok? ==>
        && instructions == old(instructions) + CodeTerms(canonicalize, old(modifiers), terms, backward,
                                                        old(|instructions|), old(registerDepth))
        && modifiers == old(modifiers) && registerDepth == old(registerDepth)
        && maxRegisters == Max(old(maxRegisters), registerDepth + TermsRegisters(terms))
      decreases terms, 1
    {
      hide CodeTerm;
      hide CodeTerms;
      hide TermsRegisters;
      hide TermRegisters;
      ghost var before, depth, mods := instructions, registerDepth, modifiers;
      assert Unread(terms, backward, 0) == terms;
      for k := 0 to |terms|
        invariant Valid() && modifiers == mods && registerDepth == depth
        invariant instructions + CodeTerms(canonicalize, mods, Unread(terms, backward, k), backward, |instructions|, depth)
               == before + CodeTerms(canonicalize, mods, terms, backward, |before|, depth)
        invariant Max(maxRegisters, depth + TermsRegisters(Unread(terms, backward, k)))
               == Max(old(maxRegisters), depth + TermsRegisters(terms))
      {
        NextTerm(canonicalize, mods, Unread(terms, backward, k), backward, |instructions|, depth, instructions);
        assert Rest(Unread(terms, backward, k), backward) == Unread(terms, backward, k + 1);
        r := CompileTerm(if backward then terms[|terms| - 1 - k] else terms[k], backward);
        if r.Err? {
          return;
        }
      }
      NoTerms(canonicalize, mods, backward, |instructions|, depth, instructions);
      return Ok(());
    }

    method CompileTerm(term: Term, backward: bool) returns (r: Result<(), CompileError>)
      requires Valid()
      modifies this
      ensures Valid()
      ensures r.Ok? <==> old(registerDepth) + TermRegisters(term) <= MAX_REGISTERS
      ensures r.Ok? ==>
        && instructions == old(instructions) + CodeTerm(canonicalize, old(modifiers), term, backward,
                                                       old(|instructions|), old(registerDepth))
        && modifiers == old(modifiers) && registerDepth == old(registerDepth)
        && maxRegisters == Max(old(maxRegisters), registerDepth + TermRegisters(term))
      decreases term
    {
      hide AtomRegisters;
      hide CodeAtom;
      hide CodeQuantified;
      match term.quantifier
      case None => r := CompileAtom(term.atom, backward);
      case Some(q) => r := CompileQuantified(term.atom, q, backward);
    }

    // ---- Atoms ----

    method CompileAtom(atom: Atom, backward: bool) returns (r: Result<(), CompileError>)
      requires Valid()
      modifies this
      ensures Valid()
      ensures r.Ok? <==> old(registerDepth) + AtomRegisters(atom) <= MAX_REGISTERS
      ensures r.Ok? ==>
        && instructions == old(instructions) + CodeAtom(canonicalize, old(modifiers), atom, backward,
                                                       old(|instructions|), old(registerDepth))
        && modifiers == old(modifiers) && registerDepth == old(registerDepth)
        && maxRegisters == Max(old(maxRegisters), registerDepth + AtomRegisters(atom))
      decreases atom, 1
    {
      hide CodeAtom;
      match atom
      case LookAround(_, _, _) => r := CompileLookAround(atom, backward);
      case Group(_, _, _) => r := CompileGroup(atom, backward);
      case _ =>
        CompileLeaf(atom, backward);
        r := Ok(());
    }

    method CompileLeaf(atom: Atom, backward: bool)
      requires !atom.LookAround? && !atom.Group?
      modifies this`instructions
      ensures instructions == old(instructions) + CodeAtom(canonicalize, modifiers, atom, backward,
                                                          old(|instructions|), registerDepth)
    {
      hide CodeClass;
      match atom
      case Literal(value) =>
        var value' := if modifiers.ignoreCase then canonicalize(value) else value;
        EmitGuarded(backward, Char(value', modifiers.ignoreCase));
      case Dot => EmitGuarded(backward, if modifiers.dotAll then Any else Instruction.Dot);
      case LineStart => var _ := Emit(Instruction.LineStart(modifiers.multiline));
      case LineEnd => var _ := Emit(Instruction.LineEnd(modifiers.multiline));
      case WordBoundary(inverted) => var _ := Emit(Instruction.WordBoundary(inverted, modifiers.ignoreCase));
      case Space(inverted) => EmitGuarded(backward, Instruction.Space(inverted));
      case Class(class_) => CompileCharacterClass(class_, backward);
      case BackReference(captures) =>
        var _ := Emit(if backward then BackwardBackReference(captures, modifiers.ignoreCase)
                      else Instruction.BackReference(captures, modifiers.ignoreCase));
    }

    method CompileLookAround(atom: Atom, backward: bool) returns (r: Result<(), CompileError>)
      requires Valid() && atom.LookAround?
      modifies this
      ensures Valid()
      ensures r.Ok? <==> old(registerDepth) + AtomRegisters(atom) <= MAX_REGISTERS
      ensures r.Ok? ==>
        && instructions == old(instructions) + CodeAtom(canonicalize, old(modifiers), atom, backward,
                                                       old(|instructions|), old(registerDepth))
        && modifiers == old(modifiers) && registerDepth == old(registerDepth)
        && maxRegisters == Max(old(maxRegisters), registerDepth + AtomRegisters(atom))
      decreases atom, 0
    {
      hide CodeAlternatives;
      ghost var before := instructions;
      var start := Emit(LookAhead(atom.negative, UNKNOWN));
      r := CompileExpression(atom.expression, atom.backward);
      if r.Err? {
        return;
      }
      ghost var body := CodeAlternatives(canonicalize, modifiers, atom.expression.alternatives, atom.backward, start + 1,
                                         registerDepth);
      var _ := Emit(LookAheadEnd(atom.negative));
      instructions := instructions[start := LookAhead(atom.negative, |instructions|)];
      assert instructions
          == before + ([LookAhead(atom.negative, |before| + |body| + 2)] + body + [LookAheadEnd(atom.negative)]);
    }

    method CompileGroup(atom: Atom, backward: bool) returns (r: Result<(), CompileError>)
      requires Valid() && atom.Group?
      modifies this
      ensures Valid()
      ensures r.Ok? <==> old(registerDepth) + AtomRegisters(atom) <= MAX_REGISTERS
      ensures r.Ok? ==>
        && instructions == old(instructions) + CodeAtom(canonicalize, old(modifiers), atom, backward,
                                                       old(|instructions|), old(registerDepth))
        && modifiers == old(modifiers) && registerDepth == old(registerDepth)
        && maxRegisters == Max(old(maxRegisters), registerDepth + AtomRegisters(atom))
      decreases atom, 0
    {
      hide CodeAlternatives;
      ghost var before := instructions;
      if atom.capture.Some? {
        var _ := Emit(OpenGroup(atom.capture.value, backward));
      }
      var saved := modifiers;
      if atom.modifiers.Some? {
        modifiers := atom.modifiers.value;
      }
      ghost var opened_ := instructions;
      r := CompileExpression(atom.expression, backward);
      modifiers := saved;
      if r.Err? {
        return;
      }
      ghost var body := CodeAlternatives(canonicalize, Inner(saved, atom.modifiers), atom.expression.alternatives, backward,
                                         |opened_|, registerDepth);
      if atom.capture.Some? {
        var _ := Emit(CloseGroup(atom.capture.value, backward));
        assert instructions
            == before + ([OpenGroup(atom.capture.value, backward)] + body + [CloseGroup(atom.capture.value, backward)]);
      }
    }

    // ---- Quantifiers ----

    method CompileIteration(atom: Atom, range: Option<(nat, nat)>, backward: bool) returns (r: Result<(), CompileError>)
      requires Valid() && range == CaptureRange(atom)
      modifies this
      ensures Valid()
      ensures r.Ok? <==> old(registerDepth) + AtomRegisters(atom) <= MAX_REGISTERS
      ensures r.Ok? ==>
        && instructions == old(instructions) + CodeIteration(canonicalize, old(modifiers), atom, backward,
                                                            old(|instructions|), old(registerDepth))
        && modifiers == old(modifiers) && registerDepth == old(registerDepth)
        && maxRegisters == Max(old(maxRegisters), registerDepth + AtomRegisters(atom))
      decreases atom, 2
    {
      hide CodeAtom;
      EmitCaptureReset(range);
      r := CompileAtom(atom, backward);
    }

    method CompileRequired(atom: Atom, count: nat, range: Option<(nat, nat)>, backward: bool)
      returns (r: Result<(), CompileError>)
      requires Valid() && range == CaptureRange(atom)
      modifies this
      ensures Valid()
      ensures r.Ok? <==> old(registerDepth) + RequiredRegisters(atom, count) <= MAX_REGISTERS
      ensures r.Ok? ==>
        && instructions == old(instructions) + CodeRequired(canonicalize, old(modifiers), atom, count, backward,
                                                           old(|instructions|), old(registerDepth))
        && modifiers == old(modifiers) && registerDepth == old(registerDepth)
        && maxRegisters == Max(old(maxRegisters), registerDepth + RequiredRegisters(atom, count))
      decreases atom, 3
    {
      hide CodeIteration;
      if count == 0 {
        EmitCaptureReset(range);
        return Ok(());
      }
      if count == 1 {
        r := CompileIteration(atom, range, backward);
        return;
      }
      var register := AllocateRegister();
      if register.Err? {
        return Err(register.error);
      }
      var _ := Emit(SetRegister(register.value, count));
      var start := |instructions|;
      r := CompileIteration(atom, range, backward);
      if r.Err? {
        return;
      }
      var _ := Emit(Loop(register.value, start));
      ReleaseRegister(register.value);
    }

    /** The body of an optional iteration, with an advance check when it could match the empty string. */
    method CompileBody(atom: Atom, range: Option<(nat, nat)>, backward: bool) returns (r: Result<(), CompileError>)
      requires Valid() && range == CaptureRange(atom)
      modifies this
      ensures Valid()
      ensures r.Ok? <==> old(registerDepth) + Flag(CanMatchEmpty(atom)) + AtomRegisters(atom) <= MAX_REGISTERS
      ensures r.Ok? ==>
        && instructions == old(instructions) + CodeBody(canonicalize, old(modifiers), atom, backward,
                                                       old(|instructions|), old(registerDepth))
        && modifiers == old(modifiers) && registerDepth == old(registerDepth)
        && maxRegisters == Max(old(maxRegisters), registerDepth + Flag(CanMatchEmpty(atom)) + AtomRegisters(atom))
      decreases atom, 3
    {
      hide CodeIteration;
      if !CanMatchEmpty(atom) {
        r := CompileIteration(atom, range, backward);
        return;
      }
      var register := AllocateRegister();
      if register.Err? {
        return Err(register.error);
      }
      var _ := Emit(SavePosition(register.value));
      r := CompileIteration(atom, range, backward);
      if r.Err? {
        return;
      }
      var _ := Emit(CheckAdvance(register.value));
      ReleaseRegister(register.value);
    }

    method CompileOptional(atom: Atom, count: Option<nat>, greedy: bool, range: Option<(nat, nat)>, backward: bool)
      returns (r: Result<(), CompileError>)
      requires Valid() && range == CaptureRange(atom)
      modifies this
      ensures Valid()
      ensures r.Ok? <==> old(registerDepth) + OptionalRegisters(atom, count) <= MAX_REGISTERS
      ensures r.Ok? ==>
        && instructions == old(instructions) + CodeOptional(canonicalize, old(modifiers), atom, count, greedy, backward,
                                                           old(|instructions|), old(registerDepth))
        && modifiers == old(modifiers) && registerDepth == old(registerDepth)
        && maxRegisters == Max(old(maxRegisters), registerDepth + OptionalRegisters(atom, count))
      decreases atom, 5
    {
      if count == Some(0) {
        return Ok(());
      }
      if Counted(count) {
        r := CompileCounted(atom, count.value, greedy, range, backward);
      } else {
        r := CompileUncounted(atom, count, greedy, range, backward);
      }
    }

    /** At most one iteration, or any number. */
    method CompileUncounted(atom: Atom, count: Option<nat>, greedy: bool, range: Option<(nat, nat)>, backward: bool)
      returns (r: Result<(), CompileError>)
      requires Valid() && range == CaptureRange(atom) && (count == Some(1) || count == None)
      modifies this
      ensures Valid()
      ensures r.Ok? <==> old(registerDepth) + OptionalRegisters(atom, count) <= MAX_REGISTERS
      ensures r.Ok? ==>
        && instructions == old(instructions) + CodeOptional(canonicalize, old(modifiers), atom, count, greedy, backward,
                                                           old(|instructions|), old(registerDepth))
        && modifiers == old(modifiers) && registerDepth == old(registerDepth)
        && maxRegisters == Max(old(maxRegisters), registerDepth + OptionalRegisters(atom, count))
      decreases atom, 4
    {
      hide AtomRegisters;
      hide CanMatchEmpty;
      hide CodeOptional;
      hide CodeBody;
      ghost var before := instructions;
      var decision := Emit(Split(UNKNOWN, UNKNOWN));
      r := CompileBody(atom, range, backward);
      if r.Err? {
        return;
      }
      ghost var body := CodeBody(canonicalize, modifiers, atom, backward, decision + 1, registerDepth);
      if count.None? {
        var _ := Emit(Jump(decision));
      }
      ghost var last := if count.None? then [Jump(decision)] else [];
      assert instructions == before + [Split(UNKNOWN, UNKNOWN)] + (body + last);
      var split := PreferredSplit(decision + 1, |instructions|, greedy);
      instructions := instructions[decision := split];
      PatchAfter(before, Split(UNKNOWN, UNKNOWN), body + last, split);
      assert [split] + (body + last) == [split] + body + last;
      UncountedShape(canonicalize, modifiers, atom, count, greedy, backward, decision, registerDepth);
    }

    /** Up to `count` iterations, counted in a register. */
    method CompileCounted(atom: Atom, count: nat, greedy: bool, range: Option<(nat, nat)>, backward: bool)
      returns (r: Result<(), CompileError>)
      requires Valid() && range == CaptureRange(atom) && count > 1
      modifies this
      ensures Valid()
      ensures r.Ok? <==> old(registerDepth) + OptionalRegisters(atom, Some(count)) <= MAX_REGISTERS
      ensures r.Ok? ==>
        && instructions == old(instructions) + CodeOptional(canonicalize, old(modifiers), atom, Some(count), greedy, backward,
                                                           old(|instructions|), old(registerDepth))
        && modifiers == old(modifiers) && registerDepth == old(registerDepth)
        && maxRegisters == Max(old(maxRegisters), registerDepth + OptionalRegisters(atom, Some(count)))
      decreases atom, 4
    {
      hide AtomRegisters;
      hide CanMatchEmpty;
      hide CodeOptional;
      hide CodeBody;
      ghost var before := instructions;
      var register := AllocateRegister();
      if register.Err? {
        return Err(register.error);
      }
      var base := Emit(SetRegister(register.value, count));
      var decision := Emit(Split(UNKNOWN, UNKNOWN));
      r := CompileBody(atom, range, backward);
      if r.Err? {
        return;
      }
      ghost var body := CodeBody(canonicalize, modifiers, atom, backward, decision + 1, registerDepth);
      var _ := Emit(Loop(register.value, decision));
      ghost var last := [Loop(register.value, decision)];
      assert instructions == before + [SetRegister(register.value, count)] + [Split(UNKNOWN, UNKNOWN)] + (body + last);
      var split := PreferredSplit(decision + 1, |instructions|, greedy);
      instructions := instructions[decision := split];
      ReleaseRegister(register.value);
      PatchAfter(before + [SetRegister(register.value, count)], Split(UNKNOWN, UNKNOWN), body + last, split);
      assert before + [SetRegister(register.value, count)] + ([split] + (body + last))
          == before + ([SetRegister(register.value, count), split] + body + last);
      CountedShape(canonicalize, modifiers, atom, count, greedy, backward, base, registerDepth);
    }

    method CompileQuantified(atom: Atom, q: Quantifier, backward: bool) returns (r: Result<(), CompileError>)
      requires Valid()
      modifies this
      ensures Valid()
      ensures r.Ok? <==> old(registerDepth) + TermRegisters(Term(atom, Some(q))) <= MAX_REGISTERS
      ensures r.Ok? ==>
        && instructions == old(instructions) + CodeQuantified(canonicalize, old(modifiers), atom, q, backward,
                                                             old(|instructions|), old(registerDepth))
        && modifiers == old(modifiers) && registerDepth == old(registerDepth)
        && maxRegisters == Max(old(maxRegisters), registerDepth + TermRegisters(Term(atom, Some(q))))
      decreases atom, 6
    {
      hide CodeRequired;
      hide CodeOptional;
      hide RequiredRegisters;
      hide OptionalRegisters;
      var range := CaptureRange(atom);
      if q.maximum == Some(0) {
        EmitCaptureReset(range);
        return Ok(());
      }
      r := CompileRequired(atom, q.minimum, range, backward);
      if r.Err? {
        return;
      }
      r := CompileOptional(atom, Remaining(q), q.greedy, range, backward);
    }
  }

  /** Generate the program of a pattern. */
  method Compile(canonicalize: Canonicalize, modifiers: Modifiers, expression: Expression)
    returns (r: Result<(seq<Instruction>, nat), CompileError>)
    ensures r.Ok? <==> AlternativesRegisters(expression.alternatives) <= MAX_REGISTERS
    ensures r.Ok? ==>
      r.value == (Program(canonicalize, modifiers, expression), AlternativesRegisters(expression.alternatives))
  {
    hide CodeAlternatives;
    var builder := new Builder(canonicalize, modifiers);
    var _ := builder.Emit(SaveStart(0));
    var compiled := builder.CompileExpression(expression, false);
    if compiled.Err? {
      return Err(compiled.error);
    }
    var _ := builder.Emit(SaveEnd(0));
    var _ := builder.Emit(Match);
    assert builder.instructions == Program(canonicalize, modifiers, expression);
    return Ok((builder.instructions, builder.maxRegisters));
  }

  /** The terms not yet compiled after `k` of them. */
  function Unread(terms: seq<Term>, backward: bool, k: nat): seq<Term>
    requires k <= |terms|
  {
    if backward then terms[..|terms| - k] else terms[k..]
  }

  /** Emitting the first term leaves the code of the rest. */
  lemma NextTerm(canonicalize: Canonicalize, mods: Modifiers, terms: seq<Term>, backward: bool, base: nat, depth: nat,
                 code: seq<Instruction>)
    requires terms != [] && |code| == base
    ensures var first := CodeTerm(canonicalize, mods, First(terms, backward), backward, base, depth);
            var rest := CodeTerms(canonicalize, mods, Rest(terms, backward), backward, |code + first|, depth);
            code + CodeTerms(canonicalize, mods, terms, backward, base, depth) == (code + first) + rest
    ensures TermsRegisters(terms) == Max(TermRegisters(First(terms, backward)), TermsRegisters(Rest(terms, backward)))
  {
    hide CodeTerm;
    RegistersFirstRest(terms, backward);
    var first := CodeTerm(canonicalize, mods, First(terms, backward), backward, base, depth);
    var rest := CodeTerms(canonicalize, mods, Rest(terms, backward), backward, base + |first|, depth);
    assert code + (first + rest) == (code + first) + rest;
  }

  lemma NoTerms(canonicalize: Canonicalize, mods: Modifiers, backward: bool, base: nat, depth: nat,
                code: seq<Instruction>)
    ensures code + CodeTerms(canonicalize, mods, [], backward, base, depth) == code
    ensures TermsRegisters([]) == 0
  {
  }

  lemma {:induction false} StringPartAt(strings: seq<seq<nat>>, ignoreCase: bool, i: nat)
    requires i < |strings|
    ensures StringParts(strings, ignoreCase)[i] == StringCode(strings[i], ignoreCase)
    decreases |strings|
  {
    if i > 0 {
      StringPartAt(strings[1..], ignoreCase, i - 1);
    }
  }

  lemma NoAlternatives(alternatives: seq<Sequence>)
    ensures AlternativesRegisters(alternatives[|alternatives|..]) == 0
  {
  }

  /** The next part of an expression is the code of the next alternative. */
  lemma NextPart(canonicalize: Canonicalize, mods: Modifiers, alternatives: seq<Sequence>, backward: bool, base: nat,
                 depth: nat, parts: seq<seq<Instruction>>, i: nat)
    requires i < |alternatives| == |parts|
    requires parts[i..] == AlternativesParts(canonicalize, mods, alternatives[i..], backward, base, depth)
    ensures var last := i + 1 == |alternatives|;
            && parts[i] == CodeTerms(canonicalize, mods, alternatives[i].terms, backward,
                                     if last then base else base + 1, depth)
            && parts[i + 1..] == AlternativesParts(canonicalize, mods, alternatives[i + 1..], backward,
                                                   (if last then base else base + 2) + |parts[i]|, depth)
    ensures AlternativesRegisters(alternatives[i..])
         == Max(TermsRegisters(alternatives[i].terms), AlternativesRegisters(alternatives[i + 1..]))
  {
    hide CodeTerms;
    hide TermsRegisters;
    assert alternatives[i..][0] == alternatives[i] && alternatives[i..][1..] == alternatives[i + 1..];
    assert parts[i..][0] == parts[i] && parts[i..][1..] == parts[i + 1..];
    if i + 1 == |alternatives| {
      assert alternatives[i + 1..] == [] && parts[i + 1..] == [];
    }
  }
}
