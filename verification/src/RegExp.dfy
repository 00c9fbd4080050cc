/** Compiling a pattern and searching for it, end to end. */
module RegExp {
  import opened Basics
  import opened Characters
  import opened Pattern
  import opened Matcher
  import opened Machine
  import opened Code
  import opened CompiledPrograms
  import opened Executor
  import opened Validation
  import opened GeneratedPrograms
  import CodeBuilder

  type Captures = seq<Option<(nat, nat)>>

  /** A pattern that is ready to match: parsed, numbered, without strings in lookbehinds. */
  datatype Regex = Regex(expression: Expression, total: nat, modifiers: Modifiers, sticky: bool)

  predicate ValidRegex(r: Regex) {
    ValidPattern(r.expression, r.total) && NoBackwardStringsIn(r.expression.alternatives, false)
  }

  function Matches(env: Env, r: Regex, position: nat): seq<Cursor>
    requires Boundary(env.input, position, env.unicode)
  {
    MatchesAt(env, r.modifiers, r.expression, r.total, position)
  }

  /** Positions where the search may look: boundaries from the normalised start on, or just that one. */
  predicate Candidate(env: Env, r: Regex, start: nat, position: nat) {
    var first := NormalizeStart(env.input, start, env.unicode);
    && Boundary(env.input, position, env.unicode)
    && first <= position
    && (r.sticky ==> position == first)
  }

  /** The first candidate with a match, and the preferred match there. */
  ghost predicate FirstMatch(env: Env, r: Regex, start: nat, position: nat, captures: Captures) {
    && Candidate(env, r, start, position)
    && Matches(env, r, position) != [] && captures == Matches(env, r, position)[0].captures
    && forall p: nat :: p < position && Candidate(env, r, start, p) ==> Matches(env, r, p) == []
  }

  ghost predicate NoMatch(env: Env, r: Regex, start: nat) {
    forall p: nat :: Candidate(env, r, start, p) ==> Matches(env, r, p) == []
  }

  /** A reported match starts where it was found, and each group is absent or a range of the input. */
  lemma MatchIsWellFormed(env: Env, r: Regex, position: nat)
    requires ValidRegex(r) && Boundary(env.input, position, env.unicode) && Matches(env, r, position) != []
    ensures var captures := Matches(env, r, position)[0].captures;
            && |captures| == r.total > 0
            && captures[0].Some? && captures[0].value.0 == position
            && forall i :: 0 <= i < |captures| ==> ValidCapture(env, captures[i])
  {
    var x := Fresh(position, r.total);
    FreshValid(env, position, r.total);
    var ys := MatchAlternatives(env, r.modifiers, r.expression.alternatives, false, x);
    assert Matches(env, r, position) == CaptureAll(0, false, x, ys);
    CaptureMoves(env, 0, false, x, ys);
    assert Moves(env, false, x, Matches(env, r, position)[0]);
  }

  datatype ExecError = StartOutOfBounds(start: nat, length: nat) | InvalidProgram(error: ProgramError)

  /** One attempt of a compiled program. */
  method Attempt(m: Engine, state: AttemptState, position: nat, ghost r: Regex, registers: nat)
    returns (result: Result<Option<Captures>, ProgramError>)
    requires ValidRegex(r) && m.program == Program(m.env.canonicalize, r.modifiers, r.expression)
    requires AlternativesRegisters(r.expression.alternatives) <= registers
    requires ValidProgram(m.program, r.total, registers)
    requires |state.captures| == 2 * r.total && |state.registers| == registers
    requires Boundary(m.env.input, position, m.env.unicode)
    modifies state
    ensures |state.captures| == 2 * r.total && |state.registers| == registers
    ensures var ys := Matches(m.env, r, position);
            result == Ok(if ys == [] then None else Some(ys[0].captures))
  {
    hide ValidPattern;
    hide NoBackwardStringsIn;
    hide Program;
    state.Reset(position);
    ValidIsBounded(m.program, r.total, registers);
    ghost var steps := AttemptHalts(m, r.modifiers, r.expression, r.total, registers, position);
    result := state.RunAttempt(m, steps);
  }

  /** The search over start positions, reusing one attempt state. */
  method ExecuteUnits(m: Engine, captures: nat, registers: nat, sticky: bool, start: nat, ghost r: Regex)
    returns (result: Result<Option<Captures>, ExecError>)
    requires captures == r.total && sticky == r.sticky
    requires ValidRegex(r) && m.program == Program(m.env.canonicalize, r.modifiers, r.expression)
    requires AlternativesRegisters(r.expression.alternatives) <= registers
    requires ValidProgram(m.program, r.total, registers)
    ensures result.Err? <==> start > |m.env.input|
    ensures result.Err? ==> result.error == StartOutOfBounds(start, |m.env.input|)
    ensures result.Ok? && result.value.None? ==> NoMatch(m.env, r, start)
    ensures result.Ok? && result.value.Some? ==>
      exists position :: FirstMatch(m.env, r, start, position, result.value.value)
  {
    hide ValidRegex;
    hide Program;
    hide ValidProgram;
    hide Matches;
    if start > |m.env.input| {
      return Err(StartOutOfBounds(start, |m.env.input|));
    }
    var candidate := NormalizeStart(m.env.input, start, m.env.unicode);
    NormalizedStartIsBoundary(m.env.input, start, m.env.unicode);
    var state := new AttemptState(captures, registers, candidate);
    ghost var first := candidate;
    while true
      invariant first <= candidate <= |m.env.input| && Candidate(m.env, r, start, candidate)
      invariant |state.captures| == 2 * r.total && |state.registers| == registers
      invariant fresh(state)
      invariant forall p: nat :: p < candidate && Candidate(m.env, r, start, p) ==> Matches(m.env, r, p) == []
      decreases |m.env.input| - candidate
    {
      var attempt := Attempt(m, state, candidate, r, registers);
      if attempt.value.Some? {
        assert FirstMatch(m.env, r, start, candidate, attempt.value.value);
        return Ok(attempt.value);
      }
      if sticky || candidate == |m.env.input| {
        return Ok(None);
      }
      AdvanceReachesNextBoundary(m.env.input, candidate, m.env.unicode);
      candidate := AdvanceStringIndex(m.env.input, candidate, m.env.unicode);
    }
  }

  datatype Failure = TooManyRegisters | Rejected | Exec(error: ExecError)

  /**
   Compile, validate and execute: for every pattern, flags, input and start the
   engine reports the first match of the reference matcher, or that there is none.
   It fails only on a pattern that needs more than 255 registers or a start
   beyond the input.
   */
  method Execute(env: Env, r: Regex, start: nat) returns (result: Result<Option<Captures>, Failure>)
    requires ValidRegex(r) && CanonicalizeInRange(env.canonicalize)
    ensures result == Err(TooManyRegisters) <==> AlternativesRegisters(r.expression.alternatives) > CodeBuilder.MAX_REGISTERS
    ensures result.Err? && result.error != TooManyRegisters ==>
      start > |env.input| && result.error == Exec(StartOutOfBounds(start, |env.input|))
    ensures result.Ok? ==> start <= |env.input|
    ensures result.Ok? && result.value.None? ==> NoMatch(env, r, start)
    ensures result.Ok? && result.value.Some? ==> exists position :: FirstMatch(env, r, start, position, result.value.value)
  {
    var compiled := CodeBuilder.Compile(env.canonicalize, r.modifiers, r.expression);
    if compiled.Err? {
      return Err(TooManyRegisters);
    }
    var (program, registers) := compiled.value;
    ProgramIsValid(env.canonicalize, r.modifiers, r.expression, r.total, registers);
    var validated := ValidateProgram(program, r.total, registers);
    if validated.Err? {
      return Err(Rejected);
    }
    var executed := ExecuteUnits(Engine(env, program), r.total, registers, r.sticky, start, r);
    if executed.Err? {
      return Err(Exec(executed.error));
    }
    return Ok(executed.value);
  }
}
