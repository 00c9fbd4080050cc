/**
 Structural validation of programs, and what it buys: in every reachable state of
 a validated program the open assertions on the control stack are exactly those
 around the program counter.
 */
module Validation {
  import opened Basics
  import opened Machine

  // ---- Assertion scopes ----

  /** The lookaheads that are open, in program order, on reaching `pc`. */
  function Opened(program: seq<Instruction>, pc: nat): (r: seq<nat>)
    requires pc <= |program|
    ensures forall i :: 0 <= i < |r| ==> r[i] < pc && program[r[i]].LookAhead?
  {
    if pc == 0 then []
    else
      var before := Opened(program, pc - 1);
      match program[pc - 1]
      case LookAhead(_, _) => before + [pc - 1]
      case LookAheadEnd(_) => if before == [] then [] else before[..|before| - 1]
      case _ => before
  }

  /** The innermost open lookahead identifies the complete chain. */
  lemma {:induction false} InnermostIsChain(program: seq<Instruction>, pc: nat)
    requires pc <= |program| && Opened(program, pc) != []
    ensures var chain := Opened(program, pc);
            var begin := chain[|chain| - 1];
            begin < pc && chain == Opened(program, begin) + [begin]
    decreases pc
  {
    NothingOpened(program);
    assert pc > 0;
    var chain, before := Opened(program, pc), Opened(program, pc - 1);
    OpenedNext(program, pc - 1);
    if program[pc - 1].LookAheadEnd? {
      InnermostIsChain(program, pc - 1);
      var inner := before[|before| - 1];
      assert chain == Opened(program, inner);
      InnermostIsChain(program, inner);
    } else if !program[pc - 1].LookAhead? {
      InnermostIsChain(program, pc - 1);
    }
  }

  function Scope(program: seq<Instruction>, pc: nat): Option<nat>
    requires pc <= |program|
  {
    var chain := Opened(program, pc);
    if chain == [] then None else Some(chain[|chain| - 1])
  }

  predicate SameScope(program: seq<Instruction>, pc: nat, target: nat)
    requires pc <= |program|
  {
    target < |program| && Scope(program, target) == Scope(program, pc)
  }

  lemma SameScopeSameChain(program: seq<Instruction>, p: nat, q: nat)
    requires p <= |program| && q <= |program| && Scope(program, p) == Scope(program, q)
    ensures Opened(program, p) == Opened(program, q)
  {
    hide Opened;
    if Opened(program, p) != [] {
      InnermostIsChain(program, p);
      InnermostIsChain(program, q);
    }
  }

  // ---- Valid programs ----

  function Targets(instruction: Instruction): seq<nat> {
    match instruction
    case Jump(target) => [target]
    case Loop(_, target) => [target]
    case LookAhead(_, target) => [target]
    case Split(first, second) => [first, second]
    case _ => []
  }

  predicate CharactersInRange(instruction: Instruction) {
    match instruction
    case Char(value, _) => value <= MAX_CODE_POINT
    case Range(ranges, _, _) =>
      forall i :: 0 <= i < |ranges| ==> ranges[i].start <= ranges[i].end <= MAX_CODE_POINT
    case _ => true
  }

  /** The end of a lookahead closes the innermost open one, of the same polarity, whose target follows it. */
  predicate Paired(program: seq<Instruction>, pc: nat)
    requires pc < |program|
  {
    program[pc].LookAheadEnd? ==>
      var chain := Opened(program, pc);
      chain != [] && program[chain[|chain| - 1]] == LookAhead(program[pc].negative, pc + 1)
  }

  predicate TargetsInBounds(program: seq<Instruction>, pc: nat)
    requires pc < |program|
  {
    forall i :: 0 <= i < |Targets(program[pc])| ==> Targets(program[pc])[i] < |program|
  }

  predicate FirstPass(program: seq<Instruction>, captureCount: nat, registerCount: nat, pc: nat)
    requires pc < |program|
  {
    && TargetsInBounds(program, pc)
    && CharactersInRange(program[pc])
    && InstructionBounded(program[pc], captureCount, registerCount)
    && Paired(program, pc)
  }

  predicate SecondPass(program: seq<Instruction>, pc: nat)
    requires pc < |program|
  {
    && (forall i :: 0 <= i < |Targets(program[pc])| ==> SameScope(program, pc, Targets(program[pc])[i]))
    && (program[pc].Match? ==> Scope(program, pc) == None)
  }

  predicate ValidProgram(program: seq<Instruction>, captureCount: nat, registerCount: nat) {
    && program != [] && captureCount > 0
    && (forall pc :: 0 <= pc < |program| ==> FirstPass(program, captureCount, registerCount, pc))
    && Opened(program, |program|) == []
    && (forall pc :: 0 <= pc < |program| ==> SecondPass(program, pc))
  }

  lemma ValidIsBounded(program: seq<Instruction>, captureCount: nat, registerCount: nat)
    requires ValidProgram(program, captureCount, registerCount)
    ensures Bounded(program, captureCount, registerCount)
  {
    forall i | 0 <= i < |program|
      ensures InstructionBounded(program[i], captureCount, registerCount)
    {
      assert FirstPass(program, captureCount, registerCount, i);
    }
  }

  // ---- The validator ----

  datatype ValidationError =
    | EmptyProgram
    | ZeroCaptures
    | BranchTarget(pc: nat, target: nat)
    | InvalidCharacter(pc: nat)
    | Operand(pc: nat)
    | Structure(pc: nat)

  /** The first pass has arrived at this instruction. */
  ghost predicate Arrived(program: seq<Instruction>, captureCount: nat, registerCount: nat, pc: nat) {
    pc < |program| && forall q :: 0 <= q < pc ==> FirstPass(program, captureCount, registerCount, q)
  }

  /** An instruction whose targets, characters and operands are in range. */
  predicate OperandsFit(program: seq<Instruction>, captureCount: nat, registerCount: nat, pc: nat)
    requires pc < |program|
  {
    && TargetsInBounds(program, pc) && CharactersInRange(program[pc])
    && InstructionBounded(program[pc], captureCount, registerCount)
  }

  /** The error names the first instruction that breaks a rule, and the rule it breaks. */
  ghost predicate Explains(program: seq<Instruction>, captureCount: nat, registerCount: nat, error: ValidationError) {
    match error
    case EmptyProgram => program == []
    case ZeroCaptures => program != [] && captureCount == 0
    case BranchTarget(pc, target) =>
      Arrived(program, captureCount, registerCount, pc) && target in Targets(program[pc]) && target >= |program|
    case InvalidCharacter(pc) =>
      Arrived(program, captureCount, registerCount, pc) && TargetsInBounds(program, pc) && !CharactersInRange(program[pc])
    case Operand(pc) =>
      && Arrived(program, captureCount, registerCount, pc) && TargetsInBounds(program, pc)
      && CharactersInRange(program[pc]) && !InstructionBounded(program[pc], captureCount, registerCount)
    case Structure(pc) =>
      && pc < |program|
      && if exists q :: 0 <= q < |program| && !FirstPass(program, captureCount, registerCount, q) then
           && Arrived(program, captureCount, registerCount, pc)
           && OperandsFit(program, captureCount, registerCount, pc) && !Paired(program, pc)
         else if Opened(program, |program|) != [] then
           pc == Opened(program, |program|)[|Opened(program, |program|)| - 1]
         else !SecondPass(program, pc) && forall q :: 0 <= q < pc ==> SecondPass(program, q)
  }

  /** The first target outside the program. */
  method CheckTargets(targets: seq<nat>, length: nat) returns (bad: Option<nat>)
    ensures bad.None? <==> forall i :: 0 <= i < |targets| ==> targets[i] < length
    ensures bad.Some? ==> bad.value in targets && bad.value >= length
  {
    for i := 0 to |targets|
      invariant forall j :: 0 <= j < i ==> targets[j] < length
    {
      if targets[i] >= length {
        return Some(targets[i]);
      }
    }
    return None;
  }

  /** Both passes of the validator; it accepts exactly the valid programs. */
  method ValidateProgram(program: seq<Instruction>, captureCount: nat, registerCount: nat)
    returns (r: Result<(), ValidationError>)
    ensures r.Ok? <==> ValidProgram(program, captureCount, registerCount)
    ensures r.Err? ==> Explains(program, captureCount, registerCount, r.error)
  {
    hide Opened;
    hide InstructionBounded;
    hide CharactersInRange;
    hide TargetsInBounds;
    hide Targets;
    hide Paired;
    hide SecondPass;
    if program == [] {
      return Err(EmptyProgram);
    }
    if captureCount == 0 {
      return Err(ZeroCaptures);
    }
    assert Opened(program, 0) == [] by { NothingOpened(program); }
    var assertions: seq<(nat, bool, nat)>, scopes: seq<Option<nat>> := [], [];
    for pc := 0 to |program|
      invariant ScopesKnown(program, scopes, pc)
      invariant Tracks(program, assertions, Opened(program, pc))
      invariant forall q :: 0 <= q < pc ==> FirstPass(program, captureCount, registerCount, q)
    {
      scopes := scopes + [if assertions == [] then None else Some(assertions[|assertions| - 1].0)];
      var checked := CheckOperands(program, captureCount, registerCount, pc);
      if checked.Err? {
        assert !FirstPass(program, captureCount, registerCount, pc);
        return checked;
      }
      var tracked := TrackAssertions(program, pc, assertions);
      if tracked.None? {
        assert !FirstPass(program, captureCount, registerCount, pc) && OperandsFit(program, captureCount, registerCount, pc);
        return Err(Structure(pc));
      }
      assertions := tracked.value;
    }
    if assertions != [] {
      return Err(Structure(assertions[|assertions| - 1].0));
    }
    forall pc | 0 <= pc < |program|
      ensures TargetsInBounds(program, pc)
    {
      assert FirstPass(program, captureCount, registerCount, pc);
    }
    r := CheckScopes(program, scopes);
  }

  /** Opens or closes a lookahead; fails on an end that does not pair with the innermost open one. */
  method TrackAssertions(program: seq<Instruction>, pc: nat, assertions: seq<(nat, bool, nat)>)
    returns (r: Option<seq<(nat, bool, nat)>>)
    requires pc < |program| && Tracks(program, assertions, Opened(program, pc))
    ensures r.Some? <==> Paired(program, pc)
    ensures r.Some? ==> Tracks(program, r.value, Opened(program, pc + 1))
  {
    OpenedNext(program, pc);
    match program[pc]
    case LookAhead(negative, target) => return Some(assertions + [(pc, negative, target)]);
    case LookAheadEnd(negative) =>
      if assertions == [] || assertions[|assertions| - 1].1 != negative || assertions[|assertions| - 1].2 != pc + 1 {
        return None;
      }
      return Some(assertions[..|assertions| - 1]);
    case _ => return Some(assertions);
  }

  /** The checks of one instruction on its own. */
  method CheckOperands(program: seq<Instruction>, captureCount: nat, registerCount: nat, pc: nat)
    returns (r: Result<(), ValidationError>)
    requires pc < |program|
    ensures r.Ok? <==> OperandsFit(program, captureCount, registerCount, pc)
    ensures r.Err? && Arrived(program, captureCount, registerCount, pc) ==> Explains(program, captureCount, registerCount, r.error)
    ensures r.Err? ==> !r.error.Structure?
  {
    var bad := CheckTargets(Targets(program[pc]), |program|);
    if bad.Some? {
      return Err(BranchTarget(pc, bad.value));
    }
    if !CharactersInRange(program[pc]) {
      return Err(InvalidCharacter(pc));
    }
    if !InstructionBounded(program[pc], captureCount, registerCount) {
      return Err(Operand(pc));
    }
    return Ok(());
  }

  lemma NothingOpened(program: seq<Instruction>)
    ensures Opened(program, 0) == []
  {
  }

  lemma OpenedNext(program: seq<Instruction>, pc: nat)
    requires pc < |program|
    ensures var chain := Opened(program, pc);
            Opened(program, pc + 1) ==
              if program[pc].LookAhead? then chain + [pc]
              else if program[pc].LookAheadEnd? then (if chain == [] then [] else chain[..|chain| - 1])
              else chain
  {
  }

  ghost predicate ScopesKnown(program: seq<Instruction>, scopes: seq<Option<nat>>, pc: nat) {
    |scopes| == pc <= |program| && forall q :: 0 <= q < pc ==> scopes[q] == Scope(program, q)
  }

  method CheckScopes(program: seq<Instruction>, scopes: seq<Option<nat>>) returns (r: Result<(), ValidationError>)
    requires ScopesKnown(program, scopes, |program|)
    requires forall pc :: 0 <= pc < |program| ==> TargetsInBounds(program, pc)
    ensures r.Ok? <==> forall pc :: 0 <= pc < |program| ==> SecondPass(program, pc)
    ensures r.Err? ==>
      && r.error.Structure? && r.error.pc < |program| && !SecondPass(program, r.error.pc)
      && forall q :: 0 <= q < r.error.pc ==> SecondPass(program, q)
  {
    hide Scope;
    for pc := 0 to |program|
      invariant forall q :: 0 <= q < pc ==> SecondPass(program, q)
    {
      var ok := ScopeKept(program, scopes, pc);
      if !ok {
        return Err(Structure(pc));
      }
    }
    return Ok(());
  }

  method ScopeKept(program: seq<Instruction>, scopes: seq<Option<nat>>, pc: nat) returns (ok: bool)
    requires ScopesKnown(program, scopes, |program|) && pc < |program| && TargetsInBounds(program, pc)
    ensures ok <==> SecondPass(program, pc)
  {
    hide Scope;
    var targets := Targets(program[pc]);
    for i := 0 to |targets|
      invariant forall j :: 0 <= j < i ==> SameScope(program, pc, targets[j])
    {
      if scopes[targets[i]] != scopes[pc] {
        return false;
      }
    }
    return !(program[pc].Match? && scopes[pc].Some?);
  }

  /** The validator's stack of open assertions. */
  ghost predicate Tracks(program: seq<Instruction>, assertions: seq<(nat, bool, nat)>, chain: seq<nat>) {
    && |assertions| == |chain|
    && forall i :: 0 <= i < |chain| ==>
         && assertions[i].0 == chain[i] < |program|
         && program[chain[i]] == LookAhead(assertions[i].1, assertions[i].2)
  }

  // ---- Every reachable state ----

  /** The open assertions of a control stack, outermost first. */
  function OpenFrames(controls: seq<Frame>): seq<ControlKind> {
    if controls == [] then []
    else
      var below := OpenFrames(controls[..|controls| - 1]);
      var kind := controls[|controls| - 1].kind;
      if kind.Assertion? then below + [kind] else below
  }

  /** The assertions that should be open at `pc`. */
  function ScopeChain(program: seq<Instruction>, chain: seq<nat>): (r: seq<ControlKind>)
    requires forall i :: 0 <= i < |chain| ==> chain[i] < |program| && program[chain[i]].LookAhead?
    ensures |r| == |chain|
    ensures forall i :: 0 <= i < |chain| ==> r[i] == Assertion(program[chain[i]].negative, program[chain[i]].target)
  {
    seq(|chain|, i requires 0 <= i < |chain| => Assertion(program[chain[i]].negative, program[chain[i]].target))
  }

  predicate InScope(program: seq<Instruction>, pc: nat, controls: seq<Frame>) {
    pc <= |program| && OpenFrames(controls) == ScopeChain(program, Opened(program, pc))
  }

  /** A frame resumes at a place whose assertions are those open below it. */
  predicate FrameInScope(program: seq<Instruction>, controls: seq<Frame>, i: nat)
    requires i < |controls|
  {
    match controls[i].kind
    case Resume(pc) => InScope(program, pc, controls[..i])
    case Assertion(_, target) => InScope(program, target, controls[..i])
  }

  predicate FramesInScope(program: seq<Instruction>, controls: seq<Frame>) {
    forall i :: 0 <= i < |controls| ==> FrameInScope(program, controls, i)
  }

  /** What holds in every reachable configuration of a valid program. */
  predicate Scoped(program: seq<Instruction>, captureCount: nat, registerCount: nat, c: Config) {
    match c
    case Running(pc, _, memory, controls) =>
      && InScope(program, pc, controls) && FramesInScope(program, controls)
      && Sized(memory, captureCount, registerCount) && FramesSized(controls, captureCount, registerCount)
    case Failing(controls) =>
      FramesInScope(program, controls) && FramesSized(controls, captureCount, registerCount)
    case Matched(_) => true
    case Exhausted => true
    case Faulted(error) => !error.AssertionStructure? && !error.OutOfBounds?
  }

  predicate Sized(memory: Memory, captureCount: nat, registerCount: nat) {
    |memory.captures| == 2 * captureCount && |memory.registers| == registerCount
  }

  predicate FramesSized(controls: seq<Frame>, captureCount: nat, registerCount: nat) {
    forall i :: 0 <= i < |controls| ==> Sized(controls[i].memory, captureCount, registerCount)
  }

  lemma FramesPush(program: seq<Instruction>, controls: seq<Frame>, frame: Frame)
    requires FramesInScope(program, controls)
    requires match frame.kind
             case Resume(pc) => InScope(program, pc, controls)
             case Assertion(_, target) => InScope(program, target, controls)
    ensures FramesInScope(program, controls + [frame])
  {
    var upper := controls + [frame];
    forall i | 0 <= i < |upper|
      ensures FrameInScope(program, upper, i)
    {
      assert upper[..i] == controls[..i];
      if i < |controls| {
        assert FrameInScope(program, controls, i);
      } else {
        assert controls[..i] == controls;
      }
    }
  }

  lemma FramesPrefix(program: seq<Instruction>, controls: seq<Frame>, n: nat)
    requires FramesInScope(program, controls) && n <= |controls|
    ensures FramesInScope(program, controls[..n])
  {
    forall i | 0 <= i < n
      ensures FrameInScope(program, controls[..n], i)
    {
      assert controls[..n][..i] == controls[..i];
      assert FrameInScope(program, controls, i);
    }
  }

  lemma OpenPush(controls: seq<Frame>, frame: Frame)
    ensures OpenFrames(controls + [frame])
         == OpenFrames(controls) + if frame.kind.Assertion? then [frame.kind] else []
  {
    assert (controls + [frame])[..|controls|] == controls;
  }

  /** The innermost open assertion of a control stack is the last of its open frames. */
  lemma {:induction false} LastOpen(controls: seq<Frame>)
    ensures var index := LastAssertion(controls);
            if index.None? then OpenFrames(controls) == []
            else OpenFrames(controls) == OpenFrames(controls[..index.value]) + [controls[index.value].kind]
    decreases |controls|
  {
    if controls != [] && !controls[|controls| - 1].kind.Assertion? {
      var below := controls[..|controls| - 1];
      LastOpen(below);
      var index := LastAssertion(below);
      if index.Some? {
        assert below[..index.value] == controls[..index.value];
      }
    }
  }

  /** A branch stays in its scope. */
  lemma BranchInScope(program: seq<Instruction>, captureCount: nat, registerCount: nat, pc: nat, target: nat,
                      controls: seq<Frame>)
    requires ValidProgram(program, captureCount, registerCount) && pc < |program|
    requires target in Targets(program[pc]) && InScope(program, pc, controls)
    ensures InScope(program, target, controls)
  {
    assert FirstPass(program, captureCount, registerCount, pc) && SecondPass(program, pc);
    SameScopeSameChain(program, target, pc);
  }

  lemma NextInScope(program: seq<Instruction>, pc: nat, controls: seq<Frame>)
    requires pc < |program| && InScope(program, pc, controls)
    requires !program[pc].LookAhead? && !program[pc].LookAheadEnd?
    ensures InScope(program, pc + 1, controls)
  {
  }

  lemma LookAheadScoped(m: Engine, captureCount: nat, registerCount: nat, c: Config)
    requires ValidProgram(m.program, captureCount, registerCount)
    requires c.Running? && Scoped(m.program, captureCount, registerCount, c)
    requires c.pc < |m.program| && m.program[c.pc].LookAhead?
    ensures Scoped(m.program, captureCount, registerCount, Step(m, c))
  {
    var instruction := m.program[c.pc];
    BranchInScope(m.program, captureCount, registerCount, c.pc, instruction.target, c.controls);
    var frame := Frame(Assertion(instruction.negative, instruction.target), c.position, c.memory);
    FramesPush(m.program, c.controls, frame);
    OpenPush(c.controls, frame);
    var chain := Opened(m.program, c.pc);
    assert ScopeChain(m.program, chain + [c.pc]) == ScopeChain(m.program, chain) + [frame.kind];
  }

  /** The end of a lookahead finds its own frame innermost. */
  lemma OwnFrame(program: seq<Instruction>, pc: nat, controls: seq<Frame>)
    requires pc < |program| && program[pc].LookAheadEnd? && Paired(program, pc) && InScope(program, pc, controls)
    ensures var index := LastAssertion(controls);
            && index.Some?
            && controls[index.value].kind == Assertion(program[pc].negative, pc + 1)
            && InScope(program, pc + 1, controls[..index.value])
  {
    OpenedNext(program, pc);
    LastOpen(controls);
    var chain := Opened(program, pc);
    var kinds := ScopeChain(program, chain);
    assert |kinds| > 0;
    var index := LastAssertion(controls).value;
    assert OpenFrames(controls[..index]) + [controls[index].kind] == kinds;
    assert controls[index].kind == kinds[|kinds| - 1];
    assert OpenFrames(controls[..index]) == kinds[..|kinds| - 1];
    assert ScopeChain(program, chain[..|chain| - 1]) == kinds[..|kinds| - 1];
  }

  lemma LookAheadEndScoped(m: Engine, captureCount: nat, registerCount: nat, c: Config)
    requires ValidProgram(m.program, captureCount, registerCount)
    requires c.Running? && Scoped(m.program, captureCount, registerCount, c)
    requires c.pc < |m.program| && m.program[c.pc].LookAheadEnd?
    ensures Scoped(m.program, captureCount, registerCount, Step(m, c))
  {
    assert Paired(m.program, c.pc) by { assert FirstPass(m.program, captureCount, registerCount, c.pc); }
    OwnFrame(m.program, c.pc, c.controls);
    var index := LastAssertion(c.controls).value;
    FramesPrefix(m.program, c.controls, index);
  }

  lemma SplitScoped(m: Engine, captureCount: nat, registerCount: nat, c: Config)
    requires ValidProgram(m.program, captureCount, registerCount)
    requires c.Running? && Scoped(m.program, captureCount, registerCount, c)
    requires c.pc < |m.program| && m.program[c.pc].Split?
    ensures Scoped(m.program, captureCount, registerCount, Step(m, c))
  {
    var instruction := m.program[c.pc];
    BranchInScope(m.program, captureCount, registerCount, c.pc, instruction.first, c.controls);
    BranchInScope(m.program, captureCount, registerCount, c.pc, instruction.second, c.controls);
    var frame := Frame(Resume(instruction.second), c.position, c.memory);
    FramesPush(m.program, c.controls, frame);
    OpenPush(c.controls, frame);
  }

  lemma BranchScoped(m: Engine, captureCount: nat, registerCount: nat, c: Config)
    requires ValidProgram(m.program, captureCount, registerCount)
    requires c.Running? && Scoped(m.program, captureCount, registerCount, c)
    requires c.pc < |m.program| && (m.program[c.pc].Jump? || m.program[c.pc].Loop?)
    ensures Scoped(m.program, captureCount, registerCount, Step(m, c))
  {
    assert FirstPass(m.program, captureCount, registerCount, c.pc);
    BranchInScope(m.program, captureCount, registerCount, c.pc, m.program[c.pc].target, c.controls);
    if m.program[c.pc].Loop? {
      NextInScope(m.program, c.pc, c.controls);
    }
  }

  lemma PlainScoped(m: Engine, captureCount: nat, registerCount: nat, c: Config)
    requires ValidProgram(m.program, captureCount, registerCount)
    requires c.Running? && Scoped(m.program, captureCount, registerCount, c)
    requires c.pc < |m.program| && Targets(m.program[c.pc]) == [] && !m.program[c.pc].LookAheadEnd?
    ensures Scoped(m.program, captureCount, registerCount, Step(m, c))
  {
    assert FirstPass(m.program, captureCount, registerCount, c.pc);
    NextInScope(m.program, c.pc, c.controls);
  }

  lemma BacktrackScoped(program: seq<Instruction>, captureCount: nat, registerCount: nat, controls: seq<Frame>)
    requires FramesInScope(program, controls) && FramesSized(controls, captureCount, registerCount)
    ensures Scoped(program, captureCount, registerCount, Backtrack(controls))
  {
    if controls != [] {
      var n := |controls| - 1;
      assert FrameInScope(program, controls, n);
      FramesPrefix(program, controls, n);
    }
  }

  /** One step keeps the open assertions in scope, and never raises a structural error. */
  lemma StepScoped(m: Engine, captureCount: nat, registerCount: nat, c: Config)
    requires ValidProgram(m.program, captureCount, registerCount)
    requires !Terminal(c) && Scoped(m.program, captureCount, registerCount, c)
    ensures Scoped(m.program, captureCount, registerCount, Step(m, c))
  {
    if c.Failing? {
      BacktrackScoped(m.program, captureCount, registerCount, c.controls);
    } else if c.pc < |m.program| {
      var instruction := m.program[c.pc];
      if instruction.LookAhead? {
        LookAheadScoped(m, captureCount, registerCount, c);
      } else if instruction.LookAheadEnd? {
        LookAheadEndScoped(m, captureCount, registerCount, c);
      } else if instruction.Split? {
        SplitScoped(m, captureCount, registerCount, c);
      } else if instruction.Jump? || instruction.Loop? {
        BranchScoped(m, captureCount, registerCount, c);
      } else {
        PlainScoped(m, captureCount, registerCount, c);
      }
    }
  }

  lemma StartScoped(program: seq<Instruction>, captureCount: nat, registerCount: nat, position: nat)
    ensures Scoped(program, captureCount, registerCount, Start(captureCount, registerCount, position))
  {
    NothingOpened(program);
    assert ScopeChain(program, []) == [];
  }

  lemma {:induction false} RunScoped(m: Engine, captureCount: nat, registerCount: nat, c: Config, k: nat)
    requires ValidProgram(m.program, captureCount, registerCount)
    requires Scoped(m.program, captureCount, registerCount, c)
    ensures Scoped(m.program, captureCount, registerCount, After(m, c, k))
    decreases k
  {
    hide ValidProgram;
    hide Scoped;
    hide Step;
    if k > 0 && !Terminal(c) {
      StepScoped(m, captureCount, registerCount, c);
      RunScoped(m, captureCount, registerCount, Step(m, c), k - 1);
    }
  }

  /**
   In every reachable state of every validated program the open assertions are
   exactly those around the program counter, every saved alternative lies in the
   scope of the frames below it, and no structural error is ever raised.
   */
  lemma EveryStateScoped(m: Engine, captureCount: nat, registerCount: nat, position: nat, k: nat)
    requires ValidProgram(m.program, captureCount, registerCount)
    ensures Scoped(m.program, captureCount, registerCount, After(m, Start(captureCount, registerCount, position), k))
  {
    StartScoped(m.program, captureCount, registerCount, position);
    RunScoped(m, captureCount, registerCount, Start(captureCount, registerCount, position), k);
  }
}
