/**
 The instruction set and the backtracking machine that gives it meaning. Here a
 control frame holds a full copy of the captures and registers; the executor's
 undo log is proved equivalent in modules UndoLog and Executor.
 */
module Machine {
  import opened Basics
  import opened Characters
  import opened CharacterRanges
  import opened Matcher

  datatype Instruction =
    | Char(value: nat, ignoreCase: bool)
    | Dot
    | Any
    | Space(inverted: bool)
    | Range(ranges: seq<CharacterRange>, inverted: bool, ignoreCase: bool)
    | LineStart(multiline: bool)
    | LineEnd(multiline: bool)
    | WordBoundary(inverted: bool, ignoreCase: bool)
    | Prev
    | BackReference(captures: seq<nat>, ignoreCase: bool)
    | BackwardBackReference(captures: seq<nat>, ignoreCase: bool)
    | LookAhead(negative: bool, target: nat)
    | LookAheadEnd(negative: bool)
    | Jump(target: nat)
    | Split(first: nat, second: nat)
    | Match
    | SaveStart(capture: nat)
    | SaveEnd(capture: nat)
    | ResetCaptures(from: nat, to: nat)
    | SetRegister(register: nat, value: nat)
    | Loop(register: nat, target: nat)
    | SavePosition(register: nat)
    | CheckAdvance(register: nat)

  datatype RegisterValue = Unset | Counter(value: nat) | Position(position: nat)

  /** Slot `2 * c` is the start of capture `c` and slot `2 * c + 1` its end. */
  datatype Memory = Memory(captures: seq<Option<nat>>, registers: seq<RegisterValue>)

  datatype ControlKind =
    | Resume(pc: nat)
    | Assertion(negative: bool, target: nat)

  datatype Frame = Frame(kind: ControlKind, position: nat, memory: Memory)

  /** `OutOfBounds` stands for an index panic; validation rules it out. */
  datatype ProgramError =
    | ProgramCounter(pc: nat)
    | CounterRegisterExpected(pc: nat, register: nat)
    | PositionRegisterExpected(pc: nat, register: nat)
    | AssertionStructure(pc: nat)
    | IncompleteCapture(capture: nat)
    | OutOfBounds(pc: nat)

  datatype Config =
    | Running(pc: nat, position: nat, memory: Memory, controls: seq<Frame>)
    | Failing(controls: seq<Frame>)
    | Matched(captures: seq<Option<(nat, nat)>>)
    | Exhausted
    | Faulted(error: ProgramError)

  datatype Engine = Engine(env: Env, program: seq<Instruction>)

  // ---- Instructions that only test the input ----

  /** First listed group with both ends set. */
  function FirstComplete(groups: seq<nat>, captures: seq<Option<nat>>): Option<(nat, nat)> {
    if groups == [] then None
    else
      var g := groups[0];
      if 2 * g + 1 < |captures| && captures[2 * g].Some? && captures[2 * g + 1].Some? then
        Some((captures[2 * g].value, captures[2 * g + 1].value))
      else FirstComplete(groups[1..], captures)
  }

  /** Compare the captured text with the input after `position`, character by character. */
  function CompareForward(env: Env, start: nat, end: nat, position: nat, ignoreCase: bool): Option<nat>
    requires end <= |env.input|
    decreases end - start
  {
    if start >= end then Some(position)
    else
      var captured := ReadCharacter(env.input[..end], start, env.unicode);
      var current := ReadCharacter(env.input, position, env.unicode);
      if current.None? then None
      else if Fold(env, ignoreCase, captured.value.character) != Fold(env, ignoreCase, current.value.character) then None
      else CompareForward(env, captured.value.next, end, current.value.next, ignoreCase)
  }

  function CompareBackward(env: Env, start: nat, end: nat, position: nat, ignoreCase: bool): Option<nat>
    decreases end
  {
    if end <= start then (if end == start then Some(position) else None)
    else
      var captured := ReadPreviousBounded(env.input, end, start, env.unicode);
      var current := ReadPreviousBounded(env.input, position, 0, env.unicode);
      if captured.None? || current.None? then None
      else if Fold(env, ignoreCase, captured.value.character) != Fold(env, ignoreCase, current.value.character) then None
      else CompareBackward(env, start, captured.value.next, current.value.next, ignoreCase)
  }

  /** Move over the next character if it passes. */
  function Consume(next: Option<Reading>, accepted: bool): Option<nat> {
    if next.Some? && accepted then Some(next.value.next) else None
  }

  /** The new position, or `None` when the branch fails. */
  function Probe(env: Env, instruction: Instruction, position: nat, captures: seq<Option<nat>>): Option<nat> {
    var next := ReadCharacter(env.input, position, env.unicode);
    var previous := ReadPrevious(env.input, position, env.unicode);
    match instruction
    case Char(value, ignoreCase) =>
      Consume(next, next.Some? && Fold(env, ignoreCase, next.value.character) == value)
    case Dot => Consume(next, next.Some? && !IsLineTerminator(next.value.character))
    case Any => Consume(next, true)
    case Space(inverted) => Consume(next, next.Some? && IsSpace(next.value.character) != inverted)
    case Range(ranges, inverted, ignoreCase) =>
      Consume(next, next.Some? && RangeContains(ranges, Fold(env, ignoreCase, next.value.character)) != inverted)
    case LineStart(multiline) =>
      if position != 0 && (!multiline || previous.None? || !IsLineTerminator(previous.value.character)) then None
      else Some(position)
    case LineEnd(multiline) =>
      if position != |env.input| && (!multiline || next.None? || !IsLineTerminator(next.value.character)) then None
      else Some(position)
    case WordBoundary(inverted, ignoreCase) =>
      var before := previous.Some? && IsWord(previous.value.character, ignoreCase && env.unicode);
      var after := next.Some? && IsWord(next.value.character, ignoreCase && env.unicode);
      if (before != after) == inverted then None else Some(position)
    case Prev => Consume(previous, true)
    case BackReference(groups, ignoreCase) =>
      var range := FirstComplete(groups, captures);
      if range.None? then Some(position)
      else if range.value.1 > |env.input| then None
      else CompareForward(env, range.value.0, range.value.1, position, ignoreCase)
    case BackwardBackReference(groups, ignoreCase) =>
      var range := FirstComplete(groups, captures);
      if range.None? then Some(position)
      else CompareBackward(env, range.value.0, range.value.1, position, ignoreCase)
    case _ => None
  }

  predicate IsProbe(instruction: Instruction) {
    || instruction.Char? || instruction.Dot? || instruction.Any? || instruction.Space? || instruction.Range?
    || instruction.LineStart? || instruction.LineEnd? || instruction.WordBoundary? || instruction.Prev?
    || instruction.BackReference? || instruction.BackwardBackReference?
  }

  /** The captures and registers an instruction names exist. */
  predicate InstructionBounded(instruction: Instruction, captureCount: nat, registerCount: nat) {
    match instruction
    case SaveStart(capture) => capture < captureCount
    case SaveEnd(capture) => capture < captureCount
    case ResetCaptures(from, to) => from <= to < captureCount
    case BackReference(captures, _) => captures != [] && forall i :: 0 <= i < |captures| ==> captures[i] < captureCount
    case BackwardBackReference(captures, _) =>
      captures != [] && forall i :: 0 <= i < |captures| ==> captures[i] < captureCount
    case SetRegister(register, _) => register < registerCount
    case Loop(register, _) => register < registerCount
    case SavePosition(register) => register < registerCount
    case CheckAdvance(register) => register < registerCount
    case _ => true
  }

  predicate Bounded(program: seq<Instruction>, captureCount: nat, registerCount: nat) {
    forall i :: 0 <= i < |program| ==> InstructionBounded(program[i], captureCount, registerCount)
  }

  // ---- Memory ----

  function SetCapture(memory: Memory, slot: nat, value: Option<nat>): Memory
    requires slot < |memory.captures|
  {
    memory.(captures := memory.captures[slot := value])
  }

  function SetRegisterTo(memory: Memory, register: nat, value: RegisterValue): Memory
    requires register < |memory.registers|
  {
    memory.(registers := memory.registers[register := value])
  }

  /** Clear both ends of captures `from` to `to`. */
  function ClearCaptures(memory: Memory, from: nat, to: nat): (r: Memory)
    ensures r.registers == memory.registers && |r.captures| == |memory.captures|
    ensures forall i :: 0 <= i < |memory.captures| ==>
      r.captures[i] == if 2 * from <= i <= 2 * to + 1 then None else memory.captures[i]
  {
    memory.(captures := seq(|memory.captures|, i requires 0 <= i < |memory.captures| =>
      if 2 * from <= i <= 2 * to + 1 then None else memory.captures[i]))
  }

  /** u32 `wrapping_sub(1)`. */
  function Decrement(value: nat): nat {
    if value == 0 then U32_MAX else value - 1
  }

  /** The captures of a finished match, or the first group with only one usable end. */
  function FinishFrom(captures: seq<Option<nat>>, capture: nat): Result<seq<Option<(nat, nat)>>, nat>
    requires |captures| % 2 == 0 && 2 * capture <= |captures|
    decreases |captures| - 2 * capture
  {
    if 2 * capture == |captures| then Ok([])
    else
      var start, end := captures[2 * capture], captures[2 * capture + 1];
      var rest := FinishFrom(captures, capture + 1);
      if start.None? && end.None? then
        (if rest.Ok? then Ok([None] + rest.value) else rest)
      else if start.Some? && end.Some? && start.value <= end.value then
        (if rest.Ok? then Ok([Some((start.value, end.value))] + rest.value) else rest)
      else Err(capture)
  }

  function Finish(memory: Memory): Config {
    if |memory.captures| % 2 != 0 then Faulted(OutOfBounds(0))
    else
      match FinishFrom(memory.captures, 0)
      case Ok(captures) => Matched(captures)
      case Err(capture) => Faulted(IncompleteCapture(capture))
  }

  // ---- Control ----

  /** Index of the innermost open assertion. */
  function LastAssertion(controls: seq<Frame>): (r: Option<nat>)
    ensures r.Some? ==> r.value < |controls| && controls[r.value].kind.Assertion?
    ensures r.Some? ==> forall i :: r.value < i < |controls| ==> controls[i].kind.Resume?
    ensures r.None? ==> forall i :: 0 <= i < |controls| ==> controls[i].kind.Resume?
  {
    if controls == [] then None
    else if controls[|controls| - 1].kind.Assertion? then Some(|controls| - 1)
    else LastAssertion(controls[..|controls| - 1])
  }

  function EndAssertion(pc: nat, negative: bool, memory: Memory, controls: seq<Frame>): Config {
    var index := LastAssertion(controls);
    if index.None? || controls[index.value].kind != Assertion(negative, pc + 1) then Faulted(AssertionStructure(pc))
    else if negative then Failing(controls[..index.value])
    else Running(pc + 1, controls[index.value].position, memory, controls[..index.value])
  }

  function Execute(env: Env, instruction: Instruction, pc: nat, position: nat, memory: Memory, controls: seq<Frame>)
    : Config
  {
    match instruction
    case LookAhead(negative, target) =>
      Running(pc + 1, position, memory, controls + [Frame(Assertion(negative, target), position, memory)])
    case LookAheadEnd(negative) => EndAssertion(pc, negative, memory, controls)
    case Jump(target) => Running(target, position, memory, controls)
    case Split(first, second) => Running(first, position, memory, controls + [Frame(Resume(second), position, memory)])
    case Match => Finish(memory)
    case SaveStart(capture) =>
      if 2 * capture >= |memory.captures| then Faulted(OutOfBounds(pc))
      else Running(pc + 1, position, SetCapture(memory, 2 * capture, Some(position)), controls)
    case SaveEnd(capture) =>
      if 2 * capture + 1 >= |memory.captures| then Faulted(OutOfBounds(pc))
      else Running(pc + 1, position, SetCapture(memory, 2 * capture + 1, Some(position)), controls)
    case ResetCaptures(from, to) =>
      if from <= to && 2 * to + 1 >= |memory.captures| then Faulted(OutOfBounds(pc))
      else Running(pc + 1, position, ClearCaptures(memory, from, to), controls)
    case SetRegister(register, value) =>
      if register >= |memory.registers| then Faulted(OutOfBounds(pc))
      else Running(pc + 1, position, SetRegisterTo(memory, register, Counter(value)), controls)
    case Loop(register, target) =>
      if register >= |memory.registers| then Faulted(OutOfBounds(pc))
      else if !memory.registers[register].Counter? then Faulted(CounterRegisterExpected(pc, register))
      else
        var value := Decrement(memory.registers[register].value);
        Running(if value != 0 then target else pc + 1, position, SetRegisterTo(memory, register, Counter(value)), controls)
    case SavePosition(register) =>
      if register >= |memory.registers| then Faulted(OutOfBounds(pc))
      else Running(pc + 1, position, SetRegisterTo(memory, register, Position(position)), controls)
    case CheckAdvance(register) =>
      if register >= |memory.registers| then Faulted(OutOfBounds(pc))
      else if !memory.registers[register].Position? then Faulted(PositionRegisterExpected(pc, register))
      else if memory.registers[register].position == position then Failing(controls)
      else Running(pc + 1, position, memory, controls)
    case _ =>
      var next := Probe(env, instruction, position, memory.captures);
      if next.Some? then Running(pc + 1, next.value, memory, controls) else Failing(controls)
  }

  /** Pop one control frame. */
  function Backtrack(controls: seq<Frame>): Config {
    if controls == [] then Exhausted
    else
      var frame := controls[|controls| - 1];
      var below := controls[..|controls| - 1];
      match frame.kind
      case Resume(pc) => Running(pc, frame.position, frame.memory, below)
      case Assertion(negative, target) =>
        if negative then Running(target, frame.position, frame.memory, below) else Failing(below)
  }

  predicate Terminal(c: Config) {
    c.Matched? || c.Exhausted? || c.Faulted?
  }

  function Step(m: Engine, c: Config): Config
    requires !Terminal(c)
  {
    match c
    case Running(pc, position, memory, controls) =>
      if pc >= |m.program| then Faulted(ProgramCounter(pc))
      else Execute(m.env, m.program[pc], pc, position, memory, controls)
    case Failing(controls) => Backtrack(controls)
  }

  /** The blank memory of a fresh attempt. */
  function Blank(captureCount: nat, registerCount: nat): Memory {
    Memory(seq(2 * captureCount, _ => None), seq(registerCount, _ => Unset))
  }

  function Start(captureCount: nat, registerCount: nat, position: nat): Config {
    Running(0, position, Blank(captureCount, registerCount), [])
  }

  /** The state after `n` steps; a finished run stays where it is. */
  function After(m: Engine, c: Config, n: nat): Config
    decreases n
  {
    if n == 0 || Terminal(c) then c else After(m, Step(m, c), n - 1)
  }
}
