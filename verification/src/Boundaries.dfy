/**
 In Unicode mode no position, saved position or capture of a running program ever
 falls between the two halves of a surrogate pair, whatever the program.
 */
module Boundaries {
  import opened Basics
  import opened Characters
  import opened Matcher
  import opened Machine

  predicate AtBoundary(env: Env, position: nat) {
    Boundary(env.input, position, env.unicode)
  }

  predicate MemoryAtBoundaries(env: Env, memory: Memory) {
    && (forall i :: 0 <= i < |memory.captures| ==> memory.captures[i].Some? ==> AtBoundary(env, memory.captures[i].value))
    && (forall i :: 0 <= i < |memory.registers| ==>
          memory.registers[i].Position? ==> AtBoundary(env, memory.registers[i].position))
  }

  predicate FrameAtBoundaries(env: Env, frame: Frame) {
    AtBoundary(env, frame.position) && MemoryAtBoundaries(env, frame.memory)
  }

  predicate FramesAtBoundaries(env: Env, controls: seq<Frame>) {
    forall i :: 0 <= i < |controls| ==> FrameAtBoundaries(env, controls[i])
  }

  predicate AtBoundaries(env: Env, c: Config) {
    match c
    case Running(_, position, memory, controls) =>
      AtBoundary(env, position) && MemoryAtBoundaries(env, memory) && FramesAtBoundaries(env, controls)
    case Failing(controls) => FramesAtBoundaries(env, controls)
    case Matched(captures) =>
      forall i :: 0 <= i < |captures| ==> captures[i].Some? ==>
        AtBoundary(env, captures[i].value.0) && AtBoundary(env, captures[i].value.1)
    case _ => true
  }

  lemma {:induction false} CompareForwardBoundary(env: Env, start: nat, end: nat, position: nat, ignoreCase: bool)
    requires end <= |env.input| && AtBoundary(env, position)
    ensures var r := CompareForward(env, start, end, position, ignoreCase); r.Some? ==> AtBoundary(env, r.value)
    decreases end - start
  {
    if start < end {
      var captured := ReadCharacter(env.input[..end], start, env.unicode);
      var current := ReadCharacter(env.input, position, env.unicode);
      ForwardThenBackward(env.input, position, env.unicode);
      if current.Some? {
        CompareForwardBoundary(env, captured.value.next, end, current.value.next, ignoreCase);
      }
    }
  }

  lemma {:induction false} CompareBackwardBoundary(env: Env, start: nat, end: nat, position: nat, ignoreCase: bool)
    requires AtBoundary(env, position)
    ensures var r := CompareBackward(env, start, end, position, ignoreCase); r.Some? ==> AtBoundary(env, r.value)
    decreases end
  {
    if start < end {
      var captured := ReadPreviousBounded(env.input, end, start, env.unicode);
      var current := ReadPreviousBounded(env.input, position, 0, env.unicode);
      BackwardThenForward(env.input, position, env.unicode);
      if captured.Some? && current.Some? {
        CompareBackwardBoundary(env, start, captured.value.next, current.value.next, ignoreCase);
      }
    }
  }

  lemma ProbeBoundary(env: Env, instruction: Instruction, position: nat, captures: seq<Option<nat>>)
    requires AtBoundary(env, position)
    ensures var r := Probe(env, instruction, position, captures); r.Some? ==> AtBoundary(env, r.value)
  {
    hide CompareForward;
    hide CompareBackward;
    hide FirstComplete;
    hide ReadCharacter;
    hide ReadPreviousBounded;
    hide Boundary;
    hide IsSpace;
    hide IsWord;
    hide IsLineTerminator;
    hide Fold;
    ForwardThenBackward(env.input, position, env.unicode);
    BackwardThenForward(env.input, position, env.unicode);
    match instruction
    case BackReference(groups, ignoreCase) =>
      var range := FirstComplete(groups, captures);
      if range.Some? && range.value.1 <= |env.input| {
        CompareForwardBoundary(env, range.value.0, range.value.1, position, ignoreCase);
      }
    case BackwardBackReference(groups, ignoreCase) =>
      var range := FirstComplete(groups, captures);
      if range.Some? {
        CompareBackwardBoundary(env, range.value.0, range.value.1, position, ignoreCase);
      }
    case _ =>
  }

  lemma {:induction false} FinishBoundary(env: Env, captures: seq<Option<nat>>, capture: nat)
    requires |captures| % 2 == 0 && 2 * capture <= |captures|
    requires MemoryAtBoundaries(env, Memory(captures, []))
    ensures var r := FinishFrom(captures, capture); r.Ok? ==> AtBoundaries(env, Matched(r.value))
    decreases |captures| - capture
  {
    if 2 * capture < |captures| {
      FinishBoundary(env, captures, capture + 1);
    }
  }

  lemma StepAtBoundaries(m: Engine, c: Config)
    requires !Terminal(c) && AtBoundaries(m.env, c)
    ensures AtBoundaries(m.env, Step(m, c))
  {
    if c.Running? && c.pc < |m.program| {
      var instruction := m.program[c.pc];
      if IsProbe(instruction) {
        ProbeBoundary(m.env, instruction, c.position, c.memory.captures);
      } else if instruction.Match? {
        if |c.memory.captures| % 2 == 0 {
          FinishBoundary(m.env, c.memory.captures, 0);
        }
      }
    }
  }

  /** Over every run, of every program, from every boundary. */
  lemma {:induction false} EveryStateAtBoundaries(m: Engine, c: Config, k: nat)
    requires AtBoundaries(m.env, c)
    ensures AtBoundaries(m.env, After(m, c, k))
    decreases k
  {
    hide Step;
    if k > 0 && !Terminal(c) {
      StepAtBoundaries(m, c);
      EveryStateAtBoundaries(m, Step(m, c), k - 1);
    }
  }

  lemma StartAtBoundary(env: Env, captureCount: nat, registerCount: nat, position: nat)
    requires AtBoundary(env, position)
    ensures AtBoundaries(env, Start(captureCount, registerCount, position))
  {
  }
}
