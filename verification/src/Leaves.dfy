/** The code of characters, assertions, classes and back references does what the reference matcher says. */
module Leaves {
  import opened Basics
  import opened Characters
  import opened CharacterRanges
  import opened Pattern
  import opened Matcher
  import opened Machine
  import opened Code
  import opened Runs

  // ---- Code inside a program ----

  predicate Placed(program: seq<Instruction>, at: nat, code: seq<Instruction>) {
    at + |code| <= |program| && program[at..at + |code|] == code
  }

  lemma PlacedSplit(program: seq<Instruction>, at: nat, a: seq<Instruction>, b: seq<Instruction>)
    requires Placed(program, at, a + b)
    ensures Placed(program, at, a) && Placed(program, at + |a|, b)
  {
    var whole := program[at..at + |a + b|];
    assert whole[..|a|] == a && whole[|a|..] == b;
    assert program[at..at + |a|] == whole[..|a|];
    assert program[at + |a|..at + |a| + |b|] == whole[|a|..];
  }

  lemma PlacedSplit3(program: seq<Instruction>, at: nat, a: seq<Instruction>, b: seq<Instruction>, c: seq<Instruction>)
    requires Placed(program, at, a + b + c)
    ensures Placed(program, at, a) && Placed(program, at + |a|, b) && Placed(program, at + |a| + |b|, c)
  {
    PlacedSplit(program, at, a + b, c);
    PlacedSplit(program, at, a, b);
  }

  lemma PlacedOne(program: seq<Instruction>, at: nat, instruction: Instruction)
    requires Placed(program, at, [instruction])
    ensures at < |program| && program[at] == instruction
  {
    assert program[at..at + 1][0] == program[at];
  }

  // ---- Entering a node ----

  /** The capture that the two slots of a group stand for. */
  predicate Reads(memory: Memory, g: nat, capture: Option<(nat, nat)>)
    requires 2 * g + 1 < |memory.captures|
  {
    var start, end := memory.captures[2 * g], memory.captures[2 * g + 1];
    capture == if start.Some? && end.Some? then Some((start.value, end.value)) else None
  }

  /** Memory stands for the captures of `x`, and the groups from `low` up to `high` are clear. */
  predicate Ready(x: Cursor, memory: Memory, low: nat, high: nat) {
    && |memory.captures| == 2 * |x.captures|
    && forall g :: 0 <= g < |x.captures| ==>
         && Reads(memory, g, x.captures[g])
         && (low <= g < high ==> HoldsGroup(memory, g, None))
  }

  lemma ReadyFits(x: Cursor, memory: Memory, low: nat, high: nat, depth: nat, position: nat)
    requires Ready(x, memory, low, high)
    ensures Fits(Footing(memory, low, high, depth), x.(position := position), memory)
  {
  }

  // ---- Probes ----

  lemma ProbeRuns(m: Engine, at: nat, position: nat, memory: Memory, controls: seq<Frame>)
    requires at < |m.program| && IsProbe(m.program[at])
    ensures var next := Probe(m.env, m.program[at], position, memory.captures);
            Reaches(m, Running(at, position, memory, controls),
                    if next.Some? then Running(at + 1, next.value, memory, controls) else Failing(controls))
  {
    hide Probe;
    hide Reaches;
    ReachesOne(m, Running(at, position, memory, controls));
  }

  /** A run that either moves to one position or fails yields at most one result. */
  lemma YieldsAtMostOne(m: Engine, c: Config, exit: nat, x: Cursor, next: Option<nat>, memory: Memory,
                        controls: seq<Frame>, low: nat, high: nat, depth: nat)
    requires Ready(x, memory, low, high)
    requires Reaches(m, c, if next.Some? then Running(exit, next.value, memory, controls) else Failing(controls))
    ensures Yields(m, c, exit, if next.Some? then [x.(position := next.value)] else [], controls,
                   Footing(memory, low, high, depth))
  {
    hide Reaches;
    if next.Some? {
      ReadyFits(x, memory, low, high, depth, next.value);
      YieldsOne(m, c, exit, x.(position := next.value), controls, Footing(memory, low, high, depth), memory);
    } else {
      YieldsNone(m, c, exit, controls, Footing(memory, low, high, depth));
    }
  }

  predicate IsConsumer(instruction: Instruction) {
    instruction.Char? || instruction.Dot? || instruction.Any? || instruction.Space? || instruction.Range?
  }

  predicate Passes(env: Env, instruction: Instruction, character: nat) {
    match instruction
    case Char(value, ignoreCase) => Fold(env, ignoreCase, character) == value
    case Dot => !IsLineTerminator(character)
    case Any => true
    case Space(inverted) => IsSpace(character) != inverted
    case Range(ranges, inverted, ignoreCase) => RangeContains(ranges, Fold(env, ignoreCase, character)) != inverted
    case _ => false
  }

  /** Where a character instruction leads in the given direction. */
  function Passed(env: Env, instruction: Instruction, backward: bool, position: nat): Option<nat> {
    var next := Next(env, backward, position);
    Consume(next, next.Some? && Passes(env, instruction, next.value.character))
  }

  lemma ConsumerPasses(env: Env, instruction: Instruction, position: nat, captures: seq<Option<nat>>)
    requires IsConsumer(instruction)
    ensures Probe(env, instruction, position, captures) == Passed(env, instruction, false, position)
  {
  }

  /** The same instruction between two `Prev` instructions consumes the character before the position. */
  lemma GuardedBackward(m: Engine, at: nat, instruction: Instruction, position: nat, memory: Memory, controls: seq<Frame>)
    requires Placed(m.program, at, [Prev] + [instruction] + [Prev]) && IsConsumer(instruction)
    requires Boundary(m.env.input, position, m.env.unicode)
    ensures var next := Passed(m.env, instruction, true, position);
            Reaches(m, Running(at, position, memory, controls),
                    if next.Some? then Running(at + 3, next.value, memory, controls) else Failing(controls))
  {
    PlacedSplit3(m.program, at, [Prev], [instruction], [Prev]);
    PlacedOne(m.program, at, Prev);
    PlacedOne(m.program, at + 1, instruction);
    PlacedOne(m.program, at + 2, Prev);
    BackwardThenForward(m.env.input, position, m.env.unicode);
    var start := Running(at, position, memory, controls);
    ProbeRuns(m, at, position, memory, controls);
    var previous := ReadPrevious(m.env.input, position, m.env.unicode);
    if previous.Some? {
      var p := previous.value.next;
      ProbeRuns(m, at + 1, p, memory, controls);
      ConsumerPasses(m.env, instruction, p, memory.captures);
      var middle := Running(at + 1, p, memory, controls);
      if Passes(m.env, instruction, previous.value.character) {
        ProbeRuns(m, at + 2, position, memory, controls);
        ReachesTransitive(m, start, middle, Running(at + 2, position, memory, controls));
        ReachesTransitive(m, start, Running(at + 2, position, memory, controls), Running(at + 3, p, memory, controls));
      } else {
        ReachesTransitive(m, start, middle, Failing(controls));
      }
    }
  }

  lemma GuardedRuns(m: Engine, at: nat, instruction: Instruction, backward: bool, position: nat, memory: Memory,
                    controls: seq<Frame>)
    requires Placed(m.program, at, Guarded(backward, instruction)) && IsConsumer(instruction)
    requires Boundary(m.env.input, position, m.env.unicode)
    ensures var next := Passed(m.env, instruction, backward, position);
            Reaches(m, Running(at, position, memory, controls),
                    if next.Some? then Running(at + |Guarded(backward, instruction)|, next.value, memory, controls)
                    else Failing(controls))
  {
    if backward {
      GuardedBackward(m, at, instruction, position, memory, controls);
    } else {
      assert Guarded(backward, instruction) == [instruction];
      PlacedOne(m.program, at, instruction);
      ProbeRuns(m, at, position, memory, controls);
      ConsumerPasses(m.env, instruction, position, memory.captures);
    }
  }

  // ---- Atoms that consume one character ----

  function CharacterInstruction(canonicalize: Canonicalize, mods: Modifiers, atom: Atom): Instruction {
    match atom
    case Literal(value) => Char(if mods.ignoreCase then canonicalize(value) else value, mods.ignoreCase)
    case Space(inverted) => Instruction.Space(inverted)
    case Class(class_) => Range(class_.ranges, class_.inverted, mods.ignoreCase)
    case _ => if mods.dotAll then Any else Instruction.Dot
  }

  lemma InstructionAccepts(env: Env, mods: Modifiers, atom: Atom, character: nat)
    requires atom.Literal? || atom.Dot? || atom.Space? || (atom.Class? && Normalized(atom.class_.ranges))
    ensures Passes(env, CharacterInstruction(env.canonicalize, mods, atom), character)
        <==> Accepts(env, mods, atom, character)
  {
    if atom.Class? {
      RangeContainsIsMember(atom.class_.ranges, Fold(env, mods.ignoreCase, character));
    }
  }

  lemma OneCorrect(m: Engine, mods: Modifiers, atom: Atom, backward: bool, x: Cursor, at: nat, memory: Memory,
                   controls: seq<Frame>, low: nat, high: nat, depth: nat)
    requires atom.Literal? || atom.Dot? || atom.Space? || (atom.Class? && Normalized(atom.class_.ranges))
    requires Placed(m.program, at, Guarded(backward, CharacterInstruction(m.env.canonicalize, mods, atom)))
    requires Valid(m.env, x) && Ready(x, memory, low, high)
    ensures Yields(m, Running(at, x.position, memory, controls),
                   at + |Guarded(backward, CharacterInstruction(m.env.canonicalize, mods, atom))|,
                   MatchOne(m.env, mods, atom, backward, x), controls, Footing(memory, low, high, depth))
  {
    var instruction := CharacterInstruction(m.env.canonicalize, mods, atom);
    GuardedRuns(m, at, instruction, backward, x.position, memory, controls);
    var next := Next(m.env, backward, x.position);
    if next.Some? {
      InstructionAccepts(m.env, mods, atom, next.value.character);
    }
    YieldsAtMostOne(m, Running(at, x.position, memory, controls), at + |Guarded(backward, instruction)|, x,
                    Passed(m.env, instruction, backward, x.position), memory, controls, low, high, depth);
  }

  // ---- Back references ----

  lemma {:induction false} FirstCompleteParticipates(groups: seq<nat>, x: Cursor, memory: Memory, low: nat, high: nat)
    requires Ready(x, memory, low, high)
    ensures FirstComplete(groups, memory.captures) == Participating(groups, x)
    decreases groups
  {
    if groups != [] {
      FirstCompleteParticipates(groups[1..], x, memory, low, high);
      var g := groups[0];
      if g < |x.captures| {
        assert Reads(memory, g, x.captures[g]);
      }
    }
  }

  lemma {:induction false} CompareForwardMatches(env: Env, start: nat, end: nat, position: nat, ignoreCase: bool)
    requires end <= |env.input| && Boundary(env.input, position, env.unicode)
    ensures CompareForward(env, start, end, position, ignoreCase)
         == MatchForward(env, ignoreCase, FoldAll(env, ignoreCase, Text(env, start, end)), position)
    decreases end - start
  {
    if start < end {
      var captured := ReadCharacter(env.input[..end], start, env.unicode).value;
      var current := ReadCharacter(env.input, position, env.unicode);
      ForwardThenBackward(env.input, position, env.unicode);
      var text := Text(env, start, end);
      assert text[0] == captured.character && text[1..] == Text(env, captured.next, end);
      var folded := FoldAll(env, ignoreCase, text);
      assert folded[0] == Fold(env, ignoreCase, text[0]) && folded[1..] == FoldAll(env, ignoreCase, text[1..]);
      if current.Some? {
        CompareForwardMatches(env, captured.next, end, current.value.next, ignoreCase);
      }
    }
  }

  /** The character read backward from the end of the captured text is its last one. */
  lemma {:induction false} TextLast(env: Env, start: nat, end: nat)
    requires start < end <= |env.input|
    ensures var last := ReadPreviousBounded(env.input, end, start, env.unicode);
            && last.Some?
            && start <= last.value.next < end
            && Text(env, start, end) == Text(env, start, last.value.next) + [last.value.character]
    decreases end - start
  {
    var last := ReadPreviousBounded(env.input, end, start, env.unicode).value;
    var head := ReadCharacter(env.input[..end], start, env.unicode).value;
    if head.next < end {
      TextLast(env, head.next, end);
      assert ReadPreviousBounded(env.input, end, head.next, env.unicode).value == last;
      assert ReadCharacter(env.input[..last.next], start, env.unicode).value == head;
      var middle := Text(env, head.next, last.next);
      calc {
        Text(env, start, end);
        [head.character] + Text(env, head.next, end);
        [head.character] + (middle + [last.character]);
        { assert [head.character] + (middle + [last.character]) == ([head.character] + middle) + [last.character]; }
        ([head.character] + middle) + [last.character];
        Text(env, start, last.next) + [last.character];
      }
    } else {
      assert Text(env, head.next, end) == [] && Text(env, start, last.next) == [];
    }
  }

  lemma {:induction false} FoldAllLast(env: Env, ignoreCase: bool, characters: seq<nat>, last: nat)
    ensures FoldAll(env, ignoreCase, characters + [last])
         == FoldAll(env, ignoreCase, characters) + [Fold(env, ignoreCase, last)]
    decreases characters
  {
    if characters != [] {
      FoldAllLast(env, ignoreCase, characters[1..], last);
      assert (characters + [last])[1..] == characters[1..] + [last];
    }
  }

  lemma FoldedLast(env: Env, ignoreCase: bool, start: nat, end: nat)
    requires start <= end <= |env.input|
    ensures start == end ==> FoldAll(env, ignoreCase, Text(env, start, end)) == []
    ensures start < end ==>
      var captured := ReadPreviousBounded(env.input, end, start, env.unicode);
      && captured.Some? && start <= captured.value.next < end
      && FoldAll(env, ignoreCase, Text(env, start, end))
      == FoldAll(env, ignoreCase, Text(env, start, captured.value.next))
       + [Fold(env, ignoreCase, captured.value.character)]
  {
    if start < end {
      TextLast(env, start, end);
      var captured := ReadPreviousBounded(env.input, end, start, env.unicode).value;
      FoldAllLast(env, ignoreCase, Text(env, start, captured.next), captured.character);
    }
  }

  lemma {:induction false} CompareBackwardMatches(env: Env, start: nat, end: nat, position: nat, ignoreCase: bool)
    requires start <= end <= |env.input| && Boundary(env.input, position, env.unicode)
    ensures CompareBackward(env, start, end, position, ignoreCase)
         == MatchBackward(env, ignoreCase, FoldAll(env, ignoreCase, Text(env, start, end)), position)
    decreases end
  {
    hide Text;
    hide FoldAll;
    hide ReadPreviousBounded;
    hide Boundary;
    hide Fold;
    FoldedLast(env, ignoreCase, start, end);
    if start < end {
      var captured := ReadPreviousBounded(env.input, end, start, env.unicode).value;
      var current := ReadPrevious(env.input, position, env.unicode);
      BackwardThenForward(env.input, position, env.unicode);
      if current.Some? {
        CompareBackwardMatches(env, start, captured.next, current.value.next, ignoreCase);
      }
    }
  }

  function ReferenceInstruction(mods: Modifiers, groups: seq<nat>, backward: bool): Instruction {
    if backward then BackwardBackReference(groups, mods.ignoreCase)
    else Instruction.BackReference(groups, mods.ignoreCase)
  }

  /** Where a back reference leads. */
  lemma ReferenceProbe(env: Env, mods: Modifiers, groups: seq<nat>, backward: bool, x: Cursor, memory: Memory,
                       low: nat, high: nat)
    requires Valid(env, x) && Ready(x, memory, low, high)
    ensures var next := Probe(env, ReferenceInstruction(mods, groups, backward), x.position, memory.captures);
            MatchReference(env, mods, groups, backward, x) ==
            if next.Some? then [x.(position := next.value)] else []
  {
    FirstCompleteParticipates(groups, x, memory, low, high);
    var range := Participating(groups, x);
    if range.Some? {
      var g :| 0 <= g < |x.captures| && x.captures[g] == range;
      assert ValidCapture(env, x.captures[g]);
      if backward {
        CompareBackwardMatches(env, range.value.0, range.value.1, x.position, mods.ignoreCase);
      } else {
        CompareForwardMatches(env, range.value.0, range.value.1, x.position, mods.ignoreCase);
      }
    }
  }

  lemma ReferenceCorrect(m: Engine, mods: Modifiers, groups: seq<nat>, backward: bool, x: Cursor, at: nat,
                         memory: Memory, controls: seq<Frame>, low: nat, high: nat, depth: nat)
    requires at < |m.program| && m.program[at] == ReferenceInstruction(mods, groups, backward)
    requires Valid(m.env, x) && Ready(x, memory, low, high)
    ensures Yields(m, Running(at, x.position, memory, controls), at + 1,
                   MatchReference(m.env, mods, groups, backward, x), controls, Footing(memory, low, high, depth))
  {
    ReferenceProbe(m.env, mods, groups, backward, x, memory, low, high);
    ProbeRuns(m, at, x.position, memory, controls);
    YieldsAtMostOne(m, Running(at, x.position, memory, controls), at + 1, x,
                    Probe(m.env, m.program[at], x.position, memory.captures), memory, controls, low, high, depth);
  }

  // ---- Assertions ----

  function AssertionInstruction(mods: Modifiers, atom: Atom): Instruction {
    match atom
    case LineStart => Instruction.LineStart(mods.multiline)
    case LineEnd => Instruction.LineEnd(mods.multiline)
    case WordBoundary(inverted) => Instruction.WordBoundary(inverted, mods.ignoreCase)
    case _ => Instruction.Prev
  }

  lemma AssertionCorrect(m: Engine, mods: Modifiers, atom: Atom, x: Cursor, at: nat, memory: Memory,
                         controls: seq<Frame>, low: nat, high: nat, depth: nat)
    requires atom.LineStart? || atom.LineEnd? || atom.WordBoundary?
    requires at < |m.program| && m.program[at] == AssertionInstruction(mods, atom)
    requires Valid(m.env, x) && Ready(x, memory, low, high)
    ensures Yields(m, Running(at, x.position, memory, controls), at + 1,
                   if Holds(m.env, mods, atom, x.position) then [x] else [], controls,
                   Footing(memory, low, high, depth))
  {
    ProbeRuns(m, at, x.position, memory, controls);
    var next := Probe(m.env, m.program[at], x.position, memory.captures);
    assert next == if Holds(m.env, mods, atom, x.position) then Some(x.position) else None;
    YieldsAtMostOne(m, Running(at, x.position, memory, controls), at + 1, x, next, memory, controls, low, high, depth);
  }

  // ---- Classes ----

  predicate Consumers(part: seq<Instruction>) {
    forall i :: 0 <= i < |part| ==> IsConsumer(part[i])
  }

  function PassedAll(env: Env, part: seq<Instruction>, position: nat): Option<nat> {
    if part == [] then Some(position)
    else
      var next := Passed(env, part[0], false, position);
      if next.None? then None else PassedAll(env, part[1..], next.value)
  }

  lemma {:induction false} PartRuns(m: Engine, at: nat, part: seq<Instruction>, position: nat, memory: Memory,
                                    controls: seq<Frame>)
    requires Placed(m.program, at, part) && Consumers(part)
    ensures var next := PassedAll(m.env, part, position);
            Reaches(m, Running(at, position, memory, controls),
                    if next.Some? then Running(at + |part|, next.value, memory, controls) else Failing(controls))
    decreases |part|
  {
    hide Reaches;
    hide Passed;
    var start := Running(at, position, memory, controls);
    if part == [] {
      ReachesItself(m, start);
    } else {
      assert part == [part[0]] + part[1..];
      PlacedSplit(m.program, at, [part[0]], part[1..]);
      PlacedOne(m.program, at, part[0]);
      ProbeRuns(m, at, position, memory, controls);
      ConsumerPasses(m.env, part[0], position, memory.captures);
      var next := Passed(m.env, part[0], false, position);
      if next.Some? {
        PartRuns(m, at + 1, part[1..], next.value, memory, controls);
        var last := PassedAll(m.env, part[1..], next.value);
        ReachesTransitive(m, start, Running(at + 1, next.value, memory, controls),
          if last.Some? then Running(at + |part|, last.value, memory, controls) else Failing(controls));
      }
    }
  }

  function PartResult(env: Env, part: seq<Instruction>, x: Cursor): seq<Cursor> {
    var next := PassedAll(env, part, x.position);
    if next.Some? then [x.(position := next.value)] else []
  }

  function PartResults(env: Env, parts: seq<seq<Instruction>>, x: Cursor): seq<Cursor> {
    if parts == [] then [] else PartResult(env, parts[0], x) + PartResults(env, parts[1..], x)
  }

  lemma PartYields(m: Engine, at: nat, part: seq<Instruction>, x: Cursor, memory: Memory, controls: seq<Frame>,
                   low: nat, high: nat, depth: nat)
    requires Placed(m.program, at, part) && Consumers(part) && Ready(x, memory, low, high)
    ensures Yields(m, Running(at, x.position, memory, controls), at + |part|, PartResult(m.env, part, x), controls,
                   Footing(memory, low, high, depth))
  {
    hide Reaches;
    hide Ready;
    hide PassedAll;
    hide Yields;
    hide Placed;
    hide Consumers;
    PartRuns(m, at, part, x.position, memory, controls);
    YieldsAtMostOne(m, Running(at, x.position, memory, controls), at + |part|, x,
                    PassedAll(m.env, part, x.position), memory, controls, low, high, depth);
  }

  predicate AllConsumers(parts: seq<seq<Instruction>>) {
    forall i :: 0 <= i < |parts| ==> Consumers(parts[i])
  }

  lemma {:induction false} ChainYields(m: Engine, at: nat, parts: seq<seq<Instruction>>, end: nat, x: Cursor,
                                       memory: Memory, controls: seq<Frame>, low: nat, high: nat, depth: nat)
    requires parts != [] && AllConsumers(parts) && end == at + ChainLength(parts)
    requires Placed(m.program, at, Chain(parts, at, end))
    requires Ready(x, memory, low, high)
    ensures Yields(m, Running(at, x.position, memory, controls), end, PartResults(m.env, parts, x), controls,
                   Footing(memory, low, high, depth))
    decreases |parts|
  {
    hide Yields;
    hide Ready;
    hide Consumers;
    var footing := Footing(memory, low, high, depth);
    if |parts| == 1 {
      PartYields(m, at, parts[0], x, memory, controls, low, high, depth);
      assert PartResults(m.env, parts[1..], x) == [];
      assert PartResults(m.env, parts, x) == PartResult(m.env, parts[0], x);
    } else {
      var next := at + |parts[0]| + 2;
      ChainPlaced(m.program, at, parts, end);
      var upper := controls + [Frame(Resume(next), x.position, memory)];
      PartYields(m, at + 1, parts[0], x, memory, upper, low, high, depth);
      YieldsJump(m, Running(at + 1, x.position, memory, upper), at + 1 + |parts[0]|,
                 PartResult(m.env, parts[0], x), upper, footing);
      ChainYields(m, next, parts[1..], end, x, memory, controls, low, high, depth);
      YieldsSplit(m, at, x.position, memory, controls, end, PartResult(m.env, parts[0], x),
                  PartResults(m.env, parts[1..], x), footing);
    }
  }

  lemma ChainPlaced(program: seq<Instruction>, at: nat, parts: seq<seq<Instruction>>, end: nat)
    requires |parts| > 1 && Placed(program, at, Chain(parts, at, end))
    ensures var next := at + |parts[0]| + 2;
            && at < |program| && program[at] == Split(at + 1, next)
            && Placed(program, at + 1, parts[0])
            && at + 1 + |parts[0]| < |program| && program[at + 1 + |parts[0]|] == Jump(end)
            && Placed(program, next, Chain(parts[1..], next, end))
  {
    var next := at + |parts[0]| + 2;
    var rest := Chain(parts[1..], next, end);
    PlacedSplit(program, at, [Split(at + 1, next)] + parts[0] + [Jump(end)], rest);
    PlacedSplit3(program, at, [Split(at + 1, next)], parts[0], [Jump(end)]);
    PlacedOne(program, at, Split(at + 1, next));
    PlacedOne(program, at + 1 + |parts[0]|, Jump(end));
  }

  lemma {:induction false} ChainHasLength(parts: seq<seq<Instruction>>, base: nat, end: nat)
    ensures |Chain(parts, base, end)| == ChainLength(parts)
    decreases |parts|
  {
    if |parts| > 1 {
      ChainHasLength(parts[1..], base + |parts[0]| + 2, end);
    }
  }

  lemma {:induction false} StringConsumes(characters: seq<nat>, ignoreCase: bool)
    ensures Consumers(StringCode(characters, ignoreCase))
    decreases characters
  {
    if characters != [] {
      StringConsumes(characters[1..], ignoreCase);
    }
  }

  lemma {:induction false} StringsConsume(strings: seq<seq<nat>>, ignoreCase: bool)
    ensures AllConsumers(StringParts(strings, ignoreCase))
    decreases strings
  {
    if strings != [] {
      StringConsumes(strings[0], ignoreCase);
      StringsConsume(strings[1..], ignoreCase);
    }
  }

  lemma {:induction false} StringPasses(env: Env, ignoreCase: bool, characters: seq<nat>, position: nat)
    requires Boundary(env.input, position, env.unicode)
    ensures PassedAll(env, StringCode(characters, ignoreCase), position)
         == MatchForward(env, ignoreCase, characters, position)
    decreases characters
  {
    if characters != [] {
      ForwardThenBackward(env.input, position, env.unicode);
      var next := ReadCharacter(env.input, position, env.unicode);
      var code := StringCode(characters, ignoreCase);
      assert code[0] == Char(characters[0], ignoreCase) && code[1..] == StringCode(characters[1..], ignoreCase);
      StringPasses(env, ignoreCase, characters[1..], if next.Some? then next.value.next else position);
    }
  }

  lemma {:induction false} StringsPass(env: Env, ignoreCase: bool, strings: seq<seq<nat>>, x: Cursor)
    requires Valid(env, x)
    ensures PartResults(env, StringParts(strings, ignoreCase), x) == MatchStrings(env, ignoreCase, strings, false, x)
    decreases strings
  {
    if strings != [] {
      StringPasses(env, ignoreCase, strings[0], x.position);
      StringsPass(env, ignoreCase, strings[1..], x);
      var parts := StringParts(strings, ignoreCase);
      assert parts[0] == StringCode(strings[0], ignoreCase) && parts[1..] == StringParts(strings[1..], ignoreCase);
    }
  }

  lemma {:induction false} PartResultsAppend(env: Env, a: seq<seq<Instruction>>, b: seq<seq<Instruction>>, x: Cursor)
    ensures PartResults(env, a + b, x) == PartResults(env, a, x) + PartResults(env, b, x)
    decreases a
  {
    if a == [] {
      assert a + b == b;
    } else {
      assert (a + b)[1..] == a[1..] + b;
      PartResultsAppend(env, a[1..], b, x);
    }
  }

  /** The single-character part of a class. */
  lemma RangePartMatches(env: Env, mods: Modifiers, atom: Atom, x: Cursor)
    requires atom.Class? && ValidClass(atom.class_) && Valid(env, x)
    ensures var range := Range(atom.class_.ranges, atom.class_.inverted, mods.ignoreCase);
            && PartResult(env, [range], x) == MatchOne(env, mods, atom, false, x)
            && (!HasRange(atom.class_) ==> MatchOne(env, mods, atom, false, x) == [])
  {
    var range := Range(atom.class_.ranges, atom.class_.inverted, mods.ignoreCase);
    var next := ReadCharacter(env.input, x.position, env.unicode);
    assert [range][1..] == [];
    assert PassedAll(env, [range], x.position) == Passed(env, range, false, x.position);
    if next.Some? {
      InstructionAccepts(env, mods, atom, next.value.character);
    }
  }

  /** The parts of a class after its strings. */
  function ShortParts(class_: CharacterClass, ignoreCase: bool): seq<seq<Instruction>> {
    (if HasRange(class_) then [[Range(class_.ranges, class_.inverted, ignoreCase)]] else [])
    + (if [] in class_.strings then [[]] else [])
  }

  lemma ShortPartsMatch(env: Env, mods: Modifiers, atom: Atom, x: Cursor)
    requires atom.Class? && ValidClass(atom.class_) && Valid(env, x)
    ensures PartResults(env, ShortParts(atom.class_, mods.ignoreCase), x)
         == MatchOne(env, mods, atom, false, x) + if [] in atom.class_.strings then [x] else []
  {
    var class_ := atom.class_;
    var range := [Range(class_.ranges, class_.inverted, mods.ignoreCase)];
    RangePartMatches(env, mods, atom, x);
    assert PartResult(env, [], x) == [x];
    OnePart(env, range, x);
    OnePart(env, [], x);
    assert PartResults(env, [], x) == [];
    PartResultsAppend(env, if HasRange(class_) then [range] else [], if [] in class_.strings then [[]] else [], x);
  }

  lemma ClassPartsMatch(env: Env, mods: Modifiers, atom: Atom, x: Cursor)
    requires atom.Class? && ValidClass(atom.class_) && Valid(env, x)
    ensures PartResults(env, ClassParts(atom.class_, mods.ignoreCase), x) == MatchClass(env, mods, atom, false, x)
  {
    var strings := LongestFirst(atom.class_.strings);
    StringsPass(env, mods.ignoreCase, strings, x);
    ShortPartsMatch(env, mods, atom, x);
    var start, short := StringParts(strings, mods.ignoreCase), ShortParts(atom.class_, mods.ignoreCase);
    PartResultsAppend(env, start, short, x);
    assert ClassParts(atom.class_, mods.ignoreCase) == start + short;
  }

  lemma ClassPartsConsume(class_: CharacterClass, ignoreCase: bool)
    ensures AllConsumers(ClassParts(class_, ignoreCase)) && ClassParts(class_, ignoreCase) != []
  {
    var strings := LongestFirst(class_.strings);
    StringsConsume(strings, ignoreCase);
    assert forall part :: part in ShortParts(class_, ignoreCase) ==> Consumers(part);
    assert ClassParts(class_, ignoreCase) == StringParts(strings, ignoreCase) + ShortParts(class_, ignoreCase);
    if !HasRange(class_) && [] !in class_.strings {
      assert class_.strings[0] in strings;
    }
  }

  lemma OnePart(env: Env, part: seq<Instruction>, x: Cursor)
    ensures PartResults(env, [part], x) == PartResult(env, part, x)
  {
    assert [part][1..] == [];
    assert PartResults(env, [], x) == [];
  }

  lemma ClassForward(m: Engine, mods: Modifiers, atom: Atom, x: Cursor, at: nat, memory: Memory,
                     controls: seq<Frame>, low: nat, high: nat, depth: nat)
    requires atom.Class? && ValidClass(atom.class_)
    requires Placed(m.program, at, CodeClass(mods, atom.class_, false, at))
    requires Valid(m.env, x) && Ready(x, memory, low, high)
    ensures Yields(m, Running(at, x.position, memory, controls), at + |CodeClass(mods, atom.class_, false, at)|,
                   MatchClass(m.env, mods, atom, false, x), controls, Footing(memory, low, high, depth))
  {
    hide Ready;
    hide Yields;
    hide MatchClass;
    hide ClassParts;
    hide PartResults;
    hide AllConsumers;
    ClassPartsMatch(m.env, mods, atom, x);
    ClassPartsConsume(atom.class_, mods.ignoreCase);
    var parts := ClassParts(atom.class_, mods.ignoreCase);
    ChainHasLength(parts, at, at + ChainLength(parts));
    assert CodeClass(mods, atom.class_, false, at) == Chain(parts, at, at + ChainLength(parts));
    ChainYields(m, at, parts, at + ChainLength(parts), x, memory, controls, low, high, depth);
  }

  lemma ClassCorrect(m: Engine, mods: Modifiers, atom: Atom, backward: bool, x: Cursor, at: nat, memory: Memory,
                     controls: seq<Frame>, low: nat, high: nat, depth: nat)
    requires atom.Class? && ValidClass(atom.class_) && NoBackwardStrings(atom, backward)
    requires Placed(m.program, at, CodeClass(mods, atom.class_, backward, at))
    requires Valid(m.env, x) && Ready(x, memory, low, high)
    ensures Yields(m, Running(at, x.position, memory, controls), at + |CodeClass(mods, atom.class_, backward, at)|,
                   MatchClass(m.env, mods, atom, backward, x), controls, Footing(memory, low, high, depth))
  {
    hide Ready;
    hide Yields;
    hide MatchClass;
    hide MatchOne;
    hide CodeClass;
    if backward {
      StringlessBackward(mods, atom.class_, at);
      StringlessMatch(m.env, mods, atom, backward, x);
      OneCorrect(m, mods, atom, backward, x, at, memory, controls, low, high, depth);
    } else {
      ClassForward(m, mods, atom, x, at, memory, controls, low, high, depth);
    }
  }

  lemma StringlessBackward(mods: Modifiers, class_: CharacterClass, at: nat)
    requires class_.strings == []
    ensures CodeClass(mods, class_, true, at)
         == Guarded(true, Range(class_.ranges, class_.inverted, mods.ignoreCase))
  {
    var parts := ClassParts(class_, mods.ignoreCase);
    assert LongestFirst(class_.strings) == [];
    assert StringParts([], mods.ignoreCase) == [];
    assert parts == [[Range(class_.ranges, class_.inverted, mods.ignoreCase)]];
  }

  lemma StringlessMatch(env: Env, mods: Modifiers, atom: Atom, backward: bool, x: Cursor)
    requires atom.Class? && atom.class_.strings == [] && Valid(env, x)
    ensures MatchClass(env, mods, atom, backward, x) == MatchOne(env, mods, atom, backward, x)
  {
    assert LongestFirst(atom.class_.strings) == [];
    assert MatchStrings(env, mods.ignoreCase, [], backward, x) == [];
  }
}
