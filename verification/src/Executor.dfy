/**
 The executor: one attempt over an undo log, proved to follow the machine with
 full copies step by step.
 */
module Executor {
  import opened Basics
  import opened Characters
  import opened Matcher
  import opened Machine
  import opened UndoLog

  // ---- Back references ----

  method MatchBackReference(env: Env, start: nat, end: nat, position: nat, ignoreCase: bool) returns (r: Option<nat>)
    ensures r == if end > |env.input| then None else CompareForward(env, start, end, position, ignoreCase)
  {
    if end > |env.input| {
      return None;
    }
    var captured := env.input[..end];
    var capturePosition: nat, inputPosition: nat := start, position;
    while capturePosition < end
      invariant CompareForward(env, start, end, position, ignoreCase)
             == CompareForward(env, capturePosition, end, inputPosition, ignoreCase)
      decreases end - capturePosition
    {
      var left := ReadCharacter(captured, capturePosition, env.unicode);
      var right := ReadCharacter(env.input, inputPosition, env.unicode);
      if right.None? {
        return None;
      }
      if Fold(env, ignoreCase, left.value.character) != Fold(env, ignoreCase, right.value.character) {
        return None;
      }
      capturePosition, inputPosition := left.value.next, right.value.next;
    }
    return Some(inputPosition);
  }

  method MatchBackwardBackReference(env: Env, start: nat, end: nat, position: nat, ignoreCase: bool)
    returns (r: Option<nat>)
    ensures r == CompareBackward(env, start, end, position, ignoreCase)
  {
    var capturePosition: nat, inputPosition: nat := end, position;
    while capturePosition > start
      invariant CompareBackward(env, start, end, position, ignoreCase)
             == CompareBackward(env, start, capturePosition, inputPosition, ignoreCase)
    {
      var left := ReadPreviousBounded(env.input, capturePosition, start, env.unicode);
      var right := ReadPreviousBounded(env.input, inputPosition, 0, env.unicode);
      if left.None? || right.None? {
        return None;
      }
      if Fold(env, ignoreCase, left.value.character) != Fold(env, ignoreCase, right.value.character) {
        return None;
      }
      capturePosition, inputPosition := left.value.next, right.value.next;
    }
    return if capturePosition == start then Some(inputPosition) else None;
  }

  method ProbeInput(env: Env, instruction: Instruction, position: nat, captures: seq<Option<nat>>)
    returns (r: Option<nat>)
    ensures r == Probe(env, instruction, position, captures)
  {
    match instruction
    case BackReference(groups, ignoreCase) =>
      var range := FirstComplete(groups, captures);
      if range.None? {
        return Some(position);
      }
      r := MatchBackReference(env, range.value.0, range.value.1, position, ignoreCase);
    case BackwardBackReference(groups, ignoreCase) =>
      var range := FirstComplete(groups, captures);
      if range.None? {
        return Some(position);
      }
      r := MatchBackwardBackReference(env, range.value.0, range.value.1, position, ignoreCase);
    case _ => r := Probe(env, instruction, position, captures);
  }

  // ---- One attempt ----

  /** Backtrack until some frame resumes, or none is left. */
  function Unwind(controls: seq<Frame>): Config
    decreases |controls|
  {
    var c := Backtrack(controls);
    if c.Failing? then Unwind(c.controls) else c
  }

  class AttemptState {
    var pc: nat
    var position: nat
    var captures: seq<Option<nat>>
    var registers: seq<RegisterValue>
    var undo: seq<Undo>
    var controls: seq<LogFrame>

    ghost function Contents(): Memory
      reads this
    {
      Memory(captures, registers)
    }

    ghost predicate Valid()
      reads this
    {
      EntriesInRange(undo, Contents()) && Checkpoints(controls, |undo|)
    }

    /** The control stack with full copies that the log stands for. */
    ghost function Frames(): seq<Frame>
      reads this
      requires Valid()
    {
      RestoredAll(controls, Contents(), undo)
    }

    /** The state of the machine with full copies. */
    ghost function State(): Config
      reads this
      requires Valid()
    {
      Running(pc, position, Contents(), Frames())
    }

    constructor (captureCount: nat, registerCount: nat, start: nat)
      ensures Valid() && State() == Start(captureCount, registerCount, start)
    {
      pc, position := 0, start;
      captures, registers := seq(2 * captureCount, _ => None), seq(registerCount, _ => Unset);
      undo, controls := [], [];
    }

    /** Reusing the state is the same as starting afresh. */
    method Reset(start: nat)
      modifies this
      ensures Valid() && |captures| == old(|captures|) && |registers| == old(|registers|)
      ensures |captures| % 2 == 0 ==> State() == Start(|captures| / 2, |registers|, start)
    {
      pc, position := 0, start;
      captures, registers := seq(|captures|, _ => None), seq(|registers|, _ => Unset);
      undo, controls := [], [];
    }

    method PushBacktrack(target: nat)
      requires Valid()
      modifies this`controls
      ensures Valid() && Frames() == old(Frames()) + [Frame(Resume(target), position, Contents())]
    {
      controls := controls + [LogFrame(Resume(target), position, |undo|)];
      assert controls[..|controls| - 1] == old(controls);
    }

    method PushLookahead(negative: bool, target: nat)
      requires Valid()
      modifies this`controls
      ensures Valid() && Frames() == old(Frames()) + [Frame(Assertion(negative, target), position, Contents())]
    {
      controls := controls + [LogFrame(Assertion(negative, target), position, |undo|)];
      assert controls[..|controls| - 1] == old(controls);
    }

    method RollbackTo(length: nat)
      requires EntriesInRange(undo, Contents()) && length <= |undo|
      modifies this`captures, this`registers, this`undo
      ensures Contents() == old(Rollback(Contents(), undo, length)) && undo == old(undo[..length])
    {
      while |undo| > length
        invariant length <= |undo| <= |old(undo)| && undo == old(undo)[..|undo|]
        invariant EntriesInRange(undo, Contents())
        invariant Rollback(Contents(), undo, length) == old(Rollback(Contents(), undo, length))
      {
        var entry := undo[|undo| - 1];
        undo := undo[..|undo| - 1];
        match entry {
          case UndoCapture(slot, previous) => captures := captures[slot := previous];
          case UndoRegister(register, value) => registers := registers[register := value];
        }
      }
    }

    /** Remove the top frame and restore what it saved. */
    method PopFrame() returns (kind: ControlKind)
      requires Valid() && controls != []
      modifies this
      ensures Valid() && |controls| == old(|controls|) - 1
      ensures |captures| == old(|captures|) && |registers| == old(|registers|)
      ensures var top := old(Frames())[|controls|];
              kind == top.kind && position == top.position && Contents() == top.memory
      ensures Frames() == old(Frames())[..|controls|]
    {
      var frame := controls[|controls| - 1];
      RestoredPrefix(controls, Contents(), undo, |controls| - 1);
      RollbackKeepsFrames(controls[..|controls| - 1], Contents(), undo, frame.undoLen);
      controls := controls[..|controls| - 1];
      RollbackTo(frame.undoLen);
      position := frame.position;
      return frame.kind;
    }

    /** Restore the next viable control state after a branch fails. */
    method RestoreBacktrack() returns (resumed: bool)
      requires Valid()
      modifies this
      ensures Valid() && |captures| == old(|captures|) && |registers| == old(|registers|)
      ensures old(Unwind(Frames())) == if resumed then State() else Exhausted
    {
      while true
        invariant Valid() && Unwind(Frames()) == old(Unwind(Frames()))
        invariant |captures| == old(|captures|) && |registers| == old(|registers|)
        decreases |controls|
      {
        if controls == [] {
          return false;
        }
        var kind := PopFrame();
        match kind {
          case Resume(target) =>
            pc := target;
            return true;
          case Assertion(negative, target) =>
            if negative {
              pc := target;
              return true;
            }
        }
      }
    }

    /** Index of the innermost open assertion. */
    method FindAssertion() returns (index: Option<nat>)
      requires Valid()
      ensures index == LastAssertion(Frames())
      ensures index.Some? ==> index.value < |controls| && Frames()[index.value] == Restored(controls[index.value], Contents(), undo)
    {
      var n := |controls|;
      assert Frames()[..n] == Frames();
      while n > 0
        invariant n <= |controls|
        invariant LastAssertion(Frames()) == LastAssertion(Frames()[..n])
      {
        assert Frames()[..n][..n - 1] == Frames()[..n - 1];
        if controls[n - 1].kind.Assertion? {
          return Some(n - 1);
        }
        n := n - 1;
      }
      return None;
    }

    /** Forget the frames from index `n` on, without restoring anything. */
    method DropFrames(n: nat)
      requires Valid() && n <= |controls|
      modifies this`controls
      ensures Valid() && controls == old(controls[..n]) && Frames() == old(Frames())[..n]
    {
      RestoredPrefix(controls, Contents(), undo, n);
      controls := controls[..n];
    }

    /**
     Keep, of the entries from `from` on, only those whose location is not yet
     recorded since the surviving checkpoint.
     */
    method Compact(checkpoint: nat, from: nat)
      requires checkpoint <= from <= |undo|
      modifies this`undo
      ensures from <= |undo| <= old(|undo|)
      ensures forall entry :: entry in undo ==> entry in old(undo)
      ensures SameRecords(undo, old(undo), checkpoint)
    {
      hide Recorded;
      var write, read := from, from;
      ghost var original := undo;
      while read < |undo|
        invariant from <= write <= read <= |undo| == |original|
        invariant undo[read..] == original[read..]
        invariant forall entry :: entry in undo[..write] ==> entry in original
        invariant SameRecords(undo[..write], original[..read], checkpoint)
      {
        var entry := undo[read];
        assert entry == undo[read..][0] == original[read];
        AppendKeepsRecords(undo[..write], original[..read], checkpoint, entry);
        assert original[..read] + [entry] == original[..read + 1];
        if !RecordedBetween(undo, checkpoint, write, entry) {
          assert undo[write := entry][..write + 1] == undo[..write] + [entry];
          assert undo[write := entry][read + 1..] == undo[read..][1..];
          undo := undo[write := entry];
          write := write + 1;
        } else {
          assert RecordedBetween(undo[..write], checkpoint, write, entry);
          assert undo[read + 1..] == undo[read..][1..];
        }
        read := read + 1;
      }
      assert original[..read] == original;
      undo := undo[..write];
    }

    /** Shorten the log to what the surviving frames can still observe. */
    method CompactLog(from: nat)
      requires Valid() && from <= |undo| && Checkpoints(controls, from)
      modifies this`undo
      ensures Valid() && Frames() == old(Frames())
    {
      ghost var original := undo;
      if controls != [] {
        Compact(controls[|controls| - 1].undoLen, from);
      } else {
        undo := undo[..from];
      }
      assert EntriesInRange(undo, Contents()) by {
        forall i | 0 <= i < |undo|
          ensures InRange(LocationOf(undo[i]), Contents())
        {
          assert undo[i] in original;
        }
      }
      CompactKeepsFrames(controls, Contents(), original, undo);
    }

    method FinishPositiveLookahead(at: nat) returns (ok: bool)
      requires Valid()
      modifies this`controls, this`position, this`undo
      ensures Valid()
      ensures var c := EndAssertion(at, false, Contents(), old(Frames()));
              if ok then c == Running(at + 1, position, Contents(), Frames())
              else c == Faulted(AssertionStructure(at))
    {
      var index := FindAssertion();
      if index.None? || controls[index.value].kind != Assertion(false, at + 1) {
        return false;
      }
      var frame := controls[index.value];
      DropFrames(index.value);
      position := frame.position;
      CompactLog(frame.undoLen);
      return true;
    }

    method RejectNegativeLookahead(at: nat) returns (ok: bool)
      requires Valid()
      modifies this
      ensures Valid() && pc == old(pc) && |captures| == old(|captures|) && |registers| == old(|registers|)
      ensures var c := EndAssertion(at, true, old(Contents()), old(Frames()));
              if ok then c == Failing(Frames()) else c == Faulted(AssertionStructure(at))
    {
      var index := FindAssertion();
      if index.None? || controls[index.value].kind != Assertion(true, at + 1) {
        return false;
      }
      var frame := controls[index.value];
      DropFrames(index.value);
      RollbackKeepsFrames(controls, Contents(), undo, frame.undoLen);
      RollbackTo(frame.undoLen);
      position := frame.position;
      return true;
    }

    method WriteCapture(slot: nat, value: Option<nat>)
      requires Valid() && slot < |captures|
      modifies this`captures, this`undo
      ensures Valid() && Contents() == SetCapture(old(Contents()), slot, value) && Frames() == old(Frames())
    {
      if controls != [] {
        var checkpoint := controls[|controls| - 1].undoLen;
        WriteKeepsFrames(controls, Contents(), undo, UndoCapture(slot, value));
        if Recorded(undo, checkpoint, Slot(slot)).None? {
          undo := undo + [UndoCapture(slot, captures[slot])];
        }
      }
      captures := captures[slot := value];
    }

    method WriteRegister(register: nat, value: RegisterValue)
      requires Valid() && register < |registers|
      modifies this`registers, this`undo
      ensures Valid() && Contents() == SetRegisterTo(old(Contents()), register, value) && Frames() == old(Frames())
    {
      if controls != [] {
        var checkpoint := controls[|controls| - 1].undoLen;
        WriteKeepsFrames(controls, Contents(), undo, UndoRegister(register, value));
        if Recorded(undo, checkpoint, Register(register)).None? {
          undo := undo + [UndoRegister(register, registers[register])];
        }
      }
      registers := registers[register := value];
    }

    method ClearRange(from: nat, to: nat)
      requires Valid() && (from <= to ==> 2 * to + 1 < |captures|)
      modifies this`captures, this`undo
      ensures Valid() && Contents() == ClearCaptures(old(Contents()), from, to) && Frames() == old(Frames())
    {
      var capture := from;
      while capture <= to
        invariant Valid() && Frames() == old(Frames()) && |captures| == old(|captures|)
        invariant from <= capture && (if from <= to then capture <= to + 1 else capture == from)
        invariant forall i :: 0 <= i < |captures| ==>
          captures[i] == if 2 * from <= i < 2 * capture then None else old(captures)[i]
      {
        WriteCapture(2 * capture, None);
        WriteCapture(2 * capture + 1, None);
        capture := capture + 1;
      }
      assert captures == ClearCaptures(old(Contents()), from, to).captures;
    }

    method FinishMatch() returns (r: Result<seq<Option<(nat, nat)>>, nat>)
      requires |captures| % 2 == 0
      ensures r == FinishFrom(captures, 0)
    {
      var done: seq<Option<(nat, nat)>>, capture := [], 0;
      PrependNone(FinishFrom(captures, 0));
      while 2 * capture < |captures|
        invariant 2 * capture <= |captures|
        invariant FinishFrom(captures, 0) == Prepend(done, FinishFrom(captures, capture))
      {
        var start, end := captures[2 * capture], captures[2 * capture + 1];
        if start.None? && end.None? {
          PrependOne(done, None, FinishFrom(captures, capture + 1));
          done := done + [None];
        } else if start.Some? && end.Some? && start.value <= end.value {
          PrependOne(done, Some((start.value, end.value)), FinishFrom(captures, capture + 1));
          done := done + [Some((start.value, end.value))];
        } else {
          return Err(capture);
        }
        capture := capture + 1;
      }
      assert done + [] == done;
      return Ok(done);
    }

    /** Execute an instruction that moves control; `at` is its own index and `pc` already the next. */
    method DispatchControl(ghost m: Engine, instruction: Instruction, at: nat) returns (signal: Signal)
      requires Valid() && pc == at + 1 && |captures| % 2 == 0
      requires at < |m.program| && m.program[at] == instruction && IsControl(instruction)
      modifies this
      ensures Valid() && |captures| == old(|captures|) && |registers| == old(|registers|)
      ensures Follows(Step(m, Running(at, old(position), old(Contents()), old(Frames()))), signal, State())
    {
      match instruction
      case LookAhead(_, _) =>
        signal := DispatchAssertion(m, instruction, at);
      case LookAheadEnd(_) =>
        signal := DispatchAssertion(m, instruction, at);
      case Jump(target) =>
        pc := target;
        return Continue;
      case Split(first, second) =>
        PushBacktrack(second);
        pc := first;
        return Continue;
      case _ =>
        var result := FinishMatch();
        return match result
          case Ok(found) => Finished(found)
          case Err(capture) => Fault(IncompleteCapture(capture));
    }

    /** The beginnings and ends of lookaheads. */
    method DispatchAssertion(ghost m: Engine, instruction: Instruction, at: nat) returns (signal: Signal)
      requires Valid() && pc == at + 1
      requires at < |m.program| && m.program[at] == instruction && (instruction.LookAhead? || instruction.LookAheadEnd?)
      modifies this
      ensures Valid() && |captures| == old(|captures|) && |registers| == old(|registers|)
      ensures Follows(Step(m, Running(at, old(position), old(Contents()), old(Frames()))), signal, State())
    {
      hide EndAssertion;
      if instruction.LookAhead? {
        PushLookahead(instruction.negative, instruction.target);
        return Continue;
      } else if instruction.negative {
        var ok := RejectNegativeLookahead(at);
        return if ok then Fail else Fault(AssertionStructure(at));
      } else {
        var ok := FinishPositiveLookahead(at);
        return if ok then Continue else Fault(AssertionStructure(at));
      }
    }

    /** Execute an instruction that writes captures or registers. */
    method DispatchWrite(ghost m: Engine, instruction: Instruction, at: nat) returns (signal: Signal)
      requires Valid() && pc == at + 1 && |captures| % 2 == 0
      requires at < |m.program| && m.program[at] == instruction && !IsControl(instruction) && !IsProbe(instruction)
      requires InstructionBounded(instruction, |captures| / 2, |registers|)
      modifies this
      ensures Valid() && |captures| == old(|captures|) && |registers| == old(|registers|)
      ensures Follows(Step(m, Running(at, old(position), old(Contents()), old(Frames()))), signal, State())
    {
      match instruction
      case SaveStart(capture) =>
        WriteCapture(2 * capture, Some(position));
        return Continue;
      case SaveEnd(capture) =>
        WriteCapture(2 * capture + 1, Some(position));
        return Continue;
      case ResetCaptures(from, to) =>
        ClearRange(from, to);
        return Continue;
      case SetRegister(register, value) =>
        WriteRegister(register, Counter(value));
        return Continue;
      case SavePosition(register) =>
        WriteRegister(register, RegisterValue.Position(position));
        return Continue;
      case Loop(register, target) =>
        if !registers[register].Counter? {
          return Fault(CounterRegisterExpected(at, register));
        }
        var value := Decrement(registers[register].value);
        WriteRegister(register, Counter(value));
        if value != 0 {
          pc := target;
        }
        return Continue;
      case CheckAdvance(register) =>
        if !registers[register].Position? {
          return Fault(PositionRegisterExpected(at, register));
        }
        return if registers[register].position == position then Fail else Continue;
    }

    /** Fetch and execute one instruction. */
    method Dispatch(m: Engine) returns (signal: Signal)
      requires Valid() && |captures| % 2 == 0 && Bounded(m.program, |captures| / 2, |registers|)
      modifies this
      ensures Valid() && |captures| == old(|captures|) && |registers| == old(|registers|)
      ensures Follows(Step(m, old(State())), signal, State())
    {
      var at := pc;
      if at >= |m.program| {
        return Fault(ProgramCounter(at));
      }
      var instruction := m.program[at];
      pc := pc + 1;
      if IsProbe(instruction) {
        var next := ProbeInput(m.env, instruction, position, captures);
        if next.None? {
          return Fail;
        }
        position := next.value;
        return Continue;
      } else if IsControl(instruction) {
        signal := DispatchControl(m, instruction, at);
      } else {
        signal := DispatchWrite(m, instruction, at);
      }
    }

    /**
     Run one attempt. `steps` bounds the number of steps of the machine with full
     copies; the result is the state that machine halts in.
     */
    method RunAttempt(m: Engine, ghost steps: nat) returns (r: Result<Option<seq<Option<(nat, nat)>>>, ProgramError>)
      requires Valid() && |captures| % 2 == 0 && Bounded(m.program, |captures| / 2, |registers|)
      requires Terminal(After(m, State(), steps))
      modifies this
      ensures Valid() && |captures| == old(|captures|) && |registers| == old(|registers|)
      ensures Reports(old(After(m, State(), steps)), r)
    {
      hide Step;
      hide After;
      hide Unwind;
      ghost var final, left := After(m, State(), steps), steps;
      while true
        invariant Valid() && |captures| == old(|captures|) && |registers| == old(|registers|)
        invariant After(m, State(), left) == final
        decreases left
      {
        OneStep(m, State(), left);
        left := left - 1;
        var signal := Dispatch(m);
        match signal
        case Continue =>
        case Finished(found) =>
          Halted(m, Matched(found), left);
          return Ok(Some(found));
        case Fault(error) =>
          Halted(m, Faulted(error), left);
          return Err(error);
        case Fail =>
          ghost var left' := UnwindSteps(m, Frames(), left);
          left := left';
          var resumed := RestoreBacktrack();
          if !resumed {
            Halted(m, Exhausted, left);
            return Ok(None);
          }
      }
    }
  }

  // ---- Signals ----

  datatype Signal =
    | Continue
    | Fail
    | Finished(captures: seq<Option<(nat, nat)>>)
    | Fault(error: ProgramError)

  predicate IsControl(instruction: Instruction) {
    || instruction.LookAhead? || instruction.LookAheadEnd? || instruction.Jump? || instruction.Split?
    || instruction.Match?
  }

  /** The signal and the present state agree with the next configuration `c` of the machine. */
  ghost predicate Follows(c: Config, signal: Signal, state: Config)
    requires state.Running?
  {
    match signal
    case Continue => c == state
    case Fail => c == Failing(state.controls)
    case Finished(found) => c == Matched(found)
    case Fault(error) => c == Faulted(error)
  }

  /** An attempt reports the configuration in which the machine halts. */
  predicate Reports(c: Config, r: Result<Option<seq<Option<(nat, nat)>>>, ProgramError>) {
    match c
    case Matched(found) => r == Ok(Some(found))
    case Exhausted => r == Ok(None)
    case Faulted(error) => r == Err(error)
    case _ => false
  }

  function Prepend<T, E>(done: seq<T>, rest: Result<seq<T>, E>): Result<seq<T>, E> {
    if rest.Ok? then Ok(done + rest.value) else rest
  }

  lemma PrependNone<T, E>(rest: Result<seq<T>, E>)
    ensures Prepend([], rest) == rest
  {
    if rest.Ok? {
      assert [] + rest.value == rest.value;
    }
  }

  lemma PrependOne<T, E>(done: seq<T>, x: T, rest: Result<seq<T>, E>)
    ensures Prepend(done, Prepend([x], rest)) == Prepend(done + [x], rest)
  {
    if rest.Ok? {
      assert done + ([x] + rest.value) == (done + [x]) + rest.value;
    }
  }

  lemma OneStep(m: Engine, c: Config, left: nat)
    requires !Terminal(c) && Terminal(After(m, c, left))
    ensures left > 0 && After(m, c, left) == After(m, Step(m, c), left - 1)
  {
    hide Step;
  }

  lemma Halted(m: Engine, c: Config, left: nat)
    requires Terminal(c)
    ensures After(m, c, left) == c
  {
  }

  /** Unwinding takes some of the steps that are left and leads to the same end. */
  lemma {:induction false} UnwindSteps(m: Engine, controls: seq<Frame>, left: nat) returns (left': nat)
    requires Terminal(After(m, Failing(controls), left))
    ensures left' <= left && After(m, Unwind(controls), left') == After(m, Failing(controls), left)
    decreases |controls|
  {
    left' := left - 1;
    var c := Backtrack(controls);
    if c.Failing? {
      left' := UnwindSteps(m, c.controls, left - 1);
    }
  }

  // ---- Compaction ----

  ghost predicate SameRecords(undo: seq<Undo>, undo': seq<Undo>, checkpoint: nat) {
    && checkpoint <= |undo| && checkpoint <= |undo'|
    && forall n: nat, location :: n <= checkpoint ==> Recorded(undo, n, location) == Recorded(undo', n, location)
  }

  predicate RecordedBetween(undo: seq<Undo>, low: nat, high: nat, entry: Undo)
    requires high <= |undo|
  {
    exists i :: low <= i < high && LocationOf(undo[i]) == LocationOf(entry)
  }

  lemma AppendKeepsRecords(undo: seq<Undo>, undo': seq<Undo>, checkpoint: nat, entry: Undo)
    requires SameRecords(undo, undo', checkpoint)
    ensures SameRecords(undo + [entry], undo' + [entry], checkpoint)
    ensures RecordedBetween(undo, checkpoint, |undo|, entry) ==> SameRecords(undo, undo' + [entry], checkpoint)
  {
    forall n: nat, location | n <= checkpoint
      ensures Recorded(undo + [entry], n, location) == Recorded(undo' + [entry], n, location)
      ensures RecordedBetween(undo, checkpoint, |undo|, entry) ==>
        Recorded(undo, n, location) == Recorded(undo' + [entry], n, location)
    {
      RecordedAppend(undo, entry, n, location);
      RecordedAppend(undo', entry, n, location);
    }
  }
}
