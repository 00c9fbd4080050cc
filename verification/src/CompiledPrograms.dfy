/** Whole compiled programs: what every attempt does, from its first state to its last. */
module CompiledPrograms {
  import opened Basics
  import opened Characters
  import opened Pattern
  import opened Matcher
  import opened Machine
  import opened Code
  import opened Runs
  import opened Leaves
  import opened Nodes
  import opened Correctness

  /** A pattern as the parser returns it: groups 1 up to `total - 1` in order, nodes well formed. */
  predicate ArrangedPattern(expression: Expression, total: nat) {
    && expression.alternatives != []
    && WellFormedAlternatives(expression.alternatives, 1, total, false)
    && total == 1 + AlternativesGroups(expression.alternatives)
  }

  /** The same with all emitted references below `total`. */
  predicate ValidPattern(expression: Expression, total: nat) {
    && expression.alternatives != []
    && WellFormedAlternatives(expression.alternatives, 1, total, true)
    && total == 1 + AlternativesGroups(expression.alternatives)
  }

  /** The whole pattern is the body of group 0. */
  function Whole(expression: Expression): Atom {
    Group(Some(0), None, expression)
  }

  function Fresh(position: nat, total: nat): Cursor {
    Cursor(position, seq(total, _ => None))
  }

  /** Every way to match the pattern at `position`, in order of preference. */
  function MatchesAt(env: Env, mods: Modifiers, expression: Expression, total: nat, position: nat): seq<Cursor>
    requires Boundary(env.input, position, env.unicode)
  {
    MatchAtom(env, mods, Whole(expression), false, Fresh(position, total))
  }

  /** The final state of an attempt, according to the reference matcher. */
  function Outcome(env: Env, mods: Modifiers, expression: Expression, total: nat, position: nat): Config
    requires Boundary(env.input, position, env.unicode)
  {
    var ys := MatchesAt(env, mods, expression, total, position);
    if ys == [] then Exhausted else Matched(ys[0].captures)
  }

  lemma ProgramPlaced(canonicalize: Canonicalize, mods: Modifiers, expression: Expression)
    ensures var program := Program(canonicalize, mods, expression);
            var code := CodeAtom(canonicalize, mods, Whole(expression), false, 0, 0);
            Placed(program, 0, code) && |program| == |code| + 1 && program[|code|] == Match
  {
    hide CodeAlternatives;
    var body := CodeAlternatives(canonicalize, mods, expression.alternatives, false, 1, 0);
    var code := CodeAtom(canonicalize, mods, Whole(expression), false, 0, 0);
    assert code == [SaveStart(0)] + body + [SaveEnd(0)];
    assert Program(canonicalize, mods, expression) == code + [Match];
  }

  /** A valid cursor's captures, read back from their slots. */
  lemma {:induction false} FinishReads(env: Env, y: Cursor, memory: Memory, capture: nat)
    requires Valid(env, y) && |memory.captures| == 2 * |y.captures| && capture <= |y.captures|
    requires forall g :: 0 <= g < |y.captures| ==> HoldsGroup(memory, g, y.captures[g])
    ensures FinishFrom(memory.captures, capture) == Ok(y.captures[capture..])
    decreases |y.captures| - capture
  {
    if capture < |y.captures| {
      FinishReads(env, y, memory, capture + 1);
      assert HoldsGroup(memory, capture, y.captures[capture]);
      assert ValidCapture(env, y.captures[capture]);
      assert y.captures[capture..] == [y.captures[capture]] + y.captures[capture + 1..];
    } else {
      assert y.captures[capture..] == [];
    }
  }

  lemma FinishCorrect(env: Env, y: Cursor, memory: Memory, footing: Footing)
    requires Valid(env, y) && Fits(footing, y, memory) && footing.low == 0 && footing.high == |y.captures|
    ensures Finish(memory) == Matched(y.captures)
  {
    forall g | 0 <= g < |y.captures|
      ensures HoldsGroup(memory, g, y.captures[g])
    {
      FitsAt(footing, y, memory, g);
    }
    FinishReads(env, y, memory, 0);
    assert y.captures[0..] == y.captures;
  }

  lemma FreshReady(position: nat, total: nat, registers: nat)
    ensures Ready(Fresh(position, total), Blank(total, registers), 0, total)
  {
  }

  lemma FreshValid(env: Env, position: nat, total: nat)
    requires Boundary(env.input, position, env.unicode)
    ensures Valid(env, Fresh(position, total))
  {
  }

  lemma WholeYields(m: Engine, mods: Modifiers, expression: Expression, total: nat, registers: nat, position: nat)
    requires ValidPattern(expression, total) && NoBackwardStringsIn(expression.alternatives, false)
    requires m.program == Program(m.env.canonicalize, mods, expression)
    requires AlternativesRegisters(expression.alternatives) <= registers
    requires Boundary(m.env.input, position, m.env.unicode)
    ensures Yields(m, Start(total, registers, position), |m.program| - 1,
                   MatchesAt(m.env, mods, expression, total, position), [],
                   Footing(Blank(total, registers), 0, total, 0))
  {
    hide Yields;
    hide CodeAtom;
    hide MatchAtom;
    hide WellFormedAlternatives;
    hide AlternativesRegisters;
    var memory, x := Blank(total, registers), Fresh(position, total);
    ProgramPlaced(m.env.canonicalize, mods, expression);
    FreshReady(position, total, registers);
    FreshValid(m.env, position, total);
    AtomCorrect(m, mods, Whole(expression), false, 0, 0, 0, total, x, memory, []);
  }

  /**
   Compiler correctness for one attempt: on every valid pattern without strings
   in lookbehinds and every input, the compiled code halts, with the first match
   of the reference matcher and its captures, or with no match when there is
   none. Every state on the way obeys the register discipline.
   */
  lemma AttemptCorrect(m: Engine, mods: Modifiers, expression: Expression, total: nat, registers: nat, position: nat)
    requires ValidPattern(expression, total) && NoBackwardStringsIn(expression.alternatives, false)
    requires m.program == Program(m.env.canonicalize, mods, expression)
    requires AlternativesRegisters(expression.alternatives) <= registers
    requires Boundary(m.env.input, position, m.env.unicode)
    ensures Reaches(m, Start(total, registers, position), Outcome(m.env, mods, expression, total, position))
  {
    WholeYields(m, mods, expression, total, registers, position);
    ProgramPlaced(m.env.canonicalize, mods, expression);
    FreshValid(m.env, position, total);
    var ys := MatchesAt(m.env, mods, expression, total, position);
    var footing := Footing(Blank(total, registers), 0, total, 0);
    var exit := |m.program| - 1;
    assert m.program[exit] == Match;
    assert AllMove(m.env, false, Fresh(position, total), ys);
    AttemptEnds(m, Start(total, registers, position), exit, ys, footing, Fresh(position, total));
  }

  lemma AttemptEnds(m: Engine, start: Config, exit: nat, ys: seq<Cursor>, footing: Footing, x: Cursor)
    requires exit < |m.program| && m.program[exit] == Match
    requires AllMove(m.env, false, x, ys) && footing.low == 0 && footing.high == |x.captures|
    requires Yields(m, start, exit, ys, [], footing)
    ensures Reaches(m, start, if ys == [] then Exhausted else Matched(ys[0].captures))
  {
    if ys == [] {
      assert Reaches(m, start, Failing([]));
      ReachesOne(m, Failing([]));
      ReachesTransitive(m, start, Failing([]), Exhausted);
    } else {
      var memory, upper := FirstResult(m, start, exit, ys, [], footing);
      FinishCorrect(m.env, ys[0], memory, footing);
      var here := Running(exit, ys[0].position, memory, upper);
      ReachesOne(m, here);
      ReachesTransitive(m, start, here, Matched(ys[0].captures));
    }
  }

  // ---- All states of a run ----

  lemma {:induction false} RunStaysDisciplined(m: Engine, c: Config, n: nat, d: Config, k: nat)
    requires StepsTo(m, c, n, d) && Terminal(d) && !d.Faulted?
    ensures !After(m, c, k).Faulted?
    ensures Disciplined(m, After(m, c, k))
    ensures k >= n ==> After(m, c, k) == d
    decreases n
  {
    if n > 0 && k > 0 {
      RunStaysDisciplined(m, Step(m, c), n - 1, d, k - 1);
    }
  }

  /**
   Over every run of compiled code: the run is finite and ends as the reference
   matcher says; no state raises a program error; every loop instruction sees a
   counter between 1 and the initial count of that very loop, and every advance check
   a saved position, including after backtracking.
   */
  lemma EveryStateDisciplined(m: Engine, mods: Modifiers, expression: Expression, total: nat, registers: nat,
                              position: nat)
    requires ValidPattern(expression, total) && NoBackwardStringsIn(expression.alternatives, false)
    requires m.program == Program(m.env.canonicalize, mods, expression)
    requires AlternativesRegisters(expression.alternatives) <= registers
    requires Boundary(m.env.input, position, m.env.unicode)
    ensures exists n: nat ::
      && StepsTo(m, Start(total, registers, position), n, Outcome(m.env, mods, expression, total, position))
      && forall k: nat :: k >= n ==>
           After(m, Start(total, registers, position), k) == Outcome(m.env, mods, expression, total, position)
    ensures forall k: nat ::
      && !After(m, Start(total, registers, position), k).Faulted?
      && Disciplined(m, After(m, Start(total, registers, position), k))
  {
    AttemptCorrect(m, mods, expression, total, registers, position);
    var start, end := Start(total, registers, position), Outcome(m.env, mods, expression, total, position);
    var n: nat :| StepsTo(m, start, n, end);
    assert Terminal(end) && !end.Faulted? by { OutcomeTerminal(m.env, mods, expression, total, position); }
    forall k: nat
      ensures !After(m, start, k).Faulted? && Disciplined(m, After(m, start, k))
      ensures k >= n ==> After(m, start, k) == end
    {
      RunStaysDisciplined(m, start, n, end, k);
    }
  }

  /** A number of steps within which an attempt halts. */
  lemma AttemptHalts(m: Engine, mods: Modifiers, expression: Expression, total: nat, registers: nat, position: nat)
    returns (n: nat)
    requires ValidPattern(expression, total) && NoBackwardStringsIn(expression.alternatives, false)
    requires m.program == Program(m.env.canonicalize, mods, expression)
    requires AlternativesRegisters(expression.alternatives) <= registers
    requires Boundary(m.env.input, position, m.env.unicode)
    ensures After(m, Start(total, registers, position), n) == Outcome(m.env, mods, expression, total, position)
  {
    AttemptCorrect(m, mods, expression, total, registers, position);
    var start, end := Start(total, registers, position), Outcome(m.env, mods, expression, total, position);
    n :| StepsTo(m, start, n, end);
    OutcomeTerminal(m.env, mods, expression, total, position);
    RunStaysDisciplined(m, start, n, end, n);
  }

  lemma OutcomeTerminal(env: Env, mods: Modifiers, expression: Expression, total: nat, position: nat)
    requires Boundary(env.input, position, env.unicode)
    ensures var c := Outcome(env, mods, expression, total, position); Terminal(c) && !c.Faulted?
  {
  }
}
