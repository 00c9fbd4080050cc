/**
 Runs of the backtracking machine, and what it means for a run to produce a list
 of results one after the other.
 */
module Runs {
  import opened Basics
  import opened Matcher
  import opened Machine

  /**
   A loop instruction finds a counter between 1 and the count that the instruction
   before its own head set, and an advance check finds a saved position.
   */
  predicate Disciplined(m: Engine, c: Config) {
    c.Running? && c.pc < |m.program| ==>
      match m.program[c.pc]
      case Loop(register, target) =>
        && register < |c.memory.registers|
        && c.memory.registers[register].Counter?
        && 0 < target <= c.pc
        && m.program[target - 1].SetRegister? && m.program[target - 1].register == register
        && 1 <= c.memory.registers[register].value <= m.program[target - 1].value
      case CheckAdvance(register) =>
        && register < |c.memory.registers|
        && c.memory.registers[register].Position?
      case _ => true
  }

  /** `c` reaches `d` in exactly `n` disciplined steps. */
  ghost predicate StepsTo(m: Engine, c: Config, n: nat, d: Config)
    decreases n
  {
    if n == 0 then c == d
    else !Terminal(c) && Disciplined(m, c) && StepsTo(m, Step(m, c), n - 1, d)
  }

  ghost predicate Reaches(m: Engine, c: Config, d: Config) {
    exists n: nat :: StepsTo(m, c, n, d)
  }

  lemma {:induction false} StepsCompose(m: Engine, c: Config, i: nat, d: Config, j: nat, e: Config)
    requires StepsTo(m, c, i, d) && StepsTo(m, d, j, e)
    ensures StepsTo(m, c, i + j, e)
    decreases i
  {
    if i > 0 {
      StepsCompose(m, Step(m, c), i - 1, d, j, e);
    }
  }

  lemma ReachesItself(m: Engine, c: Config)
    ensures Reaches(m, c, c)
  {
    assert StepsTo(m, c, 0, c);
  }

  lemma ReachesOne(m: Engine, c: Config)
    requires !Terminal(c) && Disciplined(m, c)
    ensures Reaches(m, c, Step(m, c))
  {
    assert StepsTo(m, Step(m, c), 0, Step(m, c));
    assert StepsTo(m, c, 1, Step(m, c));
  }

  lemma ReachesTransitive(m: Engine, c: Config, d: Config, e: Config)
    requires Reaches(m, c, d) && Reaches(m, d, e)
    ensures Reaches(m, c, e)
  {
    var i: nat :| StepsTo(m, c, i, d);
    var j: nat :| StepsTo(m, d, j, e);
    StepsCompose(m, c, i, d, j, e);
  }

  // ---- Producing results ----

  /**
   What the code of a node may change: the slots of the groups from `low` up to
   `high`, and the registers from `depth` on.
   */
  datatype Footing = Footing(memory: Memory, low: nat, high: nat, depth: nat)

  predicate SameRegisters(a: Memory, b: Memory, depth: nat) {
    && |a.registers| == |b.registers|
    && forall r :: 0 <= r < depth && r < |a.registers| ==> a.registers[r] == b.registers[r]
  }

  function StartOf(capture: Option<(nat, nat)>): Option<nat> {
    if capture.Some? then Some(capture.value.0) else None
  }

  function EndOf(capture: Option<(nat, nat)>): Option<nat> {
    if capture.Some? then Some(capture.value.1) else None
  }

  predicate HoldsGroup(memory: Memory, g: nat, capture: Option<(nat, nat)>)
    requires 2 * g + 1 < |memory.captures|
  {
    memory.captures[2 * g] == StartOf(capture) && memory.captures[2 * g + 1] == EndOf(capture)
  }

  predicate SameGroup(a: Memory, b: Memory, g: nat)
    requires 2 * g + 1 < |a.captures| == |b.captures|
  {
    a.captures[2 * g] == b.captures[2 * g] && a.captures[2 * g + 1] == b.captures[2 * g + 1]
  }

  /** Memory holds the captures of `y` for the groups of the node and is otherwise as it was. */
  predicate Fits(footing: Footing, y: Cursor, memory: Memory) {
    && SameRegisters(footing.memory, memory, footing.depth)
    && |memory.captures| == |footing.memory.captures| == 2 * |y.captures|
    && forall g :: 0 <= g < |y.captures| ==>
         if footing.low <= g < footing.high then HoldsGroup(memory, g, y.captures[g])
         else SameGroup(footing.memory, memory, g)
  }

  /** `upper` extends `lower` with alternatives to resume only. */
  predicate Extends(upper: seq<Frame>, lower: seq<Frame>) {
    && |lower| <= |upper|
    && upper[..|lower|] == lower
    && forall i :: |lower| <= i < |upper| ==> upper[i].kind.Resume?
  }

  /** The machine arrives at `exit` with the result `y`, leaving `upper` on the control stack. */
  ghost predicate Arrives(m: Engine, c: Config, exit: nat, y: Cursor, controls: seq<Frame>, footing: Footing,
                          memory: Memory, upper: seq<Frame>)
  {
    && Extends(upper, controls)
    && Fits(footing, y, memory)
    && Reaches(m, c, Running(exit, y.position, memory, upper))
  }

  /**
   From `c` the machine arrives at `exit` with each of `ys` in turn, each further
   one by backtracking from the one before, and after the last it backtracks
   into `controls`.
   */
  ghost predicate Yields(m: Engine, c: Config, exit: nat, ys: seq<Cursor>, controls: seq<Frame>, footing: Footing)
    decreases |ys|
  {
    if ys == [] then Reaches(m, c, Failing(controls))
    else
      exists memory, upper ::
        && Arrives(m, c, exit, ys[0], controls, footing, memory, upper)
        && Yields(m, Failing(upper), exit, ys[1..], controls, footing)
  }

  lemma FirstResult(m: Engine, c: Config, exit: nat, ys: seq<Cursor>, controls: seq<Frame>, footing: Footing)
    returns (memory: Memory, upper: seq<Frame>)
    requires ys != [] && Yields(m, c, exit, ys, controls, footing)
    ensures Arrives(m, c, exit, ys[0], controls, footing, memory, upper)
    ensures Yields(m, Failing(upper), exit, ys[1..], controls, footing)
  {
    hide Arrives;
    memory, upper :|
      && Arrives(m, c, exit, ys[0], controls, footing, memory, upper)
      && Yields(m, Failing(upper), exit, ys[1..], controls, footing);
  }

  lemma YieldsFirst(m: Engine, c: Config, exit: nat, ys: seq<Cursor>, controls: seq<Frame>,
                    footing: Footing, memory: Memory, upper: seq<Frame>)
    requires ys != [] && Arrives(m, c, exit, ys[0], controls, footing, memory, upper)
    requires Yields(m, Failing(upper), exit, ys[1..], controls, footing)
    ensures Yields(m, c, exit, ys, controls, footing)
  {
    hide Arrives;
  }

  lemma YieldsNone(m: Engine, c: Config, exit: nat, controls: seq<Frame>, footing: Footing)
    requires Reaches(m, c, Failing(controls))
    ensures Yields(m, c, exit, [], controls, footing)
  {
  }

  lemma YieldsOne(m: Engine, c: Config, exit: nat, y: Cursor, controls: seq<Frame>, footing: Footing, memory: Memory)
    requires Fits(footing, y, memory)
    requires Reaches(m, c, Running(exit, y.position, memory, controls))
    ensures Yields(m, c, exit, [y], controls, footing)
  {
    hide Fits;
    hide Reaches;
    ReachesItself(m, Failing(controls));
    YieldsNone(m, Failing(controls), exit, controls, footing);
    assert Arrives(m, c, exit, y, controls, footing, memory, controls);
    YieldsFirst(m, c, exit, [y], controls, footing, memory, controls);
  }

  lemma YieldsAfter(m: Engine, c: Config, d: Config, exit: nat, ys: seq<Cursor>, controls: seq<Frame>, footing: Footing)
    requires Reaches(m, c, d) && Yields(m, d, exit, ys, controls, footing)
    ensures Yields(m, c, exit, ys, controls, footing)
  {
    hide Reaches;
    if ys == [] {
      ReachesTransitive(m, c, d, Failing(controls));
    } else {
      var memory, upper := FirstResult(m, d, exit, ys, controls, footing);
      ReachesTransitive(m, c, d, Running(exit, ys[0].position, memory, upper));
      YieldsFirst(m, c, exit, ys, controls, footing, memory, upper);
    }
  }

  lemma YieldsAfterStep(m: Engine, c: Config, exit: nat, ys: seq<Cursor>, controls: seq<Frame>, footing: Footing)
    requires !Terminal(c) && Disciplined(m, c) && Yields(m, Step(m, c), exit, ys, controls, footing)
    ensures Yields(m, c, exit, ys, controls, footing)
  {
    ReachesOne(m, c);
    YieldsAfter(m, c, Step(m, c), exit, ys, controls, footing);
  }

  lemma ExtendsTransitive(a: seq<Frame>, b: seq<Frame>, c: seq<Frame>)
    requires Extends(a, b) && Extends(b, c)
    ensures Extends(a, c)
  {
    assert a[..|c|] == b[..|c|];
  }

  /** Exhausting the first list of results leads to the second. */
  lemma {:induction false} YieldsAppend(m: Engine, c: Config, exit: nat, ys: seq<Cursor>, zs: seq<Cursor>,
                                        middle: seq<Frame>, controls: seq<Frame>, footing: Footing)
    requires Extends(middle, controls)
    requires Yields(m, c, exit, ys, middle, footing)
    requires Yields(m, Failing(middle), exit, zs, controls, footing)
    ensures Yields(m, c, exit, ys + zs, controls, footing)
    decreases |ys|
  {
    hide Reaches;
    hide Extends;
    hide Fits;
    if ys == [] {
      assert ys + zs == zs;
      YieldsAfter(m, c, Failing(middle), exit, zs, controls, footing);
    } else {
      var memory, upper := FirstResult(m, c, exit, ys, middle, footing);
      YieldsAppend(m, Failing(upper), exit, ys[1..], zs, middle, controls, footing);
      ExtendsTransitive(upper, middle, controls);
      assert (ys + zs)[0] == ys[0] && (ys + zs)[1..] == ys[1..] + zs;
      assert Arrives(m, c, exit, ys[0], controls, footing, memory, upper);
      YieldsFirst(m, c, exit, ys + zs, controls, footing, memory, upper);
    }
  }

  /** Results that fit one footing and thereby also another. */
  lemma {:induction false} YieldsRebase(m: Engine, c: Config, exit: nat, ys: seq<Cursor>, controls: seq<Frame>,
                                        from: Footing, to: Footing)
    requires Yields(m, c, exit, ys, controls, from)
    requires forall i, memory :: 0 <= i < |ys| && Fits(from, ys[i], memory) ==> Fits(to, ys[i], memory)
    ensures Yields(m, c, exit, ys, controls, to)
    decreases |ys|
  {
    hide Reaches;
    hide Extends;
    hide Fits;
    if ys != [] {
      var memory, upper := FirstResult(m, c, exit, ys, controls, from);
      forall i, memory | 0 <= i < |ys[1..]| && Fits(from, ys[1..][i], memory)
        ensures Fits(to, ys[1..][i], memory)
      {
        assert ys[1..][i] == ys[i + 1];
      }
      YieldsRebase(m, Failing(upper), exit, ys[1..], controls, from, to);
      assert Fits(to, ys[0], memory);
      YieldsFirst(m, c, exit, ys, controls, to, memory, upper);
    }
  }

  /** Code that turns the result `y` at `exit` into the result `z` at `exit'`. */
  ghost predicate Turns(m: Engine, exit: nat, y: Cursor, from: Footing, exit': nat, z: Cursor, to: Footing) {
    forall memory, upper :: Fits(from, y, memory) ==> TurnsAt(m, exit, y, memory, upper, exit', z, to)
  }

  ghost predicate TurnsAt(m: Engine, exit: nat, y: Cursor, memory: Memory, upper: seq<Frame>, exit': nat, z: Cursor,
                          to: Footing)
  {
    exists memory' ::
      && Fits(to, z, memory')
      && Reaches(m, Running(exit, y.position, memory, upper), Running(exit', z.position, memory', upper))
  }

  lemma TurnsFirst(m: Engine, c: Config, exit: nat, y: Cursor, controls: seq<Frame>, from: Footing,
                   memory: Memory, upper: seq<Frame>, exit': nat, z: Cursor, to: Footing) returns (memory': Memory)
    requires Arrives(m, c, exit, y, controls, from, memory, upper)
    requires Turns(m, exit, y, from, exit', z, to)
    ensures Arrives(m, c, exit', z, controls, to, memory', upper)
  {
    hide Reaches;
    hide Extends;
    hide Fits;
    assert TurnsAt(m, exit, y, memory, upper, exit', z, to);
    memory' :|
      && Fits(to, z, memory')
      && Reaches(m, Running(exit, y.position, memory, upper), Running(exit', z.position, memory', upper));
    ReachesTransitive(m, c, Running(exit, y.position, memory, upper), Running(exit', z.position, memory', upper));
  }

  /** The code after `exit` maps each result to one of its own, without failing. */
  lemma {:induction false} YieldsMap(m: Engine, c: Config, exit: nat, ys: seq<Cursor>, controls: seq<Frame>,
                                     from: Footing, exit': nat, zs: seq<Cursor>, to: Footing)
    requires Yields(m, c, exit, ys, controls, from)
    requires |zs| == |ys|
    requires forall i :: 0 <= i < |ys| ==> Turns(m, exit, ys[i], from, exit', zs[i], to)
    ensures Yields(m, c, exit', zs, controls, to)
    decreases |ys|
  {
    hide Reaches;
    hide Arrives;
    hide Turns;
    if ys != [] {
      var memory, upper := FirstResult(m, c, exit, ys, controls, from);
      var memory' := TurnsFirst(m, c, exit, ys[0], controls, from, memory, upper, exit', zs[0], to);
      YieldsMap(m, Failing(upper), exit, ys[1..], controls, from, exit', zs[1..], to);
      YieldsFirst(m, c, exit', zs, controls, to, memory', upper);
    }
  }

  // ---- Branching ----

  /** Both branches of a split, in order of preference. */
  lemma YieldsSplit(m: Engine, at: nat, position: nat, memory: Memory, controls: seq<Frame>, exit: nat,
                    ys: seq<Cursor>, zs: seq<Cursor>, footing: Footing)
    requires at < |m.program| && m.program[at].Split?
    requires var upper := controls + [Frame(Resume(m.program[at].second), position, memory)];
             Yields(m, Running(m.program[at].first, position, memory, upper), exit, ys, upper, footing)
    requires Yields(m, Running(m.program[at].second, position, memory, controls), exit, zs, controls, footing)
    ensures Yields(m, Running(at, position, memory, controls), exit, ys + zs, controls, footing)
  {
    hide Yields;
    hide Fits;
    hide Reaches;
    var upper := controls + [Frame(Resume(m.program[at].second), position, memory)];
    YieldsAfterStep(m, Running(at, position, memory, controls), exit, ys, upper, footing);
    assert upper[..|upper| - 1] == controls;
    YieldsAfterStep(m, Failing(upper), exit, zs, controls, footing);
    YieldsAppend(m, Running(at, position, memory, controls), exit, ys, zs, upper, controls, footing);
  }

  lemma JumpTurns(m: Engine, at: nat, y: Cursor, footing: Footing)
    requires at < |m.program| && m.program[at].Jump?
    ensures Turns(m, at, y, footing, m.program[at].target, y, footing)
  {
    hide Fits;
    hide Reaches;
    var end := m.program[at].target;
    forall memory, upper | Fits(footing, y, memory)
      ensures TurnsAt(m, at, y, memory, upper, end, y, footing)
    {
      ReachesOne(m, Running(at, y.position, memory, upper));
    }
  }

  lemma YieldsJump(m: Engine, c: Config, at: nat, ys: seq<Cursor>, controls: seq<Frame>, footing: Footing)
    requires at < |m.program| && m.program[at].Jump?
    requires Yields(m, c, at, ys, controls, footing)
    ensures Yields(m, c, m.program[at].target, ys, controls, footing)
  {
    hide Yields;
    hide Turns;
    forall i | 0 <= i < |ys|
      ensures Turns(m, at, ys[i], footing, m.program[at].target, ys[i], footing)
    {
      JumpTurns(m, at, ys[i], footing);
    }
    YieldsMap(m, c, at, ys, controls, footing, m.program[at].target, ys, footing);
  }
}
