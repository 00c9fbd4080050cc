/** How memory relates to captures while the code of composite nodes runs. */
module Nodes {
  import opened Basics
  import opened Matcher
  import opened MatcherLaws
  import opened Machine
  import opened Code
  import opened Runs
  import opened Leaves

  /** `y` has the captures of `x` outside the groups from `low` up to `high`. */
  predicate Agrees(x: Cursor, y: Cursor, low: nat, high: nat) {
    && |y.captures| == |x.captures|
    && forall g :: 0 <= g < |x.captures| && !(low <= g < high) ==> y.captures[g] == x.captures[g]
  }

  predicate AllAgree(x: Cursor, ys: seq<Cursor>, low: nat, high: nat) {
    forall i :: 0 <= i < |ys| ==> Agrees(x, ys[i], low, high)
  }

  lemma KeepsAgrees(x: Cursor, ys: seq<Cursor>, groups: set<nat>, low: nat, high: nat)
    requires AllKeep(x, ys, groups)
    requires forall g :: g in groups <==> low <= g < high
    ensures AllAgree(x, ys, low, high)
  {
    forall i | 0 <= i < |ys|
      ensures Agrees(x, ys[i], low, high)
    {
      assert Keeps(x, ys[i], groups);
    }
  }

  lemma FitsAt(footing: Footing, y: Cursor, memory: Memory, g: nat)
    requires Fits(footing, y, memory) && g < |y.captures|
    ensures if footing.low <= g < footing.high then HoldsGroup(memory, g, y.captures[g])
            else SameGroup(footing.memory, memory, g)
  {
    assert y.captures[g] == y.captures[g];
  }

  // ---- Changing the footing ----

  lemma FitsWider(x: Cursor, y: Cursor, memory: Memory, memory': Memory, low: nat, high: nat, depth: nat,
                  low': nat, high': nat, depth': nat)
    requires low' <= low && high <= high' && depth' <= depth
    requires Ready(x, memory, low', high') && Agrees(x, y, low, high)
    requires Fits(Footing(memory, low, high, depth), y, memory')
    ensures Fits(Footing(memory, low', high', depth'), y, memory')
  {
    forall g | 0 <= g < |y.captures|
      ensures if low' <= g < high' then HoldsGroup(memory', g, y.captures[g]) else SameGroup(memory, memory', g)
    {
      assert Reads(memory, g, x.captures[g]);
    }
  }

  /** A node inside a larger one: the other groups of the larger one are still clear. */
  lemma Widen(m: Engine, c: Config, exit: nat, ys: seq<Cursor>, controls: seq<Frame>, x: Cursor, memory: Memory,
              low: nat, high: nat, depth: nat, low': nat, high': nat, depth': nat)
    requires Yields(m, c, exit, ys, controls, Footing(memory, low, high, depth))
    requires low' <= low && high <= high' && depth' <= depth
    requires Ready(x, memory, low', high') && AllAgree(x, ys, low, high)
    ensures Yields(m, c, exit, ys, controls, Footing(memory, low', high', depth'))
  {
    hide Yields;
    hide Fits;
    hide Ready;
    var from, to := Footing(memory, low, high, depth), Footing(memory, low', high', depth');
    forall i, memory' | 0 <= i < |ys| && Fits(from, ys[i], memory')
      ensures Fits(to, ys[i], memory')
    {
      FitsWider(x, ys[i], memory, memory', low, high, depth, low', high', depth');
    }
    YieldsRebase(m, c, exit, ys, controls, from, to);
  }

  /** After a node, the memory is ready for a node with other groups. */
  lemma ReadyNext(x: Cursor, y: Cursor, memory: Memory, memory': Memory, low: nat, high: nat, depth: nat,
                  low': nat, high': nat)
    requires high <= low' || high' <= low
    requires Ready(x, memory, low', high') && Agrees(x, y, low, high)
    requires Fits(Footing(memory, low, high, depth), y, memory')
    ensures Ready(y, memory', low', high')
  {
    forall g | 0 <= g < |y.captures|
      ensures Reads(memory', g, y.captures[g]) && (low' <= g < high' ==> HoldsGroup(memory', g, None))
    {
      assert Reads(memory, g, x.captures[g]);
    }
  }

  lemma FitsThen(x: Cursor, y: Cursor, memory: Memory, memory': Memory, memory'': Memory,
                 low: nat, middle: nat, high: nat, depth: nat, swapped: bool, z: Cursor)
    requires low <= middle <= high
    requires var a, b := if swapped then middle else low, if swapped then high else middle;
             Fits(Footing(memory, a, b, depth), y, memory')
    requires var a, b := if swapped then low else middle, if swapped then middle else high;
             Fits(Footing(memory', a, b, depth), z, memory'') && Agrees(y, z, a, b)
    ensures Fits(Footing(memory, low, high, depth), z, memory'')
  {
    forall g | 0 <= g < |z.captures|
      ensures if low <= g < high then HoldsGroup(memory'', g, z.captures[g]) else SameGroup(memory, memory'', g)
    {
      FitsAt(Footing(memory, if swapped then middle else low, if swapped then high else middle, depth), y, memory', g);
      FitsAt(Footing(memory', if swapped then low else middle, if swapped then middle else high, depth), z, memory'', g);
    }
  }

  // ---- Capturing groups ----

  /** Both ends of the group are set once its code has run. */
  lemma GroupFits(x: Cursor, y: Cursor, group: nat, backward: bool, memory: Memory, entered: Memory, inside: Memory,
                  closed: Memory, high: nat, depth: nat)
    requires group < |x.captures| && |memory.captures| == 2 * |x.captures|
    requires HoldsGroup(memory, group, None)
    requires entered == SetCapture(memory, if backward then 2 * group + 1 else 2 * group, Some(x.position))
    requires Fits(Footing(entered, group + 1, high, depth), y, inside)
    requires closed == SetCapture(inside, if backward then 2 * group else 2 * group + 1, Some(y.position))
    requires group < high
    ensures Fits(Footing(memory, group, high, depth), Capture(group, backward, x, y), closed)
  {
    var z := Capture(group, backward, x, y);
    forall g | 0 <= g < |z.captures|
      ensures if group <= g < high then HoldsGroup(closed, g, z.captures[g]) else SameGroup(memory, closed, g)
    {
      FitsAt(Footing(entered, group + 1, high, depth), y, inside, g);
    }
  }

  lemma OpenedReady(x: Cursor, group: nat, backward: bool, memory: Memory, high: nat)
    requires group < |x.captures| && group < high
    requires Ready(x, memory, group, high)
    ensures Ready(x, SetCapture(memory, if backward then 2 * group + 1 else 2 * group, Some(x.position)),
                  group + 1, high)
  {
    var entered := SetCapture(memory, if backward then 2 * group + 1 else 2 * group, Some(x.position));
    forall g | 0 <= g < |x.captures|
      ensures Reads(entered, g, x.captures[g]) && (group + 1 <= g < high ==> HoldsGroup(entered, g, None))
    {
      assert Reads(memory, g, x.captures[g]);
      if g != group {
        assert SameGroup(memory, entered, g);
      }
    }
  }

  lemma CloseTurns(m: Engine, at: nat, x: Cursor, y: Cursor, group: nat, backward: bool, memory: Memory,
                   entered: Memory, high: nat, depth: nat)
    requires group < |x.captures| && |memory.captures| == 2 * |x.captures| && |y.captures| == |x.captures|
    requires HoldsGroup(memory, group, None) && group < high
    requires entered == SetCapture(memory, if backward then 2 * group + 1 else 2 * group, Some(x.position))
    requires at < |m.program| && m.program[at] == CloseGroup(group, backward)
    ensures Turns(m, at, y, Footing(entered, group + 1, high, depth), at + 1, Capture(group, backward, x, y),
                  Footing(memory, group, high, depth))
  {
    hide Reaches;
    hide Capture;
    var from, to := Footing(entered, group + 1, high, depth), Footing(memory, group, high, depth);
    var z := Capture(group, backward, x, y);
    assert z.position == y.position by { CapturePosition(group, backward, x, y); }
    var exit := at + 1;
    forall inside, upper | Fits(from, y, inside)
      ensures TurnsAt(m, at, y, inside, upper, exit, z, to)
    {
      var slot := if backward then 2 * group else 2 * group + 1;
      var closed := SetCapture(inside, slot, Some(y.position));
      GroupFits(x, y, group, backward, memory, entered, inside, closed, high, depth);
      var c := Running(at, y.position, inside, upper);
      ReachesOne(m, c);
      assert Step(m, c) == Running(at + 1, z.position, closed, upper);
    }
  }

  lemma CapturePosition(group: nat, backward: bool, x: Cursor, y: Cursor)
    ensures Capture(group, backward, x, y).position == y.position
  {
  }

  // ---- Assertions ----

  lemma {:induction false} LastAssertionIs(controls: seq<Frame>, frame: Frame, upper: seq<Frame>)
    requires frame.kind.Assertion? && Extends(upper, controls + [frame])
    ensures LastAssertion(upper) == Some(|controls|)
    ensures upper[|controls|] == frame && upper[..|controls|] == controls
  {
    var lower := controls + [frame];
    assert upper[|controls|] == upper[..|lower|][|controls|];
    assert upper[..|controls|] == upper[..|lower|][..|controls|];
  }

  // ---- Loops ----

  /** At the head of a loop: the groups of the body hold the captures of `x`, everything else is as on entry. */
  predicate AtLoop(x: Cursor, memory: Memory, base: Footing) {
    && Fits(base, x, memory)
    && forall g :: 0 <= g < |x.captures| ==>
         if base.low <= g < base.high then HoldsGroup(base.memory, g, None) else Reads(base.memory, g, x.captures[g])
  }

  lemma ReadyAtLoop(x: Cursor, memory: Memory, low: nat, high: nat, depth: nat)
    requires Ready(x, memory, low, high)
    ensures AtLoop(x, memory, Footing(memory, low, high, depth))
  {
  }

  /** After an iteration the next head of the loop is reached. */
  lemma LoopAgain(x: Cursor, y: Cursor, memory: Memory, memory': Memory, base: Footing, depth: nat)
    requires AtLoop(x, memory, base) && base.depth <= depth
    requires Agrees(x, y, base.low, base.high)
    requires Fits(Footing(memory, base.low, base.high, depth), y, memory')
    ensures AtLoop(y, memory', base)
  {
    forall g | 0 <= g < |y.captures|
      ensures if base.low <= g < base.high then HoldsGroup(memory', g, y.captures[g])
              else SameGroup(base.memory, memory', g)
    {
      FitsAt(base, x, memory, g);
      FitsAt(Footing(memory, base.low, base.high, depth), y, memory', g);
    }
  }

  /** Writing a scratch register keeps the head of the loop. */
  lemma LoopScratch(x: Cursor, memory: Memory, base: Footing, register: nat, value: RegisterValue)
    requires AtLoop(x, memory, base) && base.depth <= register < |memory.registers|
    ensures AtLoop(x, SetRegisterTo(memory, register, value), base)
  {
    var memory' := SetRegisterTo(memory, register, value);
    forall g | 0 <= g < |x.captures|
      ensures if base.low <= g < base.high then HoldsGroup(memory', g, x.captures[g])
              else SameGroup(base.memory, memory', g)
    {
      FitsAt(base, x, memory, g);
    }
  }

  /** A result found above a scratch register also stands without it. */
  lemma YieldsScratch(m: Engine, c: Config, exit: nat, ys: seq<Cursor>, controls: seq<Frame>, memory: Memory,
                      low: nat, high: nat, depth: nat, value: RegisterValue)
    requires depth < |memory.registers|
    requires Yields(m, c, exit, ys, controls, Footing(SetRegisterTo(memory, depth, value), low, high, depth + 1))
    ensures Yields(m, c, exit, ys, controls, Footing(memory, low, high, depth))
  {
    hide Yields;
    var from, to := Footing(SetRegisterTo(memory, depth, value), low, high, depth + 1), Footing(memory, low, high, depth);
    forall i, memory' | 0 <= i < |ys| && Fits(from, ys[i], memory')
      ensures Fits(to, ys[i], memory')
    {
      forall g | 0 <= g < |ys[i].captures|
        ensures if low <= g < high then HoldsGroup(memory', g, ys[i].captures[g]) else SameGroup(memory, memory', g)
      {
        FitsAt(from, ys[i], memory', g);
      }
    }
    YieldsRebase(m, c, exit, ys, controls, from, to);
  }

  /** Clearing the groups of the body makes the memory ready for another iteration. */
  lemma ClearReady(x: Cursor, memory: Memory, base: Footing, groups: set<nat>)
    requires AtLoop(x, memory, base) && base.low < base.high
    requires forall g :: g in groups <==> base.low <= g < base.high
    ensures Ready(Forget(x, groups), ClearCaptures(memory, base.low, base.high - 1), base.low, base.high)
  {
    var z, cleared := Forget(x, groups), ClearCaptures(memory, base.low, base.high - 1);
    forall g | 0 <= g < |z.captures|
      ensures Reads(cleared, g, z.captures[g]) && (base.low <= g < base.high ==> HoldsGroup(cleared, g, None))
    {
      if base.low <= g < base.high {
        assert cleared.captures[2 * g] == None && cleared.captures[2 * g + 1] == None;
      } else {
        assert SameGroup(memory, cleared, g);
      }
    }
  }

  /** Nothing to clear. */
  lemma NoGroupsReady(x: Cursor, memory: Memory, base: Footing, groups: set<nat>)
    requires AtLoop(x, memory, base) && base.low >= base.high
    requires forall g :: g in groups <==> base.low <= g < base.high
    ensures Ready(Forget(x, groups), memory, base.low, base.high)
  {
    var z := Forget(x, groups);
    forall g | 0 <= g < |z.captures|
      ensures Reads(memory, g, z.captures[g])
    {
    }
  }

  /** Results of an iteration relate to the memory before its captures were cleared. */
  lemma FitsCleared(y: Cursor, memory: Memory, memory': Memory, low: nat, high: nat, depth: nat)
    requires low < high
    requires Fits(Footing(ClearCaptures(memory, low, high - 1), low, high, depth), y, memory')
    ensures Fits(Footing(memory, low, high, depth), y, memory')
  {
    var cleared := ClearCaptures(memory, low, high - 1);
    forall g | 0 <= g < |y.captures|
      ensures if low <= g < high then HoldsGroup(memory', g, y.captures[g]) else SameGroup(memory, memory', g)
    {
      FitsAt(Footing(cleared, low, high, depth), y, memory', g);
      if !(low <= g < high) {
        assert SameGroup(memory, cleared, g);
      }
    }
  }

  /** The reset before the first iteration finds every group clear already. */
  lemma ClearNothing(x: Cursor, memory: Memory, low: nat, high: nat)
    requires Ready(x, memory, low, high) && low < high <= |x.captures|
    ensures ClearCaptures(memory, low, high - 1) == memory
  {
    var cleared := ClearCaptures(memory, low, high - 1);
    forall i | 0 <= i < |memory.captures|
      ensures cleared.captures[i] == memory.captures[i]
    {
      assert Reads(memory, i / 2, x.captures[i / 2]);
    }
    assert cleared.captures == memory.captures;
  }

  /** An advance check lets through the results that moved away from the saved position. */
  lemma {:induction false} YieldsAdvanced(m: Engine, c: Config, at: nat, ys: seq<Cursor>, controls: seq<Frame>,
                                          footing: Footing, position: nat)
    requires at < |m.program| && m.program[at].CheckAdvance?
    requires var r := m.program[at].register;
             r < footing.depth && r < |footing.memory.registers|
             && footing.memory.registers[r] == RegisterValue.Position(position)
    requires Yields(m, c, at, ys, controls, footing)
    ensures Yields(m, c, at + 1, Moved(position, ys), controls, footing)
    decreases |ys|
  {
    hide Reaches;
    hide Extends;
    hide Yields;
    if ys == [] {
      YieldsEnds(m, c, at, controls, footing, at + 1);
    } else {
      var memory, upper := FirstResult(m, c, at, ys, controls, footing);
      YieldsAdvanced(m, Failing(upper), at, ys[1..], controls, footing, position);
      var here := Running(at, ys[0].position, memory, upper);
      ReachesOne(m, here);
      ReachesTransitive(m, c, here, Step(m, here));
      var rest := Moved(position, ys[1..]);
      if ys[0].position == position {
        YieldsAfter(m, c, Failing(upper), at + 1, rest, controls, footing);
      } else {
        assert ([ys[0]] + rest)[1..] == rest;
        YieldsFirst(m, c, at + 1, [ys[0]] + rest, controls, footing, memory, upper);
      }
    }
  }

  lemma YieldsEnds(m: Engine, c: Config, exit: nat, controls: seq<Frame>, footing: Footing, exit': nat)
    requires Yields(m, c, exit, [], controls, footing)
    ensures Yields(m, c, exit', [], controls, footing)
  {
  }
}
