/**
 Compiled code yields exactly the results of the reference matcher, in the same
 order and with the same captures.
 */
module Correctness {
  import opened Basics
  import opened Pattern
  import opened Matcher
  import opened MatcherLaws
  import opened Machine
  import opened Code
  import opened Runs
  import opened Leaves
  import opened Nodes

  // ---- Entering the code of a node ----

  ghost predicate EntersAtom(m: Engine, mods: Modifiers, atom: Atom, backward: bool, at: nat, depth: nat,
                             first: nat, total: nat, x: Cursor, memory: Memory)
  {
    && WellFormed(atom, first, total, true) && NoBackwardStrings(atom, backward)
    && Placed(m.program, at, CodeAtom(m.env.canonicalize, mods, atom, backward, at, depth))
    && depth + AtomRegisters(atom) <= |memory.registers|
    && total <= |x.captures|
    && Valid(m.env, x)
    && Ready(x, memory, first, first + GroupCount(atom))
  }

  ghost predicate EntersAlternatives(m: Engine, mods: Modifiers, alternatives: seq<Sequence>, backward: bool, at: nat,
                                     depth: nat, first: nat, total: nat, x: Cursor, memory: Memory, end: nat)
  {
    && alternatives != []
    && WellFormedAlternatives(alternatives, first, total, true) && NoBackwardStringsIn(alternatives, backward)
    && end == at + AlternativesLength(m.env.canonicalize, mods, alternatives, backward, at, depth)
    && Placed(m.program, at,
              CodeAlternativesTo(m.env.canonicalize, mods, alternatives, backward, at, depth, end))
    && depth + AlternativesRegisters(alternatives) <= |memory.registers|
    && total <= |x.captures|
    && Valid(m.env, x)
    && Ready(x, memory, first, first + AlternativesGroups(alternatives))
  }

  ghost predicate EntersTerms(m: Engine, mods: Modifiers, terms: seq<Term>, backward: bool, at: nat, depth: nat,
                              first: nat, total: nat, x: Cursor, memory: Memory)
  {
    && WellFormedTerms(terms, first, total, true) && NoBackwardStringsInTerms(terms, backward)
    && Placed(m.program, at, CodeTerms(m.env.canonicalize, mods, terms, backward, at, depth))
    && depth + TermsRegisters(terms) <= |memory.registers|
    && total <= |x.captures|
    && Valid(m.env, x)
    && Ready(x, memory, first, first + TermsGroups(terms))
  }

  ghost predicate EntersTerm(m: Engine, mods: Modifiers, term: Term, backward: bool, at: nat, depth: nat,
                             first: nat, total: nat, x: Cursor, memory: Memory)
  {
    && WellFormedTerm(term, first, total, true) && NoBackwardStringsInTerm(term, backward)
    && Placed(m.program, at, CodeTerm(m.env.canonicalize, mods, term, backward, at, depth))
    && depth + TermRegisters(term) <= |memory.registers|
    && total <= |x.captures|
    && Valid(m.env, x)
    && Ready(x, memory, first, first + TermGroups(term))
  }

  // ---- Atoms ----

  lemma {:induction false} AtomCorrect(m: Engine, mods: Modifiers, atom: Atom, backward: bool, at: nat, depth: nat,
                                       first: nat, total: nat, x: Cursor, memory: Memory, controls: seq<Frame>)
    requires EntersAtom(m, mods, atom, backward, at, depth, first, total, x, memory)
    ensures Yields(m, Running(at, x.position, memory, controls),
                   at + |CodeAtom(m.env.canonicalize, mods, atom, backward, at, depth)|,
                   MatchAtom(m.env, mods, atom, backward, x), controls,
                   Footing(memory, first, first + GroupCount(atom), depth))
    decreases atom, 0, 0, 0, 0
  {
    hide Ready;
    hide Yields;
    match atom
    case LookAround(_, _, _) =>
      LookAroundCorrect(m, mods, atom, backward, at, depth, first, total, x, memory, controls);
    case Group(None, _, _) =>
      PlainGroupCorrect(m, mods, atom, backward, at, depth, first, total, x, memory, controls);
    case Group(Some(_), _, _) =>
      CapturingGroupCorrect(m, mods, atom, backward, at, depth, first, total, x, memory, controls);
    case _ =>
      LeafCorrect(m, mods, atom, backward, at, depth, first, total, x, memory, controls);
  }

  lemma LeafCorrect(m: Engine, mods: Modifiers, atom: Atom, backward: bool, at: nat, depth: nat,
                    first: nat, total: nat, x: Cursor, memory: Memory, controls: seq<Frame>)
    requires !atom.LookAround? && !atom.Group?
    requires EntersAtom(m, mods, atom, backward, at, depth, first, total, x, memory)
    ensures Yields(m, Running(at, x.position, memory, controls),
                   at + |CodeAtom(m.env.canonicalize, mods, atom, backward, at, depth)|,
                   MatchAtom(m.env, mods, atom, backward, x), controls,
                   Footing(memory, first, first + GroupCount(atom), depth))
  {
    hide Ready;
    hide Yields;
    hide MatchOne;
    hide MatchClass;
    hide MatchReference;
    hide CodeClass;
    if atom.Class? {
      ClassCorrect(m, mods, atom, backward, x, at, memory, controls, first, first, depth);
    } else if atom.BackReference? {
      PlacedOne(m.program, at, ReferenceInstruction(mods, atom.captures, backward));
      ReferenceCorrect(m, mods, atom.captures, backward, x, at, memory, controls, first, first, depth);
    } else if atom.LineStart? || atom.LineEnd? || atom.WordBoundary? {
      PlacedOne(m.program, at, AssertionInstruction(mods, atom));
      AssertionCorrect(m, mods, atom, x, at, memory, controls, first, first, depth);
    } else {
      OneCorrect(m, mods, atom, backward, x, at, memory, controls, first, first, depth);
    }
  }

  lemma PlainGroupPlaced(m: Engine, mods: Modifiers, atom: Atom, backward: bool, at: nat, depth: nat)
    requires atom.Group? && atom.capture.None?
    requires Placed(m.program, at, CodeAtom(m.env.canonicalize, mods, atom, backward, at, depth))
    ensures var inner, alternatives := Inner(mods, atom.modifiers), atom.expression.alternatives;
            var end := at + AlternativesLength(m.env.canonicalize, inner, alternatives, backward, at, depth);
            && end == at + |CodeAtom(m.env.canonicalize, mods, atom, backward, at, depth)|
            && Placed(m.program, at,
                      CodeAlternativesTo(m.env.canonicalize, inner, alternatives, backward, at, depth, end))
  {
    hide Placed;
    hide CodeAlternativesTo;
    hide AlternativesLength;
    assert CodeAtom(m.env.canonicalize, mods, atom, backward, at, depth)
        == CodeAlternatives(m.env.canonicalize, Inner(mods, atom.modifiers), atom.expression.alternatives, backward, at, depth);
  }

  lemma {:induction false} PlainGroupCorrect(m: Engine, mods: Modifiers, atom: Atom, backward: bool, at: nat,
                                             depth: nat, first: nat, total: nat, x: Cursor, memory: Memory,
                                             controls: seq<Frame>)
    requires atom.Group? && atom.capture.None?
    requires EntersAtom(m, mods, atom, backward, at, depth, first, total, x, memory)
    ensures Yields(m, Running(at, x.position, memory, controls),
                   at + |CodeAtom(m.env.canonicalize, mods, atom, backward, at, depth)|,
                   MatchAtom(m.env, mods, atom, backward, x), controls,
                   Footing(memory, first, first + GroupCount(atom), depth))
    decreases atom.expression.alternatives, 3, 0, 0, 0
  {
    hide Ready;
    hide Yields;
    hide CodeAtom;
    hide CodeAlternativesTo;
    hide AlternativesLength;
    PlainGroupPlaced(m, mods, atom, backward, at, depth);
    var inner := Inner(mods, atom.modifiers);
    var alternatives := atom.expression.alternatives;
    var end := at + |CodeAtom(m.env.canonicalize, mods, atom, backward, at, depth)|;
    AlternativesCorrect(m, inner, alternatives, backward, at, depth, first, total, x, memory, controls, end);
  }

  lemma CapturingGroupPlaced(m: Engine, mods: Modifiers, atom: Atom, backward: bool, at: nat, depth: nat)
    requires atom.Group? && atom.capture.Some?
    requires Placed(m.program, at, CodeAtom(m.env.canonicalize, mods, atom, backward, at, depth))
    ensures var inner, alternatives := Inner(mods, atom.modifiers), atom.expression.alternatives;
            var end := at + 1 + AlternativesLength(m.env.canonicalize, inner, alternatives, backward, at + 1, depth);
            && end + 1 == at + |CodeAtom(m.env.canonicalize, mods, atom, backward, at, depth)|
            && at < |m.program| && m.program[at] == OpenGroup(atom.capture.value, backward)
            && end < |m.program| && m.program[end] == CloseGroup(atom.capture.value, backward)
            && Placed(m.program, at + 1,
                      CodeAlternativesTo(m.env.canonicalize, inner, alternatives, backward, at + 1, depth, end))
  {
    hide Placed;
    hide CodeAlternativesTo;
    hide AlternativesLength;
    var group := atom.capture.value;
    var body := CodeAlternatives(m.env.canonicalize, Inner(mods, atom.modifiers), atom.expression.alternatives, backward,
                                 at + 1, depth);
    PlacedSplit3(m.program, at, [OpenGroup(group, backward)], body, [CloseGroup(group, backward)]);
    PlacedOne(m.program, at, OpenGroup(group, backward));
    PlacedOne(m.program, at + 1 + |body|, CloseGroup(group, backward));
  }

  lemma {:induction false} CapturingGroupCorrect(m: Engine, mods: Modifiers, atom: Atom, backward: bool, at: nat,
                                                 depth: nat, first: nat, total: nat, x: Cursor, memory: Memory,
                                                 controls: seq<Frame>)
    requires atom.Group? && atom.capture.Some?
    requires EntersAtom(m, mods, atom, backward, at, depth, first, total, x, memory)
    ensures Yields(m, Running(at, x.position, memory, controls),
                   at + |CodeAtom(m.env.canonicalize, mods, atom, backward, at, depth)|,
                   MatchAtom(m.env, mods, atom, backward, x), controls,
                   Footing(memory, first, first + GroupCount(atom), depth))
    decreases atom.expression.alternatives, 3, 0, 0, 0
  {
    hide WellFormedAlternatives;
    hide NoBackwardStringsIn;
    hide AlternativesRegisters;
    hide Placed;
    hide CodeAlternatives;
    hide MatchAlternatives;
    hide Yields;
    hide CodeAtom;
    hide CodeAlternativesTo;
    hide AlternativesLength;
    CapturingGroupPlaced(m, mods, atom, backward, at, depth);
    var inner := Inner(mods, atom.modifiers);
    var alternatives := atom.expression.alternatives;
    var high := first + GroupCount(atom);
    var end := at + 1 + AlternativesLength(m.env.canonicalize, inner, alternatives, backward, at + 1, depth);
    assert HoldsGroup(memory, first, None);
    var entered := SetCapture(memory, if backward then 2 * first + 1 else 2 * first, Some(x.position));
    OpenedReady(x, first, backward, memory, high);
    var c := Running(at, x.position, memory, controls);
    assert Step(m, c) == Running(at + 1, x.position, entered, controls);
    AlternativesCorrect(m, inner, alternatives, backward, at + 1, depth, first + 1, total, x, entered, controls, end);
    var ys := MatchAlternatives(m.env, inner, alternatives, backward, x);
    CloseAll(m, c, end, ys, x, first, backward, memory, entered, high, depth, controls);
  }

  /** The last instruction of a group turns each result of its body into one of the group. */
  lemma CloseAll(m: Engine, c: Config, at: nat, ys: seq<Cursor>, x: Cursor, group: nat, backward: bool,
                 memory: Memory, entered: Memory, high: nat, depth: nat, controls: seq<Frame>)
    requires !Terminal(c) && Disciplined(m, c)
    requires group < |x.captures| && |memory.captures| == 2 * |x.captures| && group < high
    requires HoldsGroup(memory, group, None)
    requires entered == SetCapture(memory, if backward then 2 * group + 1 else 2 * group, Some(x.position))
    requires at < |m.program| && m.program[at] == CloseGroup(group, backward)
    requires AllMove(m.env, backward, x, ys)
    requires Yields(m, Step(m, c), at, ys, controls, Footing(entered, group + 1, high, depth))
    ensures Yields(m, c, at + 1, CaptureAll(group, backward, x, ys), controls, Footing(memory, group, high, depth))
  {
    hide Yields;
    hide Turns;
    hide Step;
    hide Disciplined;
    var zs := CaptureAll(group, backward, x, ys);
    forall i | 0 <= i < |ys|
      ensures Turns(m, at, ys[i], Footing(entered, group + 1, high, depth), at + 1, zs[i],
                    Footing(memory, group, high, depth))
    {
      CloseTurns(m, at, x, ys[i], group, backward, memory, entered, high, depth);
    }
    YieldsMap(m, Step(m, c), at, ys, controls, Footing(entered, group + 1, high, depth), at + 1, zs,
              Footing(memory, group, high, depth));
    YieldsAfterStep(m, c, at + 1, zs, controls, Footing(memory, group, high, depth));
  }

  // ---- Lookarounds ----

  lemma LookAroundPlaced(m: Engine, mods: Modifiers, atom: Atom, backward: bool, at: nat, depth: nat)
    requires atom.LookAround?
    requires Placed(m.program, at, CodeAtom(m.env.canonicalize, mods, atom, backward, at, depth))
    ensures var alternatives := atom.expression.alternatives;
            var end := at + 1 + AlternativesLength(m.env.canonicalize, mods, alternatives, atom.backward, at + 1, depth);
            && end + 1 == at + |CodeAtom(m.env.canonicalize, mods, atom, backward, at, depth)|
            && at < |m.program| && m.program[at] == LookAhead(atom.negative, end + 1)
            && end < |m.program| && m.program[end] == LookAheadEnd(atom.negative)
            && Placed(m.program, at + 1,
                      CodeAlternativesTo(m.env.canonicalize, mods, alternatives, atom.backward, at + 1, depth, end))
  {
    hide Placed;
    hide CodeAlternativesTo;
    hide AlternativesLength;
    var body := CodeAlternatives(m.env.canonicalize, mods, atom.expression.alternatives, atom.backward, at + 1, depth);
    var end := at + 1 + |body|;
    PlacedSplit3(m.program, at, [LookAhead(atom.negative, end + 1)], body, [LookAheadEnd(atom.negative)]);
    PlacedOne(m.program, at, LookAhead(atom.negative, end + 1));
    PlacedOne(m.program, end, LookAheadEnd(atom.negative));
  }

  lemma {:induction false} LookAroundCorrect(m: Engine, mods: Modifiers, atom: Atom, backward: bool, at: nat,
                                             depth: nat, first: nat, total: nat, x: Cursor, memory: Memory,
                                             controls: seq<Frame>)
    requires atom.LookAround?
    requires EntersAtom(m, mods, atom, backward, at, depth, first, total, x, memory)
    ensures Yields(m, Running(at, x.position, memory, controls),
                   at + |CodeAtom(m.env.canonicalize, mods, atom, backward, at, depth)|,
                   MatchAtom(m.env, mods, atom, backward, x), controls,
                   Footing(memory, first, first + GroupCount(atom), depth))
    decreases atom.expression.alternatives, 3, 0, 0, 0
  {
    hide Placed;
    hide MatchAlternatives;
    hide WellFormedAlternatives;
    hide NoBackwardStringsIn;
    hide AlternativesGroups;
    hide AlternativesRegisters;
    hide CodeAlternatives;
    hide Ready;
    hide Yields;
    hide CodeAtom;
    hide CodeAlternativesTo;
    hide AlternativesLength;
    LookAroundPlaced(m, mods, atom, backward, at, depth);
    var alternatives := atom.expression.alternatives;
    var end := at + 1 + AlternativesLength(m.env.canonicalize, mods, alternatives, atom.backward, at + 1, depth);
    var frame := Frame(Assertion(atom.negative, end + 1), x.position, memory);
    AlternativesCorrect(m, mods, alternatives, atom.backward, at + 1, depth, first, total, x, memory,
                        controls + [frame], end);
    var ys := MatchAlternatives(m.env, mods, alternatives, atom.backward, x);
    AssertionEnds(m, at, end, atom.negative, ys, x, memory, controls, first, first + GroupCount(atom), depth);
  }

  /** A lookaround takes the first result of its body, or the absence of one. */
  lemma AssertionEnds(m: Engine, at: nat, end: nat, negative: bool, ys: seq<Cursor>, x: Cursor, memory: Memory,
                      controls: seq<Frame>, low: nat, high: nat, depth: nat)
    requires at < |m.program| && m.program[at] == LookAhead(negative, end + 1)
    requires end < |m.program| && m.program[end] == LookAheadEnd(negative)
    requires Ready(x, memory, low, high)
    requires var upper := controls + [Frame(Assertion(negative, end + 1), x.position, memory)];
             Yields(m, Running(at + 1, x.position, memory, upper), end, ys, upper, Footing(memory, low, high, depth))
    ensures Yields(m, Running(at, x.position, memory, controls), end + 1,
                   if negative then (if ys == [] then [x] else [])
                   else if ys == [] then [] else [ys[0].(position := x.position)],
                   controls, Footing(memory, low, high, depth))
  {
    hide Reaches;
    hide Yields;
    var frame := Frame(Assertion(negative, end + 1), x.position, memory);
    var footing := Footing(memory, low, high, depth);
    var start, inside := Running(at, x.position, memory, controls), Running(at + 1, x.position, memory, controls + [frame]);
    ReachesOne(m, start);
    if ys == [] {
      ReadyFits(x, memory, low, high, depth, x.position);
      AssertionFails(m, inside, end, negative, x, memory, controls, frame, footing);
      YieldsAfter(m, start, inside, end + 1, if negative then [x] else [], controls, footing);
    } else {
      AssertionSucceeds(m, inside, end, negative, ys, x, controls, frame, footing);
      YieldsAfter(m, start, inside, end + 1, if negative then [] else [ys[0].(position := x.position)], controls, footing);
    }
  }

  lemma AssertionFails(m: Engine, inside: Config, end: nat, negative: bool, x: Cursor, memory: Memory,
                       controls: seq<Frame>, frame: Frame, footing: Footing)
    requires frame == Frame(Assertion(negative, end + 1), x.position, memory) && Fits(footing, x, memory)
    requires Yields(m, inside, end, [], controls + [frame], footing)
    ensures Yields(m, inside, end + 1, if negative then [x] else [], controls, footing)
  {
    var failing := Failing(controls + [frame]);
    assert Reaches(m, inside, failing);
    assert (controls + [frame])[..|controls|] == controls;
    ReachesOne(m, failing);
    ReachesTransitive(m, inside, failing, Step(m, failing));
    if negative {
      YieldsOne(m, inside, end + 1, x, controls, footing, memory);
    } else {
      YieldsNone(m, inside, end + 1, controls, footing);
    }
  }

  lemma AssertionSucceeds(m: Engine, inside: Config, end: nat, negative: bool, ys: seq<Cursor>, x: Cursor,
                          controls: seq<Frame>, frame: Frame, footing: Footing)
    requires end < |m.program| && m.program[end] == LookAheadEnd(negative)
    requires frame.kind == Assertion(negative, end + 1) && frame.position == x.position && ys != []
    requires Yields(m, inside, end, ys, controls + [frame], footing)
    ensures Yields(m, inside, end + 1, if negative then [] else [ys[0].(position := x.position)], controls, footing)
  {
    hide Reaches;
    hide Yields;
    var memory, upper := FirstResult(m, inside, end, ys, controls + [frame], footing);
    LastAssertionIs(controls, frame, upper);
    var here := Running(end, ys[0].position, memory, upper);
    ReachesOne(m, here);
    ReachesTransitive(m, inside, here, Step(m, here));
    if negative {
      YieldsNone(m, inside, end + 1, controls, footing);
    } else {
      YieldsOne(m, inside, end + 1, ys[0].(position := x.position), controls, footing, memory);
    }
  }

  // ---- Alternatives ----

  lemma {:induction false} AlternativesCorrect(m: Engine, mods: Modifiers, alternatives: seq<Sequence>, backward: bool,
                                               at: nat, depth: nat, first: nat, total: nat, x: Cursor, memory: Memory,
                                               controls: seq<Frame>, end: nat)
    requires EntersAlternatives(m, mods, alternatives, backward, at, depth, first, total, x, memory, end)
    ensures Yields(m, Running(at, x.position, memory, controls), end,
                   MatchAlternatives(m.env, mods, alternatives, backward, x), controls,
                   Footing(memory, first, first + AlternativesGroups(alternatives), depth))
    decreases alternatives, 2, 0, 0, 0
  {
    hide Yields;
    if |alternatives| == 1 {
      assert AlternativesGroups(alternatives[1..]) == 0;
      TermsCorrect(m, mods, alternatives[0].terms, backward, at, depth, first, total, x, memory, controls);
    } else {
      AlternativesSplit(m, mods, alternatives, backward, at, depth, first, total, x, memory, controls, end);
    }
  }

  lemma ReadyNarrow(x: Cursor, memory: Memory, low: nat, high: nat, low': nat, high': nat)
    requires Ready(x, memory, low, high) && low <= low' && high' <= high
    ensures Ready(x, memory, low', high')
  {
  }

  lemma AlternativesPlaced(m: Engine, mods: Modifiers, alternatives: seq<Sequence>, backward: bool, at: nat,
                           depth: nat, end: nat)
    requires |alternatives| > 1
    requires Placed(m.program, at, CodeAlternativesTo(m.env.canonicalize, mods, alternatives, backward, at, depth, end))
    ensures var code := CodeTerms(m.env.canonicalize, mods, alternatives[0].terms, backward, at + 1, depth);
            var next := at + |code| + 2;
            && at < |m.program| && m.program[at] == Split(at + 1, next)
            && Placed(m.program, at + 1, code)
            && at + 1 + |code| < |m.program| && m.program[at + 1 + |code|] == Jump(end)
            && Placed(m.program, next,
                      CodeAlternativesTo(m.env.canonicalize, mods, alternatives[1..], backward, next, depth, end))
  {
    hide Placed;
    hide CodeTerms;
    var code := CodeTerms(m.env.canonicalize, mods, alternatives[0].terms, backward, at + 1, depth);
    var next := at + |code| + 2;
    var rest := CodeAlternativesTo(m.env.canonicalize, mods, alternatives[1..], backward, next, depth, end);
    PlacedSplit(m.program, at, [Split(at + 1, next)] + code + [Jump(end)], rest);
    PlacedSplit3(m.program, at, [Split(at + 1, next)], code, [Jump(end)]);
    PlacedOne(m.program, at, Split(at + 1, next));
    PlacedOne(m.program, at + 1 + |code|, Jump(end));
  }

  lemma {:induction false} AlternativesSplit(m: Engine, mods: Modifiers, alternatives: seq<Sequence>, backward: bool,
                                             at: nat, depth: nat, first: nat, total: nat, x: Cursor, memory: Memory,
                                             controls: seq<Frame>, end: nat)
    requires |alternatives| > 1
    requires EntersAlternatives(m, mods, alternatives, backward, at, depth, first, total, x, memory, end)
    ensures Yields(m, Running(at, x.position, memory, controls), end,
                   MatchAlternatives(m.env, mods, alternatives, backward, x), controls,
                   Footing(memory, first, first + AlternativesGroups(alternatives), depth))
    decreases alternatives, 1, 0, 0, 0
  {
    hide Yields;
    hide Ready;
    hide CodeTerms;
    hide CodeAlternativesTo;
    AlternativesPlaced(m, mods, alternatives, backward, at, depth, end);
    var terms := alternatives[0].terms;
    var code := CodeTerms(m.env.canonicalize, mods, terms, backward, at + 1, depth);
    var next := at + |code| + 2;
    var middle, high := first + TermsGroups(terms), first + AlternativesGroups(alternatives);
    ReadyNarrow(x, memory, first, high, first, middle);
    ReadyNarrow(x, memory, first, high, middle, high);
    var upper := controls + [Frame(Resume(next), x.position, memory)];
    FirstAlternative(m, mods, terms, backward, at + 1, depth, first, total, x, memory, upper, high);
    YieldsJump(m, Running(at + 1, x.position, memory, upper), at + 1 + |code|,
               MatchTerms(m.env, mods, terms, backward, x), upper, Footing(memory, first, high, depth));
    OtherAlternatives(m, mods, alternatives[1..], backward, next, depth, middle, total, x, memory, controls, end, first);
    YieldsSplit(m, at, x.position, memory, controls, end, MatchTerms(m.env, mods, terms, backward, x),
                MatchAlternatives(m.env, mods, alternatives[1..], backward, x), Footing(memory, first, high, depth));
  }

  lemma {:induction false} FirstAlternative(m: Engine, mods: Modifiers, terms: seq<Term>, backward: bool, at: nat,
                                            depth: nat, first: nat, total: nat, x: Cursor, memory: Memory,
                                            controls: seq<Frame>, high: nat)
    requires EntersTerms(m, mods, terms, backward, at, depth, first, total, x, memory)
    requires first + TermsGroups(terms) <= high && Ready(x, memory, first, high)
    ensures Yields(m, Running(at, x.position, memory, controls),
                   at + |CodeTerms(m.env.canonicalize, mods, terms, backward, at, depth)|,
                   MatchTerms(m.env, mods, terms, backward, x), controls, Footing(memory, first, high, depth))
    decreases terms, 3, 0, 0, 0
  {
    hide Yields;
    hide Ready;
    hide MatchTerms;
    var ys := MatchTerms(m.env, mods, terms, backward, x);
    TermsCorrect(m, mods, terms, backward, at, depth, first, total, x, memory, controls);
    TermsKeep(m.env, mods, terms, backward, x);
    TermsNumbered(terms, first, total, true);
    KeepsAgrees(x, ys, TermsGroupSet(terms), first, first + TermsGroups(terms));
    Widen(m, Running(at, x.position, memory, controls),
          at + |CodeTerms(m.env.canonicalize, mods, terms, backward, at, depth)|, ys, controls, x, memory,
          first, first + TermsGroups(terms), depth, first, high, depth);
  }

  lemma {:induction false} OtherAlternatives(m: Engine, mods: Modifiers, alternatives: seq<Sequence>, backward: bool,
                                             at: nat, depth: nat, first: nat, total: nat, x: Cursor, memory: Memory,
                                             controls: seq<Frame>, end: nat, low: nat)
    requires EntersAlternatives(m, mods, alternatives, backward, at, depth, first, total, x, memory, end)
    requires low <= first && Ready(x, memory, low, first + AlternativesGroups(alternatives))
    ensures Yields(m, Running(at, x.position, memory, controls), end,
                   MatchAlternatives(m.env, mods, alternatives, backward, x), controls,
                   Footing(memory, low, first + AlternativesGroups(alternatives), depth))
    decreases alternatives, 3, 0, 0, 0
  {
    hide Yields;
    hide Ready;
    hide MatchAlternatives;
    var ys := MatchAlternatives(m.env, mods, alternatives, backward, x);
    var high := first + AlternativesGroups(alternatives);
    AlternativesCorrect(m, mods, alternatives, backward, at, depth, first, total, x, memory, controls, end);
    AlternativesKeep(m.env, mods, alternatives, backward, x);
    AlternativesNumbered(alternatives, first, total, true);
    KeepsAgrees(x, ys, AlternativesGroupSet(alternatives), first, high);
    Widen(m, Running(at, x.position, memory, controls), end, ys, controls, x, memory, first, high, depth, low, high, depth);
  }

  // ---- Sequences ----

  lemma {:induction false} StringsFirstRest(terms: seq<Term>, backward: bool)
    requires terms != [] && NoBackwardStringsInTerms(terms, backward)
    ensures NoBackwardStringsInTerm(First(terms, backward), backward)
    ensures NoBackwardStringsInTerms(Rest(terms, backward), backward)
    decreases |terms|
  {
    if backward && |terms| > 1 {
      StringsFirstRest(terms[1..], true);
      assert terms[1..][..|terms| - 2] == terms[..|terms| - 1][1..];
    }
  }

  lemma {:induction false} TermsCorrect(m: Engine, mods: Modifiers, terms: seq<Term>, backward: bool, at: nat,
                                        depth: nat, first: nat, total: nat, x: Cursor, memory: Memory,
                                        controls: seq<Frame>)
    requires EntersTerms(m, mods, terms, backward, at, depth, first, total, x, memory)
    ensures Yields(m, Running(at, x.position, memory, controls),
                   at + |CodeTerms(m.env.canonicalize, mods, terms, backward, at, depth)|,
                   MatchTerms(m.env, mods, terms, backward, x), controls,
                   Footing(memory, first, first + TermsGroups(terms), depth))
    decreases terms, 1, 0, 0, 0
  {
    hide Yields;
    hide Ready;
    var start := Running(at, x.position, memory, controls);
    if terms == [] {
      ReachesItself(m, start);
      ReadyFits(x, memory, first, first, depth, x.position);
      YieldsOne(m, start, at, x, controls, Footing(memory, first, first, depth), memory);
    } else {
      SequenceCorrect(m, mods, terms, backward, at, depth, first, total, x, memory, controls);
    }
  }

  lemma {:induction false} SequenceCorrect(m: Engine, mods: Modifiers, terms: seq<Term>, backward: bool, at: nat,
                                           depth: nat, first: nat, total: nat, x: Cursor, memory: Memory,
                                           controls: seq<Frame>)
    requires terms != []
    requires EntersTerms(m, mods, terms, backward, at, depth, first, total, x, memory)
    ensures Yields(m, Running(at, x.position, memory, controls),
                   at + |CodeTerms(m.env.canonicalize, mods, terms, backward, at, depth)|,
                   MatchTerms(m.env, mods, terms, backward, x), controls,
                   Footing(memory, first, first + TermsGroups(terms), depth))
    decreases terms, 0, 0, 0, 0
  {
    hide WellFormedTerm;
    hide NoBackwardStringsInTerm;
    hide TermRegisters;
    hide MatchTerm;
    hide CodeTerm;
    hide Placed;
    hide TermGroups;
    hide Yields;
    hide Ready;
    var term, rest := First(terms, backward), Rest(terms, backward);
    var low, low' := FirstGroup(terms, backward, first), RestGroup(terms, backward, first);
    WellFormedFirstRest(terms, backward, first, total, true);
    RegistersFirstRest(terms, backward);
    StringsFirstRest(terms, backward);
    var code := CodeTerm(m.env.canonicalize, mods, term, backward, at, depth);
    var code' := CodeTerms(m.env.canonicalize, mods, rest, backward, at + |code|, depth);
    PlacedSplit(m.program, at, code, code');
    var high, high' := low + TermGroups(term), low' + TermsGroups(rest);
    ReadyNarrow(x, memory, first, first + TermsGroups(terms), low, high);
    TermCorrect(m, mods, term, backward, at, depth, low, total, x, memory, controls);
    TermKeeps(m.env, mods, term, backward, x);
    TermNumbered(term, low, total, true);
    var ys := MatchTerm(m.env, mods, term, backward, x);
    KeepsAgrees(x, ys, TermGroupSet(term), low, high);
    ReadyNarrow(x, memory, first, first + TermsGroups(terms), low', high');
    RestCorrect(m, mods, rest, backward, at + |code|, depth, low', total, x, memory, controls,
                Running(at, x.position, memory, controls), ys, low, high, first);
  }

  /** The rest of a sequence runs after each result of its first term. */
  lemma {:induction false} RestCorrect(m: Engine, mods: Modifiers, terms: seq<Term>, backward: bool, at: nat,
                                       depth: nat, first: nat, total: nat, x: Cursor, memory: Memory,
                                       controls: seq<Frame>, c: Config, ys: seq<Cursor>, low: nat, high: nat, whole: nat)
    requires EntersTerms(m, mods, terms, backward, at, depth, first, total, x, memory)
    requires AllMove(m.env, backward, x, ys) && AllAgree(x, ys, low, high)
    requires if backward then whole == first && low == first + TermsGroups(terms) <= high
             else whole == low && high == first && low <= high
    requires Yields(m, c, at, ys, controls, Footing(memory, low, high, depth))
    ensures Yields(m, c, at + |CodeTerms(m.env.canonicalize, mods, terms, backward, at, depth)|,
                   MatchTermsAll(m.env, mods, terms, backward, x, ys), controls,
                   Footing(memory, whole, whole + (high - low) + TermsGroups(terms), depth))
    decreases terms, 2, |ys|, 0, 0
  {
    hide Yields;
    hide Ready;
    hide Placed;
    var end := at + |CodeTerms(m.env.canonicalize, mods, terms, backward, at, depth)|;
    var footing := Footing(memory, whole, whole + (high - low) + TermsGroups(terms), depth);
    if ys == [] {
      YieldsNothing(m, c, at, controls, Footing(memory, low, high, depth), end, footing);
    } else {
      var memory', upper := FirstResult(m, c, at, ys, controls, Footing(memory, low, high, depth));
      RestCorrect(m, mods, terms, backward, at, depth, first, total, x, memory, controls, Failing(upper), ys[1..],
                  low, high, whole);
      ReadyNext(x, ys[0], memory, memory', low, high, depth, first, first + TermsGroups(terms));
      RestOnce(m, mods, terms, backward, at, depth, first, total, x, memory, ys[0], memory', upper, low, high, whole);
      YieldsAfter(m, c, Running(at, ys[0].position, memory', upper), end, MatchTerms(m.env, mods, terms, backward, ys[0]),
                  upper, footing);
      YieldsAppend(m, c, end, MatchTerms(m.env, mods, terms, backward, ys[0]),
                   MatchTermsAll(m.env, mods, terms, backward, x, ys[1..]), upper, controls, footing);
    }
  }

  lemma YieldsNothing(m: Engine, c: Config, exit: nat, controls: seq<Frame>, footing: Footing, exit': nat,
                      footing': Footing)
    requires Yields(m, c, exit, [], controls, footing)
    ensures Yields(m, c, exit', [], controls, footing')
  {
  }

  lemma {:induction false} RestOnce(m: Engine, mods: Modifiers, terms: seq<Term>, backward: bool, at: nat, depth: nat,
                                    first: nat, total: nat, x: Cursor, memory: Memory, y: Cursor, memory': Memory,
                                    upper: seq<Frame>, low: nat, high: nat, whole: nat)
    requires EntersTerms(m, mods, terms, backward, at, depth, first, total, x, memory)
    requires Valid(m.env, y) && Agrees(x, y, low, high)
    requires if backward then whole == first && low == first + TermsGroups(terms) <= high
             else whole == low && high == first && low <= high
    requires Fits(Footing(memory, low, high, depth), y, memory')
    requires Ready(y, memory', first, first + TermsGroups(terms))
    ensures Yields(m, Running(at, y.position, memory', upper),
                   at + |CodeTerms(m.env.canonicalize, mods, terms, backward, at, depth)|,
                   MatchTerms(m.env, mods, terms, backward, y), upper,
                   Footing(memory, whole, whole + (high - low) + TermsGroups(terms), depth))
    decreases terms, 1, 1, 0, 0
  {
    hide Yields;
    hide Ready;
    hide Placed;
    hide MatchTerms;
    hide CodeTerms;
    assert |memory'.registers| == |memory.registers|;
    var zs := MatchTerms(m.env, mods, terms, backward, y);
    var end := at + |CodeTerms(m.env.canonicalize, mods, terms, backward, at, depth)|;
    var groups := TermsGroups(terms);
    TermsCorrect(m, mods, terms, backward, at, depth, first, total, y, memory', upper);
    TermsKeep(m.env, mods, terms, backward, y);
    TermsNumbered(terms, first, total, true);
    KeepsAgrees(y, zs, TermsGroupSet(terms), first, first + groups);
    var from, to := Footing(memory', first, first + groups, depth), Footing(memory, whole, whole + (high - low) + groups, depth);
    forall i, memory'' | 0 <= i < |zs| && Fits(from, zs[i], memory'')
      ensures Fits(to, zs[i], memory'')
    {
      var middle := if backward then low else high;
      FitsThen(x, y, memory, memory', memory'', whole, middle, whole + (high - low) + groups, depth, backward, zs[i]);
    }
    YieldsRebase(m, Running(at, y.position, memory', upper), end, zs, upper, from, to);
  }

  // ---- Terms ----

  lemma {:induction false} TermCorrect(m: Engine, mods: Modifiers, term: Term, backward: bool, at: nat, depth: nat,
                                       first: nat, total: nat, x: Cursor, memory: Memory, controls: seq<Frame>)
    requires EntersTerm(m, mods, term, backward, at, depth, first, total, x, memory)
    ensures Yields(m, Running(at, x.position, memory, controls),
                   at + |CodeTerm(m.env.canonicalize, mods, term, backward, at, depth)|,
                   MatchTerm(m.env, mods, term, backward, x), controls,
                   Footing(memory, first, first + TermGroups(term), depth))
    decreases term, 0, 0, 0, 0
  {
    hide CodeAtom;
    hide CodeQuantified;
    hide MatchAtom;
    hide Repeat;
    hide Placed;
    hide WellFormed;
    hide NoBackwardStrings;
    hide AtomRegisters;
    hide GroupCount;
    hide Yields;
    hide Ready;
    match term.quantifier
    case None =>
      AtomCorrect(m, mods, term.atom, backward, at, depth, first, total, x, memory, controls);
    case Some(q) =>
      QuantifiedCorrect(m, mods, term.atom, q, backward, at, depth, first, total, x, memory, controls);
  }

  // ---- Iterations ----

  /** A quantified atom: everything about it that stays the same while it repeats. */
  datatype Site = Site(m: Engine, mods: Modifiers, atom: Atom, backward: bool, greedy: bool, first: nat, total: nat)

  function High(s: Site): nat {
    s.first + GroupCount(s.atom)
  }

  predicate GoodSite(s: Site) {
    WellFormed(s.atom, s.first, s.total, true) && NoBackwardStrings(s.atom, s.backward)
  }

  predicate AtHead(s: Site, x: Cursor, memory: Memory, base: Footing, depth: nat) {
    && Valid(s.m.env, x) && s.total <= |x.captures|
    && AtLoop(x, memory, base)
    && base.low == s.first && base.high == High(s) && base.depth <= depth
  }

  /** The results of one iteration. */
  function Once(s: Site, x: Cursor): (r: seq<Cursor>)
    requires Valid(s.m.env, x)
    ensures AllMove(s.m.env, s.backward, x, r)
  {
    MatchAtom(s.m.env, s.mods, s.atom, s.backward, Forget(x, Groups(s.atom)))
  }

  lemma OnceAgrees(s: Site, x: Cursor)
    requires GoodSite(s) && Valid(s.m.env, x)
    ensures AllAgree(x, Once(s, x), s.first, High(s))
  {
    var z := Forget(x, Groups(s.atom));
    AtomKeeps(s.m.env, s.mods, s.atom, s.backward, z);
    AtomNumbered(s.atom, s.first, s.total, true);
    KeepsAgrees(z, Once(s, x), Groups(s.atom), s.first, High(s));
  }

  function IterationCode(s: Site, at: nat, depth: nat): seq<Instruction> {
    CodeIteration(s.m.env.canonicalize, s.mods, s.atom, s.backward, at, depth)
  }

  lemma {:induction false} IterationCorrect(s: Site, at: nat, depth: nat, x: Cursor, memory: Memory,
                                            controls: seq<Frame>, base: Footing)
    requires GoodSite(s) && AtHead(s, x, memory, base, depth)
    requires Placed(s.m.program, at, IterationCode(s, at, depth))
    requires depth + AtomRegisters(s.atom) <= |memory.registers|
    ensures Yields(s.m, Running(at, x.position, memory, controls), at + |IterationCode(s, at, depth)|, Once(s, x),
                   controls, Footing(memory, s.first, High(s), depth))
    decreases s.atom, 1, 0, 0, 0
  {
    hide Yields;
    hide CodeAtom;
    hide MatchAtom;
    AtomNumbered(s.atom, s.first, s.total, true);
    var z := Forget(x, Groups(s.atom));
    if GroupCount(s.atom) == 0 {
      assert IterationCode(s, at, depth) == CodeAtom(s.m.env.canonicalize, s.mods, s.atom, s.backward, at, depth);
      NoGroupsReady(x, memory, base, Groups(s.atom));
      AtomCorrect(s.m, s.mods, s.atom, s.backward, at, depth, s.first, s.total, z, memory, controls);
    } else {
      ResetIteration(s, at, depth, x, memory, controls, base);
    }
  }

  lemma ResetPlaced(s: Site, at: nat, depth: nat)
    requires GoodSite(s) && GroupCount(s.atom) > 0
    requires Placed(s.m.program, at, IterationCode(s, at, depth))
    ensures var code := CodeAtom(s.m.env.canonicalize, s.mods, s.atom, s.backward, at + 1, depth);
            && |IterationCode(s, at, depth)| == |code| + 1
            && at < |s.m.program| && s.m.program[at] == ResetCaptures(s.first, High(s) - 1)
            && Placed(s.m.program, at + 1, code)
  {
    hide CodeAtom;
    hide Placed;
    AtomNumbered(s.atom, s.first, s.total, true);
    var code := CodeAtom(s.m.env.canonicalize, s.mods, s.atom, s.backward, at + 1, depth);
    assert IterationCode(s, at, depth) == [ResetCaptures(s.first, High(s) - 1)] + code;
    PlacedSplit(s.m.program, at, [ResetCaptures(s.first, High(s) - 1)], code);
    PlacedOne(s.m.program, at, ResetCaptures(s.first, High(s) - 1));
  }

  lemma {:induction false} ResetIteration(s: Site, at: nat, depth: nat, x: Cursor, memory: Memory,
                                          controls: seq<Frame>, base: Footing)
    requires GoodSite(s) && AtHead(s, x, memory, base, depth)
    requires GroupCount(s.atom) > 0
    requires Placed(s.m.program, at, IterationCode(s, at, depth))
    requires depth + AtomRegisters(s.atom) <= |memory.registers|
    ensures Yields(s.m, Running(at, x.position, memory, controls), at + |IterationCode(s, at, depth)|, Once(s, x),
                   controls, Footing(memory, s.first, High(s), depth))
    decreases s.atom, 0, 1, 0, 0
  {
    hide Forget;
    hide ClearCaptures;
    hide Groups;
    hide WellFormed;
    hide NoBackwardStrings;
    hide AtomRegisters;
    hide Placed;
    hide GroupCount;
    hide Yields;
    hide CodeAtom;
    hide MatchAtom;
    hide IterationCode;
    AtomNumbered(s.atom, s.first, s.total, true);
    ResetPlaced(s, at, depth);
    var z := Forget(x, Groups(s.atom));
    var code := CodeAtom(s.m.env.canonicalize, s.mods, s.atom, s.backward, at + 1, depth);
    var cleared := ClearCaptures(memory, s.first, High(s) - 1);
    ClearReady(x, memory, base, Groups(s.atom));
    var start := Running(at, x.position, memory, controls);
    assert Step(s.m, start) == Running(at + 1, x.position, cleared, controls);
    AtomCorrect(s.m, s.mods, s.atom, s.backward, at + 1, depth, s.first, s.total, z, cleared, controls);
    YieldsAfterStep(s.m, start, at + 1 + |code|, Once(s, x), controls, Footing(cleared, s.first, High(s), depth));
    Uncleared(s.m, start, at + 1 + |code|, Once(s, x), controls, memory, s.first, High(s), depth);
  }

  lemma Uncleared(m: Engine, c: Config, exit: nat, ys: seq<Cursor>, controls: seq<Frame>, memory: Memory,
                  low: nat, high: nat, depth: nat)
    requires low < high
    requires Yields(m, c, exit, ys, controls, Footing(ClearCaptures(memory, low, high - 1), low, high, depth))
    ensures Yields(m, c, exit, ys, controls, Footing(memory, low, high, depth))
  {
    hide Yields;
    hide Fits;
    hide ClearCaptures;
    var from, to := Footing(ClearCaptures(memory, low, high - 1), low, high, depth), Footing(memory, low, high, depth);
    forall i, memory' | 0 <= i < |ys| && Fits(from, ys[i], memory')
      ensures Fits(to, ys[i], memory')
    {
      FitsCleared(ys[i], memory, memory', low, high, depth);
    }
    YieldsRebase(m, c, exit, ys, controls, from, to);
  }

  function BodyCode(s: Site, at: nat, depth: nat): seq<Instruction> {
    CodeBody(s.m.env.canonicalize, s.mods, s.atom, s.backward, at, depth)
  }

  /** An optional iteration yields the results that moved, whether or not its code checks. */
  lemma {:induction false} BodyCorrect(s: Site, at: nat, depth: nat, x: Cursor, memory: Memory, controls: seq<Frame>,
                                       base: Footing)
    requires GoodSite(s) && AtHead(s, x, memory, base, depth)
    requires Placed(s.m.program, at, BodyCode(s, at, depth))
    requires depth + Flag(CanMatchEmpty(s.atom)) + AtomRegisters(s.atom) <= |memory.registers|
    ensures Yields(s.m, Running(at, x.position, memory, controls), at + |BodyCode(s, at, depth)|,
                   Moved(x.position, Once(s, x)), controls, Footing(memory, s.first, High(s), depth))
    decreases s.atom, 2, 0, 0, 0
  {
    hide WellFormed;
    hide NoBackwardStrings;
    hide AtomRegisters;
    hide GroupCount;
    hide Placed;
    hide CodeIteration;
    hide Groups;
    hide Yields;
    hide MatchAtom;
    hide AtLoop;
    if CanMatchEmpty(s.atom) {
      CheckedBody(s, at, depth, x, memory, controls, base);
    } else {
      assert BodyCode(s, at, depth) == IterationCode(s, at, depth);
      IterationCorrect(s, at, depth, x, memory, controls, base);
      var z := Forget(x, Groups(s.atom));
      AtomStrict(s.m.env, s.mods, s.atom, s.backward, z, s.first, s.total);
      MovedAll(z, Once(s, x));
    }
  }

  lemma CheckedPlaced(s: Site, at: nat, depth: nat)
    requires CanMatchEmpty(s.atom) && Placed(s.m.program, at, BodyCode(s, at, depth))
    ensures var code := IterationCode(s, at + 1, depth + 1);
            && |BodyCode(s, at, depth)| == |code| + 2
            && at < |s.m.program| && s.m.program[at] == SavePosition(depth)
            && Placed(s.m.program, at + 1, code)
            && at + 1 + |code| < |s.m.program| && s.m.program[at + 1 + |code|] == CheckAdvance(depth)
  {
    hide CodeIteration;
    hide Placed;
    var code := IterationCode(s, at + 1, depth + 1);
    assert BodyCode(s, at, depth) == [SavePosition(depth)] + code + [CheckAdvance(depth)];
    PlacedSplit3(s.m.program, at, [SavePosition(depth)], code, [CheckAdvance(depth)]);
    PlacedOne(s.m.program, at, SavePosition(depth));
    PlacedOne(s.m.program, at + 1 + |code|, CheckAdvance(depth));
  }

  lemma {:induction false} CheckedBody(s: Site, at: nat, depth: nat, x: Cursor, memory: Memory, controls: seq<Frame>,
                                       base: Footing)
    requires GoodSite(s) && AtHead(s, x, memory, base, depth) && CanMatchEmpty(s.atom)
    requires Placed(s.m.program, at, BodyCode(s, at, depth))
    requires depth + 1 + AtomRegisters(s.atom) <= |memory.registers|
    ensures Yields(s.m, Running(at, x.position, memory, controls), at + |BodyCode(s, at, depth)|,
                   Moved(x.position, Once(s, x)), controls, Footing(memory, s.first, High(s), depth))
    decreases s.atom, 1, 1, 0, 0
  {
    hide Yields;
    hide Once;
    hide BodyCode;
    hide IterationCode;
    CheckedPlaced(s, at, depth);
    var value := RegisterValue.Position(x.position);
    var saved := SetRegisterTo(memory, depth, value);
    LoopScratch(x, memory, base, depth, value);
    var start := Running(at, x.position, memory, controls);
    assert Step(s.m, start) == Running(at + 1, x.position, saved, controls);
    var end := at + 1 + |IterationCode(s, at + 1, depth + 1)|;
    IterationCorrect(s, at + 1, depth + 1, x, saved, controls, base);
    YieldsAdvanced(s.m, Running(at + 1, x.position, saved, controls), end, Once(s, x), controls,
                   Footing(saved, s.first, High(s), depth + 1), x.position);
    YieldsAfterStep(s.m, start, end + 1, Moved(x.position, Once(s, x)), controls,
                    Footing(saved, s.first, High(s), depth + 1));
    YieldsScratch(s.m, start, end + 1, Moved(x.position, Once(s, x)), controls, memory, s.first, High(s), depth, value);
  }

  // ---- Unbounded repetition ----

  /** Results that a further round starts from. */
  predicate Rounds(s: Site, x: Cursor, ys: seq<Cursor>) {
    AllMove(s.m.env, s.backward, x, ys) && AllAgree(x, ys, s.first, High(s))
  }

  lemma MovedRounds(s: Site, x: Cursor)
    requires GoodSite(s) && Valid(s.m.env, x)
    ensures Rounds(s, x, Moved(x.position, Once(s, x))) && Strict(x, Moved(x.position, Once(s, x)))
    ensures Rounds(s, x, Once(s, x))
  {
    OnceAgrees(s, x);
    var ys, zs := Once(s, x), Moved(x.position, Once(s, x));
    forall i | 0 <= i < |zs|
      ensures Moves(s.m.env, s.backward, x, zs[i]) && Agrees(x, zs[i], s.first, High(s))
    {
      assert zs[i] in ys;
    }
  }

  function Again(s: Site, maximum: Option<nat>, x: Cursor): (r: seq<Cursor>)
    requires Valid(s.m.env, x)
    ensures AllMove(s.m.env, s.backward, x, r)
  {
    Repeat(s.m.env, s.mods, s.atom, 0, maximum, s.greedy, s.backward, x)
  }

  function AgainEach(s: Site, maximum: Option<nat>, x: Cursor, ys: seq<Cursor>): (r: seq<Cursor>)
    requires Valid(s.m.env, x) && AllMove(s.m.env, s.backward, x, ys)
  {
    RepeatEach(s.m.env, s.mods, s.atom, 0, maximum, s.greedy, s.backward, x, ys)
  }

  /** Repeating is another round from what moved, before or after stopping here. */
  lemma AgainUnfolds(s: Site, maximum: Option<nat>, x: Cursor)
    requires GoodSite(s) && Valid(s.m.env, x) && maximum != Some(0)
    ensures AllMove(s.m.env, s.backward, x, Moved(x.position, Once(s, x)))
    ensures var again := AgainEach(s, Less(maximum), x, Moved(x.position, Once(s, x)));
            Again(s, maximum, x) == if s.greedy then again + [x] else [x] + again
  {
    hide MatchAtom;
    hide RepeatEach;
    hide RepeatAll;
    RepeatAllOptional(s.m.env, s.mods, s.atom, maximum, s.greedy, s.backward, x, Once(s, x));
  }

  lemma AgainZero(s: Site, x: Cursor)
    requires Valid(s.m.env, x)
    ensures Again(s, Some(0), x) == [x]
  {
  }

  lemma AgainEachUnfolds(s: Site, maximum: Option<nat>, x: Cursor, ys: seq<Cursor>)
    requires Valid(s.m.env, x) && AllMove(s.m.env, s.backward, x, ys)
    ensures ys == [] ==> AgainEach(s, maximum, x, ys) == []
    ensures ys != [] ==> AgainEach(s, maximum, x, ys) == Again(s, maximum, ys[0]) + AgainEach(s, maximum, x, ys[1..])
  {
    hide Repeat;
  }

  /** The decision of an optional round, given both of its branches. */
  lemma DecisionCorrect(s: Site, at: nat, body: nat, after: nat, x: Cursor, memory: Memory, controls: seq<Frame>,
                        base: Footing, again: seq<Cursor>)
    requires at < |s.m.program| && s.m.program[at] == PreferredSplit(body, after, s.greedy)
    requires Fits(base, x, memory)
    requires s.greedy ==>
      var upper := controls + [Frame(Resume(after), x.position, memory)];
      Yields(s.m, Running(body, x.position, memory, upper), after, again, upper, base)
    requires !s.greedy ==> Yields(s.m, Running(body, x.position, memory, controls), after, again, controls, base)
    ensures Yields(s.m, Running(at, x.position, memory, controls), after,
                   if s.greedy then again + [x] else [x] + again, controls, base)
  {
    hide Yields;
    hide Fits;
    hide Reaches;
    var upper := controls + [Frame(Resume(if s.greedy then after else body), x.position, memory)];
    var rest := if s.greedy then controls else upper;
    ReachesItself(s.m, Running(after, x.position, memory, rest));
    YieldsOne(s.m, Running(after, x.position, memory, rest), after, x, rest, base, memory);
    if s.greedy {
      YieldsSplit(s.m, at, x.position, memory, controls, after, again, [x], base);
    } else {
      YieldsSplit(s.m, at, x.position, memory, controls, after, [x], again, base);
    }
  }

  /** The code of an unbounded loop at `at`: decision, body, jump back. */
  ghost predicate LoopPlaced(s: Site, at: nat, depth: nat) {
    var body := |BodyCode(s, at + 1, depth)|;
    && at < |s.m.program| && s.m.program[at] == PreferredSplit(at + 1, at + body + 2, s.greedy)
    && Placed(s.m.program, at + 1, BodyCode(s, at + 1, depth))
    && at + 1 + body < |s.m.program| && s.m.program[at + 1 + body] == Jump(at)
  }

  lemma {:induction false} LoopCorrect(s: Site, at: nat, depth: nat, x: Cursor, memory: Memory, controls: seq<Frame>,
                                       base: Footing)
    requires GoodSite(s) && LoopPlaced(s, at, depth) && AtHead(s, x, memory, base, depth)
    requires depth + Flag(CanMatchEmpty(s.atom)) + AtomRegisters(s.atom) <= |memory.registers|
    ensures Yields(s.m, Running(at, x.position, memory, controls), at + |BodyCode(s, at + 1, depth)| + 2,
                   Again(s, None, x), controls, base)
    decreases s.atom, 3, Distance(s.m.env, s.backward, x), 2, 0
  {
    hide Yields;
    hide Once;
    hide Again;
    hide AgainEach;
    hide BodyCode;
    AgainUnfolds(s, None, x);
    var after := at + |BodyCode(s, at + 1, depth)| + 2;
    var again := AgainEach(s, None, x, Moved(x.position, Once(s, x)));
    var upper := if s.greedy then controls + [Frame(Resume(after), x.position, memory)] else controls;
    LoopRound(s, at, depth, x, memory, upper, base);
    DecisionCorrect(s, at, at + 1, after, x, memory, controls, base, again);
  }

  lemma {:induction false} LoopRound(s: Site, at: nat, depth: nat, x: Cursor, memory: Memory, controls: seq<Frame>,
                                     base: Footing)
    requires GoodSite(s) && LoopPlaced(s, at, depth) && AtHead(s, x, memory, base, depth)
    requires depth + Flag(CanMatchEmpty(s.atom)) + AtomRegisters(s.atom) <= |memory.registers|
    ensures AllMove(s.m.env, s.backward, x, Moved(x.position, Once(s, x)))
    ensures Yields(s.m, Running(at + 1, x.position, memory, controls), at + |BodyCode(s, at + 1, depth)| + 2,
                   AgainEach(s, None, x, Moved(x.position, Once(s, x))), controls, base)
    decreases s.atom, 3, Distance(s.m.env, s.backward, x), 1, 0
  {
    hide Yields;
    hide Once;
    hide AgainEach;
    hide BodyCode;
    hide AtLoop;
    var start := Running(at + 1, x.position, memory, controls);
    var ys := Moved(x.position, Once(s, x));
    BodyCorrect(s, at + 1, depth, x, memory, controls, base);
    YieldsJump(s.m, start, at + 1 + |BodyCode(s, at + 1, depth)|, ys, controls, Footing(memory, s.first, High(s), depth));
    MovedRounds(s, x);
    LoopEach(s, at, depth, x, memory, controls, base, start, ys);
  }

  lemma {:induction false} LoopEach(s: Site, at: nat, depth: nat, x: Cursor, memory: Memory, controls: seq<Frame>,
                                    base: Footing, c: Config, ys: seq<Cursor>)
    requires GoodSite(s) && LoopPlaced(s, at, depth) && AtHead(s, x, memory, base, depth)
    requires depth + Flag(CanMatchEmpty(s.atom)) + AtomRegisters(s.atom) <= |memory.registers|
    requires Rounds(s, x, ys) && Strict(x, ys)
    requires Yields(s.m, c, at, ys, controls, Footing(memory, s.first, High(s), depth))
    ensures Yields(s.m, c, at + |BodyCode(s, at + 1, depth)| + 2, AgainEach(s, None, x, ys), controls, base)
    decreases s.atom, 3, Distance(s.m.env, s.backward, x), 0, |ys|
  {
    hide Yields;
    hide BodyCode;
    hide Again;
    hide AgainEach;
    hide AtLoop;
    var after := at + |BodyCode(s, at + 1, depth)| + 2;
    var footing := Footing(memory, s.first, High(s), depth);
    AgainEachUnfolds(s, None, x, ys);
    if ys == [] {
      YieldsNothing(s.m, c, at, controls, footing, after, base);
    } else {
      var memory', upper := FirstResult(s.m, c, at, ys, controls, footing);
      LoopEach(s, at, depth, x, memory, controls, base, Failing(upper), ys[1..]);
      LoopAgain(x, ys[0], memory, memory', base, depth);
      LoopCorrect(s, at, depth, ys[0], memory', upper, base);
      YieldsAfter(s.m, c, Running(at, ys[0].position, memory', upper), after, Again(s, None, ys[0]), upper, base);
      YieldsAppend(s.m, c, after, Again(s, None, ys[0]), AgainEach(s, None, x, ys[1..]), upper, controls, base);
    }
  }

  // ---- Counting ----

  /** A loop instruction at `at` counting down in register `depth` from at most `count`. */
  predicate Counting(s: Site, at: nat, head: nat, depth: nat, count: nat) {
    && 0 < head <= at < |s.m.program|
    && s.m.program[at] == Loop(depth, head)
    && s.m.program[head - 1] == SetRegister(depth, count)
  }

  predicate Counts(memory: Memory, depth: nat, n: nat, count: nat) {
    depth < |memory.registers| && memory.registers[depth] == Counter(n) && 1 <= n <= count
  }

  lemma LoopStep(s: Site, at: nat, head: nat, depth: nat, count: nat, position: nat, memory: Memory,
                 controls: seq<Frame>, n: nat)
    requires Counting(s, at, head, depth, count) && Counts(memory, depth, n, count)
    ensures Reaches(s.m, Running(at, position, memory, controls),
                    Running(if n == 1 then at + 1 else head, position, SetRegisterTo(memory, depth, Counter(n - 1)), controls))
  {
    hide Reaches;
    var c := Running(at, position, memory, controls);
    assert Disciplined(s.m, c);
    ReachesOne(s.m, c);
  }

  /** The memory at the next head of a counted loop. */
  lemma CountedAgain(s: Site, x: Cursor, y: Cursor, memory: Memory, memory': Memory, base: Footing, depth: nat, n: nat,
                     count: nat)
    requires AtHead(s, x, memory, base, depth) && Counts(memory, depth, n, count)
    requires Moves(s.m.env, s.backward, x, y) && Agrees(x, y, s.first, High(s))
    requires Fits(Footing(memory, s.first, High(s), depth + 1), y, memory')
    ensures Counts(memory', depth, n, count)
    ensures AtHead(s, y, SetRegisterTo(memory', depth, Counter(n - 1)), base, depth)
    ensures |memory'.registers| == |memory.registers|
  {
    LoopAgain(x, y, memory, memory', base, depth + 1);
    LoopScratch(y, memory', base, depth, Counter(n - 1));
  }

  // ---- Counted optional repetition ----

  ghost predicate CountedPlaced(s: Site, head: nat, depth: nat, count: nat) {
    var body := |BodyCode(s, head + 1, depth + 1)|;
    && head < |s.m.program| && s.m.program[head] == PreferredSplit(head + 1, head + body + 2, s.greedy)
    && Placed(s.m.program, head + 1, BodyCode(s, head + 1, depth + 1))
    && Counting(s, head + 1 + body, head, depth, count)
  }

  lemma {:induction false} CountedCorrect(s: Site, head: nat, depth: nat, x: Cursor, memory: Memory,
                                          controls: seq<Frame>, base: Footing, n: nat, count: nat)
    requires GoodSite(s) && CountedPlaced(s, head, depth, count) && AtHead(s, x, memory, base, depth)
    requires Counts(memory, depth, n, count)
    requires depth + 1 + Flag(CanMatchEmpty(s.atom)) + AtomRegisters(s.atom) <= |memory.registers|
    ensures Yields(s.m, Running(head, x.position, memory, controls), head + |BodyCode(s, head + 1, depth + 1)| + 2,
                   Again(s, Some(n), x), controls, base)
    decreases s.atom, 3, n, 2, 0
  {
    hide Yields;
    hide Once;
    hide Again;
    hide AgainEach;
    hide BodyCode;
    AgainUnfolds(s, Some(n), x);
    var after := head + |BodyCode(s, head + 1, depth + 1)| + 2;
    var again := AgainEach(s, Some(n - 1), x, Moved(x.position, Once(s, x)));
    var upper := if s.greedy then controls + [Frame(Resume(after), x.position, memory)] else controls;
    CountedRound(s, head, depth, x, memory, upper, base, n, count);
    DecisionCorrect(s, head, head + 1, after, x, memory, controls, base, again);
  }

  lemma {:induction false} CountedRound(s: Site, head: nat, depth: nat, x: Cursor, memory: Memory,
                                        controls: seq<Frame>, base: Footing, n: nat, count: nat)
    requires GoodSite(s) && CountedPlaced(s, head, depth, count) && AtHead(s, x, memory, base, depth)
    requires Counts(memory, depth, n, count)
    requires depth + 1 + Flag(CanMatchEmpty(s.atom)) + AtomRegisters(s.atom) <= |memory.registers|
    ensures AllMove(s.m.env, s.backward, x, Moved(x.position, Once(s, x)))
    ensures Yields(s.m, Running(head + 1, x.position, memory, controls), head + |BodyCode(s, head + 1, depth + 1)| + 2,
                   AgainEach(s, Some(n - 1), x, Moved(x.position, Once(s, x))), controls, base)
    decreases s.atom, 3, n, 1, 0
  {
    hide Yields;
    hide Once;
    hide AgainEach;
    hide BodyCode;
    hide AtLoop;
    var start := Running(head + 1, x.position, memory, controls);
    var ys := Moved(x.position, Once(s, x));
    BodyCorrect(s, head + 1, depth + 1, x, memory, controls, base);
    MovedRounds(s, x);
    CountedEach(s, head, depth, x, memory, controls, base, n, count, start, ys);
  }

  lemma {:induction false} CountedEach(s: Site, head: nat, depth: nat, x: Cursor, memory: Memory,
                                       controls: seq<Frame>, base: Footing, n: nat, count: nat, c: Config,
                                       ys: seq<Cursor>)
    requires GoodSite(s) && CountedPlaced(s, head, depth, count) && AtHead(s, x, memory, base, depth)
    requires Counts(memory, depth, n, count)
    requires depth + 1 + Flag(CanMatchEmpty(s.atom)) + AtomRegisters(s.atom) <= |memory.registers|
    requires Rounds(s, x, ys)
    requires Yields(s.m, c, head + 1 + |BodyCode(s, head + 1, depth + 1)|, ys, controls,
                    Footing(memory, s.first, High(s), depth + 1))
    ensures Yields(s.m, c, head + |BodyCode(s, head + 1, depth + 1)| + 2, AgainEach(s, Some(n - 1), x, ys),
                   controls, base)
    decreases s.atom, 3, n, 0, |ys|
  {
    hide Yields;
    hide BodyCode;
    hide Again;
    hide AgainEach;
    hide AtLoop;
    var end := head + 1 + |BodyCode(s, head + 1, depth + 1)|;
    var footing := Footing(memory, s.first, High(s), depth + 1);
    AgainEachUnfolds(s, Some(n - 1), x, ys);
    if ys == [] {
      YieldsNothing(s.m, c, end, controls, footing, end + 1, base);
    } else {
      var y := ys[0];
      var memory', upper := FirstResult(s.m, c, end, ys, controls, footing);
      CountedEach(s, head, depth, x, memory, controls, base, n, count, Failing(upper), ys[1..]);
      CountedAgain(s, x, y, memory, memory', base, depth, n, count);
      CountedNext(s, head, depth, y, memory', upper, base, n, count);
      YieldsAfter(s.m, c, Running(end, y.position, memory', upper), end + 1, Again(s, Some(n - 1), y), upper, base);
      YieldsAppend(s.m, c, end + 1, Again(s, Some(n - 1), y), AgainEach(s, Some(n - 1), x, ys[1..]), upper, controls, base);
    }
  }

  lemma {:induction false} CountedNext(s: Site, head: nat, depth: nat, y: Cursor, memory: Memory, controls: seq<Frame>,
                                       base: Footing, n: nat, count: nat)
    requires GoodSite(s) && CountedPlaced(s, head, depth, count) && Counts(memory, depth, n, count)
    requires AtHead(s, y, SetRegisterTo(memory, depth, Counter(n - 1)), base, depth)
    requires depth + 1 + Flag(CanMatchEmpty(s.atom)) + AtomRegisters(s.atom) <= |memory.registers|
    ensures Yields(s.m, Running(head + 1 + |BodyCode(s, head + 1, depth + 1)|, y.position, memory, controls),
                   head + |BodyCode(s, head + 1, depth + 1)| + 2, Again(s, Some(n - 1), y), controls, base)
    decreases s.atom, 3, n - 1, 3, 0
  {
    hide Yields;
    hide BodyCode;
    hide Again;
    hide Fits;
    var end := head + 1 + |BodyCode(s, head + 1, depth + 1)|;
    var here, memory' := Running(end, y.position, memory, controls), SetRegisterTo(memory, depth, Counter(n - 1));
    LoopStep(s, end, head, depth, count, y.position, memory, controls, n);
    if n == 1 {
      AgainZero(s, y);
      YieldsOne(s.m, here, end + 1, y, controls, base, memory');
    } else {
      CountedCorrect(s, head, depth, y, memory', controls, base, n - 1, count);
      YieldsAfter(s.m, here, Running(head, y.position, memory', controls), end + 1, Again(s, Some(n - 1), y), controls, base);
    }
  }

  // ---- Required repetition ----

  function Exactly(s: Site, n: nat, x: Cursor): (r: seq<Cursor>)
    requires Valid(s.m.env, x)
    ensures AllMove(s.m.env, s.backward, x, r)
  {
    Repeat(s.m.env, s.mods, s.atom, n, Some(n), s.greedy, s.backward, x)
  }

  function ExactlyEach(s: Site, n: nat, x: Cursor, ys: seq<Cursor>): (r: seq<Cursor>)
    requires Valid(s.m.env, x) && AllMove(s.m.env, s.backward, x, ys)
  {
    RepeatEach(s.m.env, s.mods, s.atom, n, Some(n), s.greedy, s.backward, x, ys)
  }

  lemma ExactlyUnfolds(s: Site, n: nat, x: Cursor)
    requires GoodSite(s) && Valid(s.m.env, x) && n > 0
    ensures Exactly(s, n, x) == ExactlyEach(s, n - 1, x, Once(s, x))
  {
    hide MatchAtom;
    hide RepeatEach;
    hide RepeatAll;
    RepeatAllRequired(s.m.env, s.mods, s.atom, n, Some(n), s.greedy, s.backward, x, Once(s, x));
  }

  lemma ExactlyEachUnfolds(s: Site, n: nat, x: Cursor, ys: seq<Cursor>)
    requires Valid(s.m.env, x) && AllMove(s.m.env, s.backward, x, ys)
    ensures ys == [] ==> ExactlyEach(s, n, x, ys) == []
    ensures ys != [] ==> ExactlyEach(s, n, x, ys) == Exactly(s, n, ys[0]) + ExactlyEach(s, n, x, ys[1..])
  {
    hide Repeat;
  }

  lemma ExactlyZero(s: Site, x: Cursor)
    requires Valid(s.m.env, x)
    ensures Exactly(s, 0, x) == [x]
  {
  }

  ghost predicate RequiredPlaced(s: Site, head: nat, depth: nat, count: nat) {
    && Placed(s.m.program, head, IterationCode(s, head, depth + 1))
    && Counting(s, head + |IterationCode(s, head, depth + 1)|, head, depth, count)
  }

  lemma {:induction false} ExactlyCorrect(s: Site, head: nat, depth: nat, x: Cursor, memory: Memory,
                                          controls: seq<Frame>, base: Footing, n: nat, count: nat)
    requires GoodSite(s) && RequiredPlaced(s, head, depth, count) && AtHead(s, x, memory, base, depth)
    requires Counts(memory, depth, n, count)
    requires depth + 1 + AtomRegisters(s.atom) <= |memory.registers|
    ensures Yields(s.m, Running(head, x.position, memory, controls), head + |IterationCode(s, head, depth + 1)| + 1,
                   Exactly(s, n, x), controls, base)
    decreases s.atom, 3, n, 1, 0
  {
    hide Yields;
    hide Once;
    hide Exactly;
    hide ExactlyEach;
    hide IterationCode;
    hide AtLoop;
    ExactlyUnfolds(s, n, x);
    IterationCorrect(s, head, depth + 1, x, memory, controls, base);
    MovedRounds(s, x);
    ExactlyEachCorrect(s, head, depth, x, memory, controls, base, n, count, Running(head, x.position, memory, controls),
                       Once(s, x));
  }

  lemma {:induction false} ExactlyEachCorrect(s: Site, head: nat, depth: nat, x: Cursor, memory: Memory,
                                              controls: seq<Frame>, base: Footing, n: nat, count: nat, c: Config,
                                              ys: seq<Cursor>)
    requires GoodSite(s) && RequiredPlaced(s, head, depth, count) && AtHead(s, x, memory, base, depth)
    requires Counts(memory, depth, n, count)
    requires depth + 1 + AtomRegisters(s.atom) <= |memory.registers|
    requires Rounds(s, x, ys)
    requires Yields(s.m, c, head + |IterationCode(s, head, depth + 1)|, ys, controls,
                    Footing(memory, s.first, High(s), depth + 1))
    ensures Yields(s.m, c, head + |IterationCode(s, head, depth + 1)| + 1, ExactlyEach(s, n - 1, x, ys), controls, base)
    decreases s.atom, 3, n, 0, |ys|
  {
    hide Yields;
    hide IterationCode;
    hide Exactly;
    hide ExactlyEach;
    hide AtLoop;
    var end := head + |IterationCode(s, head, depth + 1)|;
    var footing := Footing(memory, s.first, High(s), depth + 1);
    ExactlyEachUnfolds(s, n - 1, x, ys);
    if ys == [] {
      YieldsNothing(s.m, c, end, controls, footing, end + 1, base);
    } else {
      var y := ys[0];
      var memory', upper := FirstResult(s.m, c, end, ys, controls, footing);
      ExactlyEachCorrect(s, head, depth, x, memory, controls, base, n, count, Failing(upper), ys[1..]);
      CountedAgain(s, x, y, memory, memory', base, depth, n, count);
      ExactlyNext(s, head, depth, y, memory', upper, base, n, count);
      YieldsAfter(s.m, c, Running(end, y.position, memory', upper), end + 1, Exactly(s, n - 1, y), upper, base);
      YieldsAppend(s.m, c, end + 1, Exactly(s, n - 1, y), ExactlyEach(s, n - 1, x, ys[1..]), upper, controls, base);
    }
  }

  lemma {:induction false} ExactlyNext(s: Site, head: nat, depth: nat, y: Cursor, memory: Memory, controls: seq<Frame>,
                                       base: Footing, n: nat, count: nat)
    requires GoodSite(s) && RequiredPlaced(s, head, depth, count) && Counts(memory, depth, n, count)
    requires AtHead(s, y, SetRegisterTo(memory, depth, Counter(n - 1)), base, depth)
    requires depth + 1 + AtomRegisters(s.atom) <= |memory.registers|
    ensures Yields(s.m, Running(head + |IterationCode(s, head, depth + 1)|, y.position, memory, controls),
                   head + |IterationCode(s, head, depth + 1)| + 1, Exactly(s, n - 1, y), controls, base)
    decreases s.atom, 3, n - 1, 3, 0
  {
    hide Yields;
    hide IterationCode;
    hide Exactly;
    hide Fits;
    var end := head + |IterationCode(s, head, depth + 1)|;
    var here, memory' := Running(end, y.position, memory, controls), SetRegisterTo(memory, depth, Counter(n - 1));
    LoopStep(s, end, head, depth, count, y.position, memory, controls, n);
    if n == 1 {
      ExactlyZero(s, y);
      YieldsOne(s.m, here, end + 1, y, controls, base, memory');
    } else {
      ExactlyCorrect(s, head, depth, y, memory', controls, base, n - 1, count);
      YieldsAfter(s.m, here, Running(head, y.position, memory', controls), end + 1, Exactly(s, n - 1, y), controls, base);
    }
  }

  // ---- The optional part of a quantifier ----

  function OptionalCode(s: Site, count: Option<nat>, at: nat, depth: nat): seq<Instruction> {
    CodeOptional(s.m.env.canonicalize, s.mods, s.atom, count, s.greedy, s.backward, at, depth)
  }

  lemma UnboundedPlaced(s: Site, at: nat, depth: nat)
    requires Placed(s.m.program, at, OptionalCode(s, None, at, depth))
    ensures LoopPlaced(s, at, depth)
    ensures |OptionalCode(s, None, at, depth)| == |BodyCode(s, at + 1, depth)| + 2
  {
    hide CodeBody;
    hide Placed;
    var body := BodyCode(s, at + 1, depth);
    var split := PreferredSplit(at + 1, at + |body| + 2, s.greedy);
    assert OptionalCode(s, None, at, depth) == [split] + body + [Jump(at)];
    PlacedSplit3(s.m.program, at, [split], body, [Jump(at)]);
    PlacedOne(s.m.program, at, split);
    PlacedOne(s.m.program, at + 1 + |body|, Jump(at));
  }

  lemma OncePlaced(s: Site, at: nat, depth: nat)
    requires Placed(s.m.program, at, OptionalCode(s, Some(1), at, depth))
    ensures var body := BodyCode(s, at + 1, depth);
            && |OptionalCode(s, Some(1), at, depth)| == |body| + 1
            && at < |s.m.program| && s.m.program[at] == PreferredSplit(at + 1, at + |body| + 1, s.greedy)
            && Placed(s.m.program, at + 1, body)
  {
    hide CodeBody;
    hide Placed;
    var body := BodyCode(s, at + 1, depth);
    var split := PreferredSplit(at + 1, at + |body| + 1, s.greedy);
    assert OptionalCode(s, Some(1), at, depth) == [split] + body + [];
    PlacedSplit3(s.m.program, at, [split], body, []);
    PlacedOne(s.m.program, at, split);
  }

  lemma CountedOptionalPlaced(s: Site, count: nat, at: nat, depth: nat)
    requires count > 1 && Placed(s.m.program, at, OptionalCode(s, Some(count), at, depth))
    ensures at < |s.m.program| && s.m.program[at] == SetRegister(depth, count)
    ensures CountedPlaced(s, at + 1, depth, count)
    ensures |OptionalCode(s, Some(count), at, depth)| == |BodyCode(s, at + 2, depth + 1)| + 3
  {
    hide CodeBody;
    hide Placed;
    var body := BodyCode(s, at + 2, depth + 1);
    var set_, split := SetRegister(depth, count), PreferredSplit(at + 2, at + |body| + 3, s.greedy);
    assert OptionalCode(s, Some(count), at, depth) == [set_, split] + body + [Loop(depth, at + 1)];
    PlacedSplit3(s.m.program, at, [set_, split], body, [Loop(depth, at + 1)]);
    assert [set_, split] == [set_] + [split];
    PlacedSplit(s.m.program, at, [set_], [split]);
    PlacedOne(s.m.program, at, set_);
    PlacedOne(s.m.program, at + 1, split);
    PlacedOne(s.m.program, at + 2 + |body|, Loop(depth, at + 1));
  }

  /** A single optional iteration. */
  lemma {:induction false} OnceCorrect(s: Site, at: nat, depth: nat, x: Cursor, memory: Memory, controls: seq<Frame>,
                                       base: Footing)
    requires GoodSite(s) && AtHead(s, x, memory, base, depth)
    requires Placed(s.m.program, at, OptionalCode(s, Some(1), at, depth))
    requires depth + Flag(CanMatchEmpty(s.atom)) + AtomRegisters(s.atom) <= |memory.registers|
    ensures Yields(s.m, Running(at, x.position, memory, controls), at + |OptionalCode(s, Some(1), at, depth)|,
                   Again(s, Some(1), x), controls, base)
    decreases s.atom, 3, 0, 0, 0
  {
    hide RepeatEach;
    hide GroupCount;
    hide Fits;
    hide Moved;
    hide Rounds;
    hide Valid;
    hide Placed;
    hide GoodSite;
    hide AtomRegisters;
    hide CanMatchEmpty;
    hide Repeat;
    hide Yields;
    hide Once;
    hide BodyCode;
    hide OptionalCode;
    OncePlaced(s, at, depth);
    AgainUnfolds(s, Some(1), x);
    var ys := Moved(x.position, Once(s, x));
    RepeatEachZero(s.m.env, s.mods, s.atom, 0, s.greedy, s.backward, x, ys);
    var after := at + |BodyCode(s, at + 1, depth)| + 1;
    var upper := if s.greedy then controls + [Frame(Resume(after), x.position, memory)] else controls;
    BodyCorrect(s, at + 1, depth, x, memory, upper, base);
    MovedRounds(s, x);
    Settle(s, Running(at + 1, x.position, memory, upper), after, ys, upper, x, memory, base, depth);
    DecisionCorrect(s, at, at + 1, after, x, memory, controls, base, ys);
  }

  /** Results of the last iteration stand for the whole loop. */
  lemma Settle(s: Site, c: Config, exit: nat, ys: seq<Cursor>, controls: seq<Frame>, x: Cursor, memory: Memory,
               base: Footing, depth: nat)
    requires AtHead(s, x, memory, base, depth) && Rounds(s, x, ys)
    requires Yields(s.m, c, exit, ys, controls, Footing(memory, s.first, High(s), depth))
    ensures Yields(s.m, c, exit, ys, controls, base)
  {
    hide Yields;
    var from := Footing(memory, s.first, High(s), depth);
    forall i, memory' | 0 <= i < |ys| && Fits(from, ys[i], memory')
      ensures Fits(base, ys[i], memory')
    {
      LoopAgain(x, ys[i], memory, memory', base, depth);
    }
    YieldsRebase(s.m, c, exit, ys, controls, from, base);
  }

  lemma NothingCorrect(s: Site, at: nat, depth: nat, x: Cursor, memory: Memory, controls: seq<Frame>, base: Footing)
    requires AtHead(s, x, memory, base, depth)
    ensures Yields(s.m, Running(at, x.position, memory, controls), at + |OptionalCode(s, Some(0), at, depth)|,
                   Again(s, Some(0), x), controls, base)
  {
    hide Yields;
    hide Again;
    hide BodyCode;
    var start := Running(at, x.position, memory, controls);
    AgainZero(s, x);
    ReachesItself(s.m, start);
    YieldsOne(s.m, start, at, x, controls, base, memory);
  }

  lemma {:induction false} OptionalCorrect(s: Site, count: Option<nat>, at: nat, depth: nat, x: Cursor, memory: Memory,
                                           controls: seq<Frame>, base: Footing)
    requires GoodSite(s) && AtHead(s, x, memory, base, depth)
    requires Placed(s.m.program, at, OptionalCode(s, count, at, depth))
    requires depth + OptionalRegisters(s.atom, count) <= |memory.registers|
    ensures Yields(s.m, Running(at, x.position, memory, controls), at + |OptionalCode(s, count, at, depth)|,
                   Again(s, count, x), controls, base)
    decreases s.atom, 4, 0, 0, 0
  {
    hide Yields;
    hide Again;
    hide BodyCode;
    hide OptionalCode;
    hide AtHead;
    hide GoodSite;
    hide Placed;
    hide LoopPlaced;
    hide AtomRegisters;
    hide CanMatchEmpty;
    if count == Some(0) {
      NothingCorrect(s, at, depth, x, memory, controls, base);
    } else if count.None? {
      UnboundedPlaced(s, at, depth);
      LoopCorrect(s, at, depth, x, memory, controls, base);
    } else if count.value == 1 {
      OnceCorrect(s, at, depth, x, memory, controls, base);
    } else {
      CountedOptional(s, count.value, at, depth, x, memory, controls, base);
    }
  }

  lemma {:induction false} CountedOptional(s: Site, count: nat, at: nat, depth: nat, x: Cursor, memory: Memory,
                                           controls: seq<Frame>, base: Footing)
    requires GoodSite(s) && AtHead(s, x, memory, base, depth) && count > 1
    requires Placed(s.m.program, at, OptionalCode(s, Some(count), at, depth))
    requires depth + OptionalRegisters(s.atom, Some(count)) <= |memory.registers|
    ensures Yields(s.m, Running(at, x.position, memory, controls), at + |OptionalCode(s, Some(count), at, depth)|,
                   Again(s, Some(count), x), controls, base)
    decreases s.atom, 3, count, 3, 0
  {
    hide Yields;
    hide Again;
    hide BodyCode;
    hide OptionalCode;
    CountedOptionalPlaced(s, count, at, depth);
    var start := Running(at, x.position, memory, controls);
    LoopScratch(x, memory, base, depth, Counter(count));
    var memory' := SetRegisterTo(memory, depth, Counter(count));
    assert Step(s.m, start) == Running(at + 1, x.position, memory', controls);
    CountedCorrect(s, at + 1, depth, x, memory', controls, base, count, count);
    YieldsAfterStep(s.m, start, at + |OptionalCode(s, Some(count), at, depth)|, Again(s, Some(count), x), controls, base);
  }

  // ---- The required part of a quantifier ----

  function RequiredCode(s: Site, count: nat, at: nat, depth: nat): seq<Instruction> {
    CodeRequired(s.m.env.canonicalize, s.mods, s.atom, count, s.backward, at, depth)
  }

  lemma CountedRequiredPlaced(s: Site, count: nat, at: nat, depth: nat)
    requires count > 1 && Placed(s.m.program, at, RequiredCode(s, count, at, depth))
    ensures at < |s.m.program| && s.m.program[at] == SetRegister(depth, count)
    ensures RequiredPlaced(s, at + 1, depth, count)
    ensures |RequiredCode(s, count, at, depth)| == |IterationCode(s, at + 1, depth + 1)| + 2
  {
    hide CodeIteration;
    hide Placed;
    var code := IterationCode(s, at + 1, depth + 1);
    assert RequiredCode(s, count, at, depth) == [SetRegister(depth, count)] + code + [Loop(depth, at + 1)];
    PlacedSplit3(s.m.program, at, [SetRegister(depth, count)], code, [Loop(depth, at + 1)]);
    PlacedOne(s.m.program, at, SetRegister(depth, count));
    PlacedOne(s.m.program, at + 1 + |code|, Loop(depth, at + 1));
  }

  lemma {:induction false} CountedRequired(s: Site, count: nat, at: nat, depth: nat, x: Cursor, memory: Memory,
                                           controls: seq<Frame>, base: Footing)
    requires GoodSite(s) && AtHead(s, x, memory, base, depth) && count > 1
    requires Placed(s.m.program, at, RequiredCode(s, count, at, depth))
    requires depth + RequiredRegisters(s.atom, count) <= |memory.registers|
    ensures Yields(s.m, Running(at, x.position, memory, controls), at + |RequiredCode(s, count, at, depth)|,
                   Exactly(s, count, x), controls, base)
    decreases s.atom, 3, count, 3, 0
  {
    hide Yields;
    hide Exactly;
    hide IterationCode;
    hide RequiredCode;
    CountedRequiredPlaced(s, count, at, depth);
    var start := Running(at, x.position, memory, controls);
    LoopScratch(x, memory, base, depth, Counter(count));
    var memory' := SetRegisterTo(memory, depth, Counter(count));
    assert Step(s.m, start) == Running(at + 1, x.position, memory', controls);
    ExactlyCorrect(s, at + 1, depth, x, memory', controls, base, count, count);
    YieldsAfterStep(s.m, start, at + |RequiredCode(s, count, at, depth)|, Exactly(s, count, x), controls, base);
  }

  /** The code of zero repetitions resets captures that are clear already. */
  lemma ResetNothing(s: Site, at: nat, x: Cursor, memory: Memory, controls: seq<Frame>, depth: nat, strict: bool)
    requires WellFormed(s.atom, s.first, s.total, strict) && Ready(x, memory, s.first, High(s)) && s.total <= |x.captures|
    requires Placed(s.m.program, at, CodeReset(CaptureRange(s.atom)))
    ensures Yields(s.m, Running(at, x.position, memory, controls), at + |CodeReset(CaptureRange(s.atom))|, [x], controls,
                   Footing(memory, s.first, High(s), depth))
  {
    hide Yields;
    hide Reaches;
    AtomNumbered(s.atom, s.first, s.total, strict);
    var start, end := Running(at, x.position, memory, controls), at + |CodeReset(CaptureRange(s.atom))|;
    ReadyFits(x, memory, s.first, High(s), depth, x.position);
    if GroupCount(s.atom) == 0 {
      ReachesItself(s.m, start);
    } else {
      PlacedOne(s.m.program, at, ResetCaptures(s.first, High(s) - 1));
      ClearNothing(x, memory, s.first, High(s));
      ReachesOne(s.m, start);
    }
    YieldsOne(s.m, start, end, x, controls, Footing(memory, s.first, High(s), depth), memory);
  }

  lemma {:induction false} RequiredCorrect(s: Site, count: nat, at: nat, depth: nat, x: Cursor, memory: Memory,
                                           controls: seq<Frame>)
    requires GoodSite(s) && Valid(s.m.env, x) && s.total <= |x.captures| && Ready(x, memory, s.first, High(s))
    requires Placed(s.m.program, at, RequiredCode(s, count, at, depth))
    requires depth + RequiredRegisters(s.atom, count) <= |memory.registers|
    ensures Yields(s.m, Running(at, x.position, memory, controls), at + |RequiredCode(s, count, at, depth)|,
                   Exactly(s, count, x), controls, Footing(memory, s.first, High(s), depth))
    decreases s.atom, 4, 0, 0, 0
  {
    hide WellFormed;
    hide NoBackwardStrings;
    hide Valid;
    hide AtomRegisters;
    hide CanMatchEmpty;
    hide RepeatEach;
    hide Once;
    hide GroupCount;
    hide Yields;
    hide Exactly;
    hide Placed;
    var base := Footing(memory, s.first, High(s), depth);
    ReadyAtLoop(x, memory, s.first, High(s), depth);
    if count == 0 {
      ExactlyZero(s, x);
      ResetNothing(s, at, x, memory, controls, depth, true);
    } else if count == 1 {
      assert RequiredCode(s, 1, at, depth) == IterationCode(s, at, depth);
      IterationCorrect(s, at, depth, x, memory, controls, base);
      ExactlyUnfolds(s, 1, x);
      RepeatEachZero(s.m.env, s.mods, s.atom, 0, s.greedy, s.backward, x, Once(s, x));
    } else {
      CountedRequired(s, count, at, depth, x, memory, controls, base);
    }
  }

  // ---- Quantifiers ----

  /** The optional part runs after each result of the required part. */
  lemma {:induction false} OptionalEach(s: Site, count: Option<nat>, at: nat, depth: nat, x: Cursor, memory: Memory,
                                        controls: seq<Frame>, base: Footing, c: Config, ys: seq<Cursor>)
    requires GoodSite(s) && AtHead(s, x, memory, base, depth)
    requires Placed(s.m.program, at, OptionalCode(s, count, at, depth))
    requires depth + OptionalRegisters(s.atom, count) <= |memory.registers|
    requires Rounds(s, x, ys)
    requires Yields(s.m, c, at, ys, controls, Footing(memory, s.first, High(s), depth))
    ensures Yields(s.m, c, at + |OptionalCode(s, count, at, depth)|, AgainEach(s, count, x, ys), controls, base)
    decreases s.atom, 5, |ys|, 0, 0
  {
    hide Yields;
    hide OptionalCode;
    hide Again;
    hide AgainEach;
    hide AtLoop;
    hide Placed;
    var after := at + |OptionalCode(s, count, at, depth)|;
    var footing := Footing(memory, s.first, High(s), depth);
    AgainEachUnfolds(s, count, x, ys);
    if ys == [] {
      YieldsNothing(s.m, c, at, controls, footing, after, base);
    } else {
      var memory', upper := FirstResult(s.m, c, at, ys, controls, footing);
      OptionalEach(s, count, at, depth, x, memory, controls, base, Failing(upper), ys[1..]);
      LoopAgain(x, ys[0], memory, memory', base, depth);
      OptionalCorrect(s, count, at, depth, ys[0], memory', upper, base);
      YieldsAfter(s.m, c, Running(at, ys[0].position, memory', upper), after, Again(s, count, ys[0]), upper, base);
      YieldsAppend(s.m, c, after, Again(s, count, ys[0]), AgainEach(s, count, x, ys[1..]), upper, controls, base);
    }
  }

  lemma QuantifiedSplits(s: Site, q: Quantifier, x: Cursor)
    requires GoodSite(s) && Valid(s.m.env, x) && ValidQuantifier(q) && q.greedy == s.greedy
    ensures Rounds(s, x, Exactly(s, q.minimum, x))
    ensures Repeat(s.m.env, s.mods, s.atom, q.minimum, q.maximum, q.greedy, s.backward, x)
         == AgainEach(s, Remaining(q), x, Exactly(s, q.minimum, x))
  {
    hide Repeat;
    hide RepeatEach;
    RepeatSplits(s.m.env, s.mods, s.atom, q.minimum, Remaining(q), q.greedy, s.backward, x);
    assert Plus(Remaining(q), q.minimum) == q.maximum;
    RepeatKeeps(s.m.env, s.mods, s.atom, q.minimum, Some(q.minimum), s.greedy, s.backward, x);
    AtomNumbered(s.atom, s.first, s.total, true);
    KeepsAgrees(x, Exactly(s, q.minimum, x), Groups(s.atom), s.first, High(s));
  }

  lemma {:induction false} RepetitionCorrect(s: Site, q: Quantifier, at: nat, depth: nat, x: Cursor, memory: Memory,
                                             controls: seq<Frame>)
    requires GoodSite(s) && ValidQuantifier(q) && q.greedy == s.greedy && q.maximum != Some(0)
    requires Valid(s.m.env, x) && s.total <= |x.captures| && Ready(x, memory, s.first, High(s))
    requires var required := RequiredCode(s, q.minimum, at, depth);
             Placed(s.m.program, at, required + OptionalCode(s, Remaining(q), at + |required|, depth))
    requires depth + RequiredRegisters(s.atom, q.minimum) <= |memory.registers|
    requires depth + OptionalRegisters(s.atom, Remaining(q)) <= |memory.registers|
    ensures var required := RequiredCode(s, q.minimum, at, depth);
            Yields(s.m, Running(at, x.position, memory, controls),
                   at + |required + OptionalCode(s, Remaining(q), at + |required|, depth)|,
                   Repeat(s.m.env, s.mods, s.atom, q.minimum, q.maximum, q.greedy, s.backward, x), controls,
                   Footing(memory, s.first, High(s), depth))
    decreases s.atom, 6, 0, 0, 0
  {
    hide Yields;
    hide OptionalCode;
    hide RequiredCode;
    hide Repeat;
    var required := RequiredCode(s, q.minimum, at, depth);
    PlacedSplit(s.m.program, at, required, OptionalCode(s, Remaining(q), at + |required|, depth));
    ReadyAtLoop(x, memory, s.first, High(s), depth);
    RequiredCorrect(s, q.minimum, at, depth, x, memory, controls);
    QuantifiedSplits(s, q, x);
    OptionalEach(s, Remaining(q), at + |required|, depth, x, memory, controls, Footing(memory, s.first, High(s), depth),
                 Running(at, x.position, memory, controls), Exactly(s, q.minimum, x));
  }

  lemma ResetCode(s: Site, q: Quantifier, at: nat, depth: nat)
    requires q.maximum == Some(0)
    ensures CodeTerm(s.m.env.canonicalize, s.mods, Term(s.atom, Some(q)), s.backward, at, depth)
         == CodeReset(CaptureRange(s.atom))
  {
    assert CodeTerm(s.m.env.canonicalize, s.mods, Term(s.atom, Some(q)), s.backward, at, depth)
        == CodeQuantified(s.m.env.canonicalize, s.mods, s.atom, q, s.backward, at, depth);
  }

  lemma QuantifiedCode(s: Site, q: Quantifier, at: nat, depth: nat)
    requires q.maximum != Some(0) && q.greedy == s.greedy
    ensures CodeTerm(s.m.env.canonicalize, s.mods, Term(s.atom, Some(q)), s.backward, at, depth)
         == RequiredCode(s, q.minimum, at, depth)
            + OptionalCode(s, Remaining(q), at + |RequiredCode(s, q.minimum, at, depth)|, depth)
  {
    hide CodeRequired;
    hide CodeOptional;
    assert CodeTerm(s.m.env.canonicalize, s.mods, Term(s.atom, Some(q)), s.backward, at, depth)
        == CodeQuantified(s.m.env.canonicalize, s.mods, s.atom, q, s.backward, at, depth);
  }

  lemma {:induction false} QuantifiedCorrect(m: Engine, mods: Modifiers, atom: Atom, q: Quantifier, backward: bool,
                                             at: nat, depth: nat, first: nat, total: nat, x: Cursor, memory: Memory,
                                             controls: seq<Frame>)
    requires EntersTerm(m, mods, Term(atom, Some(q)), backward, at, depth, first, total, x, memory)
    ensures Yields(m, Running(at, x.position, memory, controls),
                   at + |CodeTerm(m.env.canonicalize, mods, Term(atom, Some(q)), backward, at, depth)|,
                   Repeat(m.env, mods, atom, q.minimum, q.maximum, q.greedy, backward, x), controls,
                   Footing(memory, first, first + GroupCount(atom), depth))
    decreases atom, 7, 0, 0, 0
  {
    hide WellFormed;
    hide NoBackwardStrings;
    hide AtomRegisters;
    hide GroupCount;
    hide Step;
    hide Yields;
    hide Ready;
    hide Placed;
    hide Repeat;
    hide CodeTerm;
    hide RequiredCode;
    hide OptionalCode;
    var s := Site(m, mods, atom, backward, q.greedy, first, total);
    if q.maximum == Some(0) {
      NeverCorrect(s, q, at, depth, x, memory, controls);
    } else {
      QuantifiedCode(s, q, at, depth);
      RepetitionCorrect(s, q, at, depth, x, memory, controls);
    }
  }

  /** An atom repeated at most zero times only forgets its groups. */
  lemma NeverCorrect(s: Site, q: Quantifier, at: nat, depth: nat, x: Cursor, memory: Memory, controls: seq<Frame>)
    requires q.maximum == Some(0)
    requires EntersTerm(s.m, s.mods, Term(s.atom, Some(q)), s.backward, at, depth, s.first, s.total, x, memory)
    ensures Yields(s.m, Running(at, x.position, memory, controls),
                   at + |CodeTerm(s.m.env.canonicalize, s.mods, Term(s.atom, Some(q)), s.backward, at, depth)|,
                   Repeat(s.m.env, s.mods, s.atom, q.minimum, q.maximum, s.greedy, s.backward, x), controls,
                   Footing(memory, s.first, s.first + GroupCount(s.atom), depth))
  {
    hide Yields;
    hide Ready;
    hide Placed;
    hide Repeat;
    hide CodeTerm;
    hide WellFormed;
    hide NoBackwardStrings;
    hide AtomRegisters;
    hide GroupCount;
    hide Step;
    ResetCode(s, q, at, depth);
    RepeatNothing(s, q.minimum, x);
    ResetNothing(s, at, x, memory, controls, depth, false);
  }

  lemma RepeatNothing(s: Site, minimum: nat, x: Cursor)
    requires Valid(s.m.env, x)
    ensures Repeat(s.m.env, s.mods, s.atom, minimum, Some(0), s.greedy, s.backward, x) == [x]
  {
  }
}
